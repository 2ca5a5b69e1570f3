/** get_trainer_performance: one row per trainer with the number of classes
    the trainer teaches and the mean attendance of those of them that have
    been attended, ordered by class count and then by that mean. */
module TrainerPerformance {
  import Calendar
  import opened Rounding
  import opened Aggregate
  import opened Sorting
  import opened Store
  import opened Popularity

  /** `{'name', 'specialty', 'classes', 'avg_attendance'}`. */
  datatype TrainerRow = TrainerRow(name: string, specialty: string, classes: nat, avgAttendance: int)

  /** One group of the query before ORDER BY: the trainer,
      `COUNT(DISTINCT c.class_id)`, and `COALESCE(AVG(...), 0)` as the DECIMAL
      MySQL computes, with four decimal places, scaled by 10000. */
  datatype TrainerStat = TrainerStat(trainer: Trainer, classes: nat, avgScaled: int)

  /** `t.trainer_id = c.trainer_id`; a class whose trainer_id is NULL matches no trainer. */
  function TaughtBy(trainerId: int): Class -> bool {
    (c: Class) => c.trainerId == Some(trainerId)
  }

  /** The classes `LEFT JOIN Classes` attaches to trainer t. */
  function ClassesOf(cs: seq<Class>, t: Trainer): seq<Class> {
    Filter(cs, TaughtBy(t.id))
  }

  function ClassId(c: Class): int { c.id }

  /** `COUNT(DISTINCT c.class_id)`: at most the number of the trainer's
      classes, and 0 exactly when the join attached only the NULL row. */
  function ClassCount(cs: seq<Class>, t: Trainer): (n: nat)
    ensures n <= |ClassesOf(cs, t)|
    ensures n == 0 <==> ClassesOf(cs, t) == []
  {
    var ids := Keys(ClassesOf(cs, t), ClassId);
    assert ids != [] ==> ids[0] in Distinct(ids);
    |Distinct(ids)|
  }

  /** The subquery row for a class exists only when the class has attendance;
      for the others the LEFT JOIN yields NULL, which AVG skips. */
  function Attended(att: seq<Attendance>): Class -> bool {
    (c: Class) => AttendanceCount(att, c.id) > 0
  }

  function ClassAttendance(att: seq<Attendance>): Class -> int {
    (c: Class) => AttendanceCount(att, c.id)
  }

  /** The trainer's classes whose per-class count is not NULL. */
  function AttendedClassesOf(s: Store, t: Trainer): seq<Class> {
    Filter(ClassesOf(s.classes, t), Attended(s.attendance))
  }

  /** `COALESCE(AVG(class_attendance.avg_attendance), 0)`, times 10000. AVG of
      integers is a DECIMAL with four more decimal places than its argument,
      rounded half away from zero; with no non-NULL value it is NULL, and
      COALESCE makes that 0. */
  function AverageScaled(s: Store, t: Trainer): (a: int)
    ensures AttendedClassesOf(s, t) == [] ==> a == 0
    ensures a >= 0
    ensures var attended := AttendedClassesOf(s, t);
      attended != [] ==>
        -|attended| < 2 * (a * |attended| - 10000 * Sum(attended, ClassAttendance(s.attendance))) <= |attended|
  {
    var attended := AttendedClassesOf(s, t);
    if |attended| == 0 then 0
    else
      var total := Sum(attended, ClassAttendance(s.attendance));
      SumNonNegative(attended, ClassAttendance(s.attendance));
      RoundExact(0, |attended|);
      RoundHalfAwayMonotone(0, 10000 * total, |attended|);
      RoundHalfAway(10000 * total, |attended|)
  }

  function StatOf(s: Store, t: Trainer): TrainerStat {
    TrainerStat(t, ClassCount(s.classes, t), AverageScaled(s, t))
  }

  /** `GROUP BY t.trainer_id`: one group per trainer. */
  function Stats(s: Store): (st: seq<TrainerStat>)
    ensures |st| == |s.trainers|
    ensures forall i :: 0 <= i < |s.trainers| ==> st[i] == StatOf(s, s.trainers[i])
  {
    seq(|s.trainers|, i requires 0 <= i < |s.trainers| => StatOf(s, s.trainers[i]))
  }

  /** `ORDER BY classes DESC, avg_attendance DESC`, on the DECIMAL average;
      ties keep table order, which the query leaves unspecified. */
  function StatRank(st: TrainerStat): Rank {
    Rank(st.classes, st.avgScaled)
  }

  function RankedStats(s: Store): seq<TrainerStat> {
    Sort(Stats(s), StatRank)
  }

  /** The Python row: `round(float(avg_attendance))`, half to even. */
  function RowOf(st: TrainerStat): TrainerRow {
    TrainerRow(st.trainer.name, st.trainer.specialty, st.classes, RoundHalfEven(st.avgScaled, 10000))
  }

  /** One row per trainer (the ranked groups are a permutation of the
      per-trainer groups), ordered by class count and then by the rounded
      average, both descending. */
  function GetTrainerPerformance(s: Store): (rows: seq<TrainerRow>)
    ensures |rows| == |s.trainers|
    ensures multiset(RankedStats(s)) == multiset(Stats(s))
    ensures forall i :: 0 <= i < |rows| ==> rows[i] == RowOf(RankedStats(s)[i])
    ensures forall i, j :: 0 <= i < j < |rows| ==>
              rows[i].classes > rows[j].classes
              || (rows[i].classes == rows[j].classes && rows[i].avgAttendance >= rows[j].avgAttendance)
  {
    var ranked := RankedStats(s);
    var rows := seq(|ranked|, i requires 0 <= i < |ranked| => RowOf(ranked[i]));
    forall i, j | 0 <= i < j < |rows|
      ensures rows[i].classes > rows[j].classes
              || (rows[i].classes == rows[j].classes && rows[i].avgAttendance >= rows[j].avgAttendance)
    {
      assert AtLeast(StatRank(ranked[i]), StatRank(ranked[j]));
      if ranked[i].classes == ranked[j].classes {
        RoundHalfEvenMonotone(ranked[j].avgScaled, ranked[i].avgScaled, 10000);
      }
    }
    rows
  }

  /** The ids of trainer t's classes: the GROUP's `c.class_id` values. */
  function TaughtIds(s: Store, t: Trainer): set<int> {
    set k | 0 <= k < |s.classes| && s.classes[k].trainerId == Some(t.id) :: s.classes[k].id
  }

  /** The class count is the number of different class ids among the classes
      whose trainer_id is the trainer's. */
  lemma ClassCountIsDistinctIds(s: Store, t: Trainer)
    ensures ClassCount(s.classes, t) == |TaughtIds(s, t)|
  {
    var ids := Keys(ClassesOf(s.classes, t), ClassId);
    DistinctCardinality(ids);
    IdsWithinTaught(s, t);
    TaughtWithinIds(s, t);
    assert (set x | x in ids) == TaughtIds(s, t);
  }

  lemma IdsWithinTaught(s: Store, t: Trainer)
    ensures forall x :: x in Keys(ClassesOf(s.classes, t), ClassId) ==> x in TaughtIds(s, t)
  {
    var cls := ClassesOf(s.classes, t);
    var ids := Keys(cls, ClassId);
    forall x | x in ids
      ensures x in TaughtIds(s, t)
    {
      var m :| 0 <= m < |ids| && ids[m] == x;
      assert cls[m] in s.classes && TaughtBy(t.id)(cls[m]);
      var k :| 0 <= k < |s.classes| && s.classes[k] == cls[m];
      assert s.classes[k].id == x;
    }
  }

  lemma TaughtWithinIds(s: Store, t: Trainer)
    ensures forall x :: x in TaughtIds(s, t) ==> x in Keys(ClassesOf(s.classes, t), ClassId)
  {
    var cls := ClassesOf(s.classes, t);
    var ids := Keys(cls, ClassId);
    forall x | x in TaughtIds(s, t)
      ensures x in ids
    {
      var k :| 0 <= k < |s.classes| && s.classes[k].trainerId == Some(t.id) && s.classes[k].id == x;
      assert TaughtBy(t.id)(s.classes[k]);
      assert s.classes[k] in cls;
      var m :| 0 <= m < |cls| && cls[m] == s.classes[k];
      assert ids[m] == x;
    }
  }

  /** A trainer has a class count of 0 exactly when no class names the
      trainer, and then the average is 0 too. */
  lemma NoClassesNoAverage(s: Store, t: Trainer)
    ensures ClassCount(s.classes, t) == 0 <==> forall k :: 0 <= k < |s.classes| ==> s.classes[k].trainerId != Some(t.id)
    ensures ClassCount(s.classes, t) == 0 ==> AverageScaled(s, t) == 0 && RowOf(StatOf(s, t)).avgAttendance == 0
  {
    var cls := ClassesOf(s.classes, t);
    var ids := Keys(cls, ClassId);
    if exists k :: 0 <= k < |s.classes| && s.classes[k].trainerId == Some(t.id) {
      var k :| 0 <= k < |s.classes| && s.classes[k].trainerId == Some(t.id);
      assert TaughtBy(t.id)(s.classes[k]);
      assert s.classes[k] in cls;
      assert ids[0] in Distinct(ids);
    }
    if cls != [] {
      assert TaughtBy(t.id)(cls[0]);
      assert cls[0] in s.classes;
    }
    if ClassCount(s.classes, t) == 0 {
      assert ids == [];
      assert AttendedClassesOf(s, t) == [];
      RoundExact(0, 10000);
    }
  }

  /** A trainer none of whose classes has attendance averages 0: AVG over only
      NULLs is NULL, and COALESCE turns it into 0. */
  lemma UnattendedAverageZero(s: Store, t: Trainer)
    requires forall k :: 0 <= k < |s.classes| && s.classes[k].trainerId == Some(t.id) ==>
               AttendanceCount(s.attendance, s.classes[k].id) == 0
    ensures AverageScaled(s, t) == 0
    ensures RowOf(StatOf(s, t)).avgAttendance == 0
  {
    var attended := AttendedClassesOf(s, t);
    if attended != [] {
      AttendedClassIsTaught(s, t, 0);
      assert false;
    }
    RoundExact(0, 10000);
  }

  /** The average lies between the smallest and the largest count among the
      trainer's attended classes; so when all of them have the same count c,
      the average is c. */
  lemma AverageWithinCounts(s: Store, t: Trainer, lo: int, hi: int)
    requires exists k :: 0 <= k < |s.classes| && s.classes[k].trainerId == Some(t.id)
                         && AttendanceCount(s.attendance, s.classes[k].id) > 0
    requires forall k :: 0 <= k < |s.classes| && s.classes[k].trainerId == Some(t.id)
                         && AttendanceCount(s.attendance, s.classes[k].id) > 0 ==>
               lo <= AttendanceCount(s.attendance, s.classes[k].id) <= hi
    ensures 10000 * lo <= AverageScaled(s, t) <= 10000 * hi
    ensures lo <= RowOf(StatOf(s, t)).avgAttendance <= hi
  {
    var attended := AttendedClassesOf(s, t);
    var w := ClassAttendance(s.attendance);
    var n := |attended|;
    forall i | 0 <= i < n
      ensures lo <= w(attended[i]) <= hi
    {
      AttendedClassIsTaught(s, t, i);
    }
    var k :| 0 <= k < |s.classes| && s.classes[k].trainerId == Some(t.id)
             && AttendanceCount(s.attendance, s.classes[k].id) > 0;
    assert TaughtBy(t.id)(s.classes[k]);
    assert s.classes[k] in ClassesOf(s.classes, t);
    assert Attended(s.attendance)(s.classes[k]);
    assert s.classes[k] in attended;
    SumBounds(attended, w, lo, hi);
    var total := Sum(attended, w);
    AverageOfBounded(total, n, lo, hi);
  }

  /** Each class averaged over is a class of the trainer's, with attendance. */
  lemma AttendedClassIsTaught(s: Store, t: Trainer, i: int)
    requires 0 <= i < |AttendedClassesOf(s, t)|
    ensures exists k :: 0 <= k < |s.classes| && s.classes[k] == AttendedClassesOf(s, t)[i]
                        && s.classes[k].trainerId == Some(t.id)
                        && AttendanceCount(s.attendance, s.classes[k].id) > 0
  {
    var c := AttendedClassesOf(s, t)[i];
    assert c in ClassesOf(s.classes, t) && Attended(s.attendance)(c);
    assert TaughtBy(t.id)(c) && c in s.classes;
    var k :| 0 <= k < |s.classes| && s.classes[k] == c;
  }

  /** Rounding a bounded mean: from n*lo <= total <= n*hi, the four-place
      DECIMAL mean lies in [lo, hi] and so does its rounding to an integer. */
  lemma AverageOfBounded(total: int, n: int, lo: int, hi: int)
    requires n > 0 && n * lo <= total <= n * hi
    ensures 10000 * lo <= RoundHalfAway(10000 * total, n) <= 10000 * hi
    ensures lo <= RoundHalfEven(RoundHalfAway(10000 * total, n), 10000) <= hi
  {
    var scaled := RoundHalfAway(10000 * total, n);
    assert (10000 * lo) * n <= 10000 * total <= (10000 * hi) * n;
    RoundExact(10000 * lo, n);
    RoundExact(10000 * hi, n);
    RoundHalfAwayMonotone((10000 * lo) * n, 10000 * total, n);
    RoundHalfAwayMonotone(10000 * total, (10000 * hi) * n, n);
    RoundExact(lo, 10000);
    RoundExact(hi, 10000);
    RoundHalfEvenMonotone(lo * 10000, scaled, 10000);
    RoundHalfEvenMonotone(scaled, hi * 10000, 10000);
  }

  /** A trainer with two classes, one attended three times and one never,
      averages 3: the unattended class is left out of the mean rather than
      counted as 0 (which would give round(1.5) = 2). */
  lemma UnattendedClassSkipped(d: Calendar.Date)
    ensures var t := Trainer(1, "Ann", "Yoga");
      RowOf(StatOf(Store([], [t], [Class(1, "Yoga", Some(1), 0), Class(2, "Pilates", Some(1), 0)], [],
                         [Attendance(1, 1, 1, d), Attendance(2, 2, 1, d), Attendance(3, 3, 1, d)]), t))
      == TrainerRow("Ann", "Yoga", 2, 3)
  {
    var t := Trainer(1, "Ann", "Yoga");
    var cs := [Class(1, "Yoga", Some(1), 0), Class(2, "Pilates", Some(1), 0)];
    var att := [Attendance(1, 1, 1, d), Attendance(2, 2, 1, d), Attendance(3, 3, 1, d)];
    var s := Store([], [t], cs, [], att);
    assert cs[1..][1..] == [];
    assert ClassesOf(cs, t) == cs;
    var ids := Keys(cs, ClassId);
    assert ids == [1, 2];
    assert ids[1..][1..] == [];
    assert Distinct(ids) == [1, 2];
    assert att[1..][1..][1..] == [];
    assert CountKey(att[2..], AttendanceClass, 1) == 1;
    assert CountKey(att[1..], AttendanceClass, 1) == 2;
    assert AttendanceCount(att, 1) == 3;
    assert CountKey(att[2..], AttendanceClass, 2) == 0;
    assert CountKey(att[1..], AttendanceClass, 2) == 0;
    assert AttendanceCount(att, 2) == 0;
    assert AttendedClassesOf(s, t) == [cs[0]];
    assert Sum([cs[0]], ClassAttendance(att)) == 3;
    RoundExact(30000, 1);
    RoundExact(3, 10000);
  }
}
