/** get_class_popularity: every class with the number of attendance rows
    recorded for it, most attended first, at most ten. */
module Popularity {
  import opened Aggregate
  import opened Sorting
  import opened Store

  /** `{'name', 'time', 'attendance'}`. */
  datatype PopularityRow = PopularityRow(name: string, time: int, attendance: nat)

  /** The most rows shown: `LIMIT 10`. */
  const PopularityLimit := 10

  /** The join condition `c.class_id = a.class_id`. */
  function NamesClass(classId: int): Attendance -> bool {
    (a: Attendance) => a.classId == classId
  }

  /** `COUNT(a.attendance_id)` for one class under `LEFT JOIN Attendance a ON
      c.class_id = a.class_id`: the number of attendance rows naming the class.
      It is 0 exactly when no row names the class (the join then yields one row
      whose attendance_id is NULL, which COUNT skips), so the LEFT JOIN keeps
      unattended classes with 0. */
  function AttendanceCount(att: seq<Attendance>, classId: int): (n: nat)
    ensures n == |Filter(att, NamesClass(classId))|
    ensures n <= |att|
    ensures n == 0 <==> forall k :: 0 <= k < |att| ==> att[k].classId != classId
    ensures n == |att| <==> forall k :: 0 <= k < |att| ==> att[k].classId == classId
  {
    CountKeyIsFilterLength(att, AttendanceClass, classId, NamesClass(classId));
    assert CountWhere(att, NamesClass(classId)) == CountKey(att, AttendanceClass, classId);
    CountKey(att, AttendanceClass, classId)
  }

  /** `ORDER BY attendance DESC`; classes with equal counts keep table order,
      which the query leaves unspecified. */
  function PopularityRank(att: seq<Attendance>): Class -> Rank {
    (c: Class) => Rank(AttendanceCount(att, c.id), 0)
  }

  /** The classes shown, in display order. Grouping is by class_id, so two
      classes that share a name are two rows. */
  function RankedClasses(s: Store): seq<Class> {
    TopN(s.classes, PopularityRank(s.attendance), PopularityLimit)
  }

  function PopularityRowOf(att: seq<Attendance>, c: Class): PopularityRow {
    PopularityRow(c.name, c.time, AttendanceCount(att, c.id))
  }

  function ClassPopularity(s: Store): (rows: seq<PopularityRow>)
    ensures |rows| == Min(PopularityLimit, |s.classes|)
    ensures |rows| == |RankedClasses(s)|
    ensures forall i :: 0 <= i < |rows| ==>
              rows[i].name == RankedClasses(s)[i].name && rows[i].time == RankedClasses(s)[i].time
              && rows[i].attendance == AttendanceCount(s.attendance, RankedClasses(s)[i].id)
    ensures forall i, j :: 0 <= i < j < |rows| ==> rows[i].attendance >= rows[j].attendance
  {
    var ranked := RankedClasses(s);
    assert forall i, j :: 0 <= i < j < |ranked| ==>
             AtLeast(PopularityRank(s.attendance)(ranked[i]), PopularityRank(s.attendance)(ranked[j]));
    seq(|ranked|, i requires 0 <= i < |ranked| => PopularityRowOf(s.attendance, ranked[i]))
  }

  /** The shown classes come from the Classes table, each at most as often as
      it occurs there; with ten classes or fewer, all of them are shown. */
  lemma RankedClassesFromTable(s: Store)
    ensures multiset(RankedClasses(s)) <= multiset(s.classes)
    ensures |s.classes| <= PopularityLimit ==> multiset(RankedClasses(s)) == multiset(s.classes)
  {
    var ranked := RankedClasses(s);
    var sorted := Sort(s.classes, PopularityRank(s.attendance));
    if |s.classes| <= PopularityLimit {
      assert ranked == sorted[..|sorted|];
      assert sorted[..|sorted|] == sorted;
    }
  }

  /** A class the limit leaves out has no more attendance than any class shown. */
  lemma OmittedClassesLessPopular(s: Store, c: Class)
    requires c in multiset(s.classes) - multiset(RankedClasses(s))
    ensures forall i :: 0 <= i < |ClassPopularity(s)| ==>
              ClassPopularity(s)[i].attendance >= AttendanceCount(s.attendance, c.id)
  {
    TopNOutranksRest(s.classes, PopularityRank(s.attendance), PopularityLimit, c);
    var ranked := RankedClasses(s);
    forall i | 0 <= i < |ranked|
      ensures AttendanceCount(s.attendance, ranked[i].id) >= AttendanceCount(s.attendance, c.id)
    {
      assert AtLeast(PopularityRank(s.attendance)(ranked[i]), PopularityRank(s.attendance)(c));
    }
  }
}
