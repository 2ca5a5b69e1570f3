/** The dashboard metrics: get_analytics_data, the recent-rows lists and the
    class timetable. "today" stands for MySQL's CURDATE(). */
module Analytics {
  import opened Calendar
  import opened Rounding
  import opened Aggregate
  import opened Sorting
  import opened Store

  /** The dictionary get_analytics_data fills in, one field per key. */
  datatype AnalyticsData = AnalyticsData(
    totalRevenue: int,
    totalMembers: nat,
    newMembersThisMonth: nat,
    totalClasses: nat,
    totalTrainers: nat,
    todayAttendance: nat,
    todayPayments: int,
    attendanceRate: int)

  /** `SELECT SUM(amount) FROM Payments`, 0 when there are no payments. */
  function TotalRevenue(ps: seq<Payment>): (t: int)
    ensures ps == [] ==> t == 0
    ensures (forall i :: 0 <= i < |ps| ==> ps[i].amount >= 0) ==> t >= 0
  {
    SumNonNegative(ps, PaymentAmount);
    Sum(ps, PaymentAmount)
  }

  /** `MONTH(start_date) = MONTH(CURDATE()) AND YEAR(start_date) = YEAR(CURDATE())`. */
  function JoinedInMonthOf(today: Date): Member -> bool {
    (m: Member) => SameMonth(m.startDate, today)
  }

  /** Members whose start_date lies in the calendar month of today; the same
      query is issued by get_analytics_data and get_reports_data. The count is
      the length of the filtered table: 0 exactly when nobody joined this
      month, everyone exactly when all joined this month. */
  function MembersJoinedInMonth(ms: seq<Member>, today: Date): (n: nat)
    ensures n == |Filter(ms, JoinedInMonthOf(today))|
    ensures n <= |ms|
    ensures n == 0 <==> forall i :: 0 <= i < |ms| ==> !SameMonth(ms[i].startDate, today)
    ensures n == |ms| <==> forall i :: 0 <= i < |ms| ==> SameMonth(ms[i].startDate, today)
  {
    CountWhere(ms, JoinedInMonthOf(today))
  }

  /** `date = CURDATE()`. */
  function DatedOn(today: Date): Attendance -> bool {
    (a: Attendance) => a.date == today
  }

  /** `SELECT COUNT(*) FROM Attendance WHERE date = CURDATE()`. */
  function AttendanceOn(att: seq<Attendance>, today: Date): (n: nat)
    ensures n == |Filter(att, DatedOn(today))|
    ensures n <= |att|
    ensures n == 0 <==> forall i :: 0 <= i < |att| ==> att[i].date != today
    ensures n == |att| <==> forall i :: 0 <= i < |att| ==> att[i].date == today
  {
    CountWhere(att, DatedOn(today))
  }

  /** `payment_date = CURDATE()`. */
  function PaidOn(today: Date): Payment -> bool {
    (p: Payment) => p.date == today
  }

  /** `SELECT COALESCE(SUM(amount), 0) FROM Payments WHERE payment_date = CURDATE()`:
      the sum of the payments dated today; 0 when there are none, the whole
      revenue when every payment is. */
  function PaymentsOn(ps: seq<Payment>, today: Date): (r: int)
    ensures r == Sum(Filter(ps, PaidOn(today)), PaymentAmount)
    ensures (forall i :: 0 <= i < |ps| ==> ps[i].date != today) ==> r == 0
    ensures (forall i :: 0 <= i < |ps| ==> ps[i].date == today) ==> r == TotalRevenue(ps)
  {
    SumWhere(ps, PaidOn(today), PaymentAmount)
  }

  /** `round(count / total * 100)` guarded by `total > 0`: the nearest integer
      percentage, ties to even, 0 for an empty Members table. It is not
      clamped, so it exceeds 100 when count exceeds total. */
  function PercentOf(count: nat, total: nat): (r: int)
    ensures total == 0 ==> r == 0
    ensures total > 0 ==> -(total as int) <= 2 * (r * total - 100 * count) <= total
    ensures total > 0 && (2 * (r * total - 100 * count) == total || 2 * (r * total - 100 * count) == -(total as int))
            ==> r % 2 == 0
  {
    if total > 0 then RoundHalfEven(100 * count, total) else 0
  }

  function GetAnalyticsData(s: Store, today: Date): (a: AnalyticsData)
    ensures a.totalRevenue == TotalRevenue(s.payments)
    ensures a.totalMembers == |s.members| && a.totalClasses == |s.classes| && a.totalTrainers == |s.trainers|
    ensures a.newMembersThisMonth == MembersJoinedInMonth(s.members, today)
    ensures a.todayAttendance == AttendanceOn(s.attendance, today)
    ensures a.todayPayments == PaymentsOn(s.payments, today)
    ensures a.attendanceRate == PercentOf(a.todayAttendance, a.totalMembers)
    ensures s.payments == [] ==> a.totalRevenue == 0 && a.todayPayments == 0
    ensures a.newMembersThisMonth <= a.totalMembers
    ensures a.todayAttendance <= |s.attendance|
    ensures a.totalMembers == 0 ==> a.attendanceRate == 0
    ensures a.totalMembers > 0 ==>
              -(a.totalMembers as int) <= 2 * (a.attendanceRate * a.totalMembers - 100 * a.todayAttendance) <= a.totalMembers
    ensures a.totalMembers > 0
            && (2 * (a.attendanceRate * a.totalMembers - 100 * a.todayAttendance) == a.totalMembers
                || 2 * (a.attendanceRate * a.totalMembers - 100 * a.todayAttendance) == -(a.totalMembers as int))
            ==> a.attendanceRate % 2 == 0
    ensures (forall i :: 0 <= i < |s.payments| ==> s.payments[i].amount >= 0) ==>
              0 <= a.todayPayments <= a.totalRevenue
  {
    TodayPaymentsAtMostTotal(s.payments, today);
    var totalMembers := |s.members|;
    var todayAttendance := AttendanceOn(s.attendance, today);
    AnalyticsData(
      totalRevenue := TotalRevenue(s.payments),
      totalMembers := totalMembers,
      newMembersThisMonth := MembersJoinedInMonth(s.members, today),
      totalClasses := |s.classes|,
      totalTrainers := |s.trainers|,
      todayAttendance := todayAttendance,
      todayPayments := PaymentsOn(s.payments, today),
      attendanceRate := PercentOf(todayAttendance, totalMembers))
  }

  /** With no negative amounts, today's takings lie between 0 and the total revenue. */
  lemma TodayPaymentsAtMostTotal(ps: seq<Payment>, today: Date)
    ensures (forall i :: 0 <= i < |ps| ==> ps[i].amount >= 0) ==> 0 <= PaymentsOn(ps, today) <= TotalRevenue(ps)
  {
    if forall i :: 0 <= i < |ps| ==> ps[i].amount >= 0 {
      SumWhereAtMostSum(ps, PaidOn(today), PaymentAmount);
    }
  }

  /** Recording one more payment with a non-negative amount never lowers the
      revenue figures. */
  lemma RevenueMonotone(s: Store, p: Payment, today: Date)
    requires p.amount >= 0
    ensures GetAnalyticsData(s.(payments := s.payments + [p]), today).totalRevenue
            >= GetAnalyticsData(s, today).totalRevenue
    ensures GetAnalyticsData(s.(payments := s.payments + [p]), today).todayPayments
            >= GetAnalyticsData(s, today).todayPayments
  {
    SumAppend(s.payments, [p], PaymentAmount);
    SumWhereAppend(s.payments, [p], PaidOn(today), PaymentAmount);
  }

  /** The attendance rate is a ratio to the member count and is not capped:
      one member with two attendance rows today gives 200. */
  lemma AttendanceRateUncapped(today: Date)
    ensures GetAnalyticsData(
              Store([Member(1, "gold", today)], [], [],  [],
                    [Attendance(1, 1, 1, today), Attendance(2, 1, 1, today)]),
              today).attendanceRate == 200
  {
    var att := [Attendance(1, 1, 1, today), Attendance(2, 1, 1, today)];
    var onToday := DatedOn(today);
    assert att[1..][1..] == [];
    assert CountWhere(att, onToday) == 2;
    RoundExact(200, 1);
  }

  /** One gold member who paid 50.00 today and has not attended: revenue and
      today's takings are both 50.00, the attendance rate 0. */
  lemma OneMemberOnePayment(today: Date)
    ensures GetAnalyticsData(Store([Member(1, "gold", today)], [], [], [Payment(1, 1, 5000, today)], []), today)
            == AnalyticsData(5000, 1, 1, 0, 0, 0, 5000, 0)
  {
    var s := Store([Member(1, "gold", today)], [], [], [Payment(1, 1, 5000, today)], []);
    assert s.payments[1..] == [] && s.members[1..] == [];
    assert Sum(s.payments[1..], PaymentAmount) == 0;
    assert TotalRevenue(s.payments) == 5000;
    var onToday := PaidOn(today);
    assert SumWhere(s.payments[1..], onToday, PaymentAmount) == 0;
    assert SumWhere(s.payments, onToday, PaymentAmount) == 5000;
    assert MembersJoinedInMonth(s.members, today) == 1;
    assert AttendanceOn(s.attendance, today) == 0;
    RoundExact(0, 1);
    assert PercentOf(0, 1) == 0;
  }

  // ----- recent rows -----

  /** `ORDER BY date DESC, id DESC` as a rank. */
  function Recency(d: Date, id: int): Rank {
    Rank(DateOrdinal(d), id)
  }

  /** Ranking by Recency is ranking by date, latest first, then by id, highest first. */
  lemma RecencyIsDateThenId(d1: Date, id1: int, d2: Date, id2: int)
    ensures AtLeast(Recency(d1, id1), Recency(d2, id2))
            <==> Before(d2, d1) || (d1 == d2 && id1 >= id2)
  {
    OrdinalIsCalendarOrder(d1, d2);
    OrdinalIsCalendarOrder(d2, d1);
  }

  function PaymentRecency(p: Payment): Rank { Recency(p.date, p.id) }
  function MemberRecency(m: Member): Rank { Recency(m.startDate, m.id) }
  function AttendanceRecency(a: Attendance): Rank { Recency(a.date, a.id) }

  /** get_recent_payments: the first `limit` payments by (payment_date, payment_id)
      descending. */
  function RecentPayments(s: Store, limit: nat): (r: seq<Payment>)
    ensures |r| == Min(limit, |s.payments|)
    ensures multiset(r) <= multiset(s.payments)
    ensures SortedDesc(r, PaymentRecency)
    ensures r == Sort(s.payments, PaymentRecency)[..|r|]
  {
    TopN(s.payments, PaymentRecency, limit)
  }

  /** get_recent_members: the first `limit` members by (start_date, member_id)
      descending. */
  function RecentMembers(s: Store, limit: nat): (r: seq<Member>)
    ensures |r| == Min(limit, |s.members|)
    ensures multiset(r) <= multiset(s.members)
    ensures SortedDesc(r, MemberRecency)
    ensures r == Sort(s.members, MemberRecency)[..|r|]
  {
    TopN(s.members, MemberRecency, limit)
  }

  /** get_recent_attendance: the first `limit` attendance rows by
      (date, attendance_id) descending. */
  function RecentAttendance(s: Store, limit: nat): (r: seq<Attendance>)
    ensures |r| == Min(limit, |s.attendance|)
    ensures multiset(r) <= multiset(s.attendance)
    ensures SortedDesc(r, AttendanceRecency)
    ensures r == Sort(s.attendance, AttendanceRecency)[..|r|]
  {
    TopN(s.attendance, AttendanceRecency, limit)
  }

  /** A payment left out of the recent list is no more recent than any payment
      in it. */
  lemma RecentPaymentsAreLatest(s: Store, limit: nat, p: Payment)
    requires p in multiset(s.payments) - multiset(RecentPayments(s, limit))
    ensures forall i :: 0 <= i < |RecentPayments(s, limit)| ==>
              Before(p.date, RecentPayments(s, limit)[i].date)
              || (p.date == RecentPayments(s, limit)[i].date && p.id <= RecentPayments(s, limit)[i].id)
  {
    TopNOutranksRest(s.payments, PaymentRecency, limit, p);
    var r := RecentPayments(s, limit);
    forall i | 0 <= i < |r|
      ensures Before(p.date, r[i].date) || (p.date == r[i].date && p.id <= r[i].id)
    {
      RecencyIsDateThenId(r[i].date, r[i].id, p.date, p.id);
    }
  }

  // ----- timetable -----

  function ClassTimeRank(c: Class): Rank { Rank(-c.time, 0) }

  /** get_todays_classes: every class, ordered by time of day ascending (there
      is no date filter). */
  function TodaysClasses(s: Store): (r: seq<Class>)
    ensures multiset(r) == multiset(s.classes)
    ensures forall i, j :: 0 <= i < j < |r| ==> r[i].time <= r[j].time
  {
    var r := Sort(s.classes, ClassTimeRank);
    assert forall i, j :: 0 <= i < j < |r| ==> AtLeast(ClassTimeRank(r[i]), ClassTimeRank(r[j]));
    r
  }
}
