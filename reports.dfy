/** The reports page: get_reports_data and the monthly payments view
    get_monthly_payments. The other grouped views of the page are in modules
    Membership, Popularity and TrainerPerformance. "today" stands for MySQL's
    CURDATE(). */
module Reports {
  import opened Calendar
  import opened Aggregate
  import opened Sorting
  import opened Store
  import Analytics

  // ----- get_reports_data -----

  /** The dictionary get_reports_data fills in, one field per key. */
  datatype ReportsData = ReportsData(
    monthlyRevenue: int,
    memberGrowth: nat,
    avgAttendance: int,
    classUtilization: int,
    revenueGrowth: int)

  /** Fixed figures the source reports as placeholders, not computed. */
  const ClassUtilizationPlaceholder := 75
  const RevenueGrowthPlaceholder := 12

  /** `SELECT COALESCE(SUM(amount), 0) FROM Payments WHERE MONTH(payment_date) =
      MONTH(CURDATE()) AND YEAR(payment_date) = YEAR(CURDATE())`: the total of
      the payments whose calendar month is today's. */
  function MonthlyRevenue(ps: seq<Payment>, today: Date): (r: int)
    ensures r == Sum(Filter(ps, PaidInMonthOf(today)), PaymentAmount)
    ensures (forall i :: 0 <= i < |ps| ==> !SameMonth(ps[i].date, today)) ==> r == 0
    ensures (forall i :: 0 <= i < |ps| ==> SameMonth(ps[i].date, today)) ==> r == Analytics.TotalRevenue(ps)
  {
    SumKeyIsFilterSum(ps, PaymentMonth, MonthOf(today), PaidInMonthOf(today), PaymentAmount);
    SumKey(ps, PaymentMonth, MonthOf(today), PaymentAmount)
  }

  /** `MONTH(payment_date) = MONTH(CURDATE()) AND YEAR(payment_date) = YEAR(CURDATE())`. */
  function PaidInMonthOf(today: Date): Payment -> bool {
    (p: Payment) => SameMonth(p.date, today)
  }

  /** `MONTH(date) = MONTH(CURDATE()) AND YEAR(date) = YEAR(CURDATE())`. */
  function InMonthOf(today: Date): Attendance -> bool {
    (a: Attendance) => SameMonth(a.date, today)
  }

  /** Attendance rows dated in today's calendar month: the length of the
      filtered table, 0 exactly when no row is, all of them exactly when every
      row is. */
  function AttendanceInMonth(att: seq<Attendance>, today: Date): (n: nat)
    ensures n == |Filter(att, InMonthOf(today))|
    ensures n <= |att|
    ensures n == 0 <==> forall i :: 0 <= i < |att| ==> !SameMonth(att[i].date, today)
    ensures n == |att| <==> forall i :: 0 <= i < |att| ==> SameMonth(att[i].date, today)
  {
    CountWhere(att, InMonthOf(today))
  }

  function GetReportsData(s: Store, today: Date): (r: ReportsData)
    ensures r.monthlyRevenue == MonthlyRevenue(s.payments, today)
    ensures r.memberGrowth == Analytics.MembersJoinedInMonth(s.members, today)
    ensures r.memberGrowth == Analytics.GetAnalyticsData(s, today).newMembersThisMonth
    ensures r.avgAttendance == Analytics.PercentOf(AttendanceInMonth(s.attendance, today), |s.members|)
    ensures r.memberGrowth <= |s.members|
    ensures |s.members| == 0 ==> r.avgAttendance == 0
    ensures |s.members| > 0 ==>
              -(|s.members| as int) <= 2 * (r.avgAttendance * |s.members| - 100 * AttendanceInMonth(s.attendance, today))
              <= |s.members|
    ensures |s.members| > 0
            && (2 * (r.avgAttendance * |s.members| - 100 * AttendanceInMonth(s.attendance, today)) == |s.members|
                || 2 * (r.avgAttendance * |s.members| - 100 * AttendanceInMonth(s.attendance, today)) == -(|s.members| as int))
            ==> r.avgAttendance % 2 == 0
    ensures (forall i :: 0 <= i < |s.payments| ==> s.payments[i].amount >= 0) ==>
              0 <= r.monthlyRevenue <= Analytics.TotalRevenue(s.payments)
    ensures r.classUtilization == 75 && r.revenueGrowth == 12
  {
    MonthlyRevenueAtMostTotal(s.payments, today);
    ReportsData(
      monthlyRevenue := MonthlyRevenue(s.payments, today),
      memberGrowth := Analytics.MembersJoinedInMonth(s.members, today),
      avgAttendance := Analytics.PercentOf(AttendanceInMonth(s.attendance, today), |s.members|),
      classUtilization := ClassUtilizationPlaceholder,
      revenueGrowth := RevenueGrowthPlaceholder)
  }

  lemma MonthlyRevenueAtMostTotal(ps: seq<Payment>, today: Date)
    ensures (forall i :: 0 <= i < |ps| ==> ps[i].amount >= 0) ==>
              0 <= MonthlyRevenue(ps, today) <= Analytics.TotalRevenue(ps)
  {
    if forall i :: 0 <= i < |ps| ==> ps[i].amount >= 0 {
      SumKeyAtMostSum(ps, PaymentMonth, MonthOf(today), PaymentAmount);
    }
  }

  // ----- get_monthly_payments -----

  /** `{'month', 'total', 'count'}`: a calendar month with the sum and the
      number of its payments. */
  type MonthRow = Group<YearMonth>

  /** `DATE_SUB(CURDATE(), INTERVAL 6 MONTH)`. */
  function WindowStart(today: Date): Date {
    SubMonths(today, 6)
  }

  /** `WHERE payment_date >= DATE_SUB(CURDATE(), INTERVAL 6 MONTH)`: there is
      no upper bound, so payments dated after today are kept. */
  function PaymentsSince(ps: seq<Payment>, start: Date): seq<Payment> {
    Filter(ps, OnOrAfter(start))
  }

  function OnOrAfter(start: Date): Payment -> bool {
    (p: Payment) => !Before(p.date, start)
  }

  function MonthRank(m: YearMonth): Rank {
    Rank(MonthOrdinal(m), 0)
  }

  /** The months of the window, latest first. */
  function WindowMonths(window: seq<Payment>): seq<YearMonth> {
    Sort(Distinct(Keys(window, PaymentMonth)), MonthRank)
  }

  /** `SELECT DATE_FORMAT(payment_date, '%Y-%m'), SUM(amount), COUNT(*) FROM Payments
      WHERE payment_date >= start GROUP BY 1 ORDER BY 1 DESC`. */
  function MonthlyRows(ps: seq<Payment>, start: Date): seq<MonthRow> {
    var window := PaymentsSince(ps, start);
    GroupsFor(WindowMonths(window), window, PaymentMonth, PaymentAmount)
  }

  function MonthlyPayments(s: Store, today: Date): (rows: seq<MonthRow>)
    // every month that has a payment in the window has a row
    ensures forall j :: 0 <= j < |s.payments| && !Before(s.payments[j].date, WindowStart(today)) ==>
              PaymentMonth(s.payments[j]) in GroupKeys(rows)
    // each row sums and counts exactly the window's payments of its month, of
    // which there is at least one
    ensures forall i :: 0 <= i < |rows| ==>
              var window := PaymentsSince(s.payments, WindowStart(today));
              rows[i].count == CountKey(window, PaymentMonth, rows[i].key) >= 1
              && rows[i].total == SumKey(window, PaymentMonth, rows[i].key, PaymentAmount)
    // latest month first, no month twice
    ensures forall i, j :: 0 <= i < j < |rows| ==> MonthOrdinal(rows[i].key) > MonthOrdinal(rows[j].key)
    // the rows partition the window
    ensures GroupCounts(rows) == |PaymentsSince(s.payments, WindowStart(today))|
    ensures GroupTotals(rows) == Sum(PaymentsSince(s.payments, WindowStart(today)), PaymentAmount)
  {
    var start := WindowStart(today);
    var rows := MonthlyRows(s.payments, start);
    MonthlyRowsCover(s.payments, start);
    MonthlyRowsCount(s.payments, start);
    MonthlyRowsOrder(s.payments, start);
    MonthlyRowsPartition(s.payments, start);
    rows
  }

  /** No row is older than six months before today's month. */
  lemma MonthlyWindowLowerBound(s: Store, today: Date)
    ensures forall i :: 0 <= i < |MonthlyPayments(s, today)| ==>
              MonthOrdinal(MonthlyPayments(s, today)[i].key) >= MonthOrdinal(MonthOf(today)) - 6
  {
    var start := WindowStart(today);
    var window := PaymentsSince(s.payments, start);
    var rows := MonthlyPayments(s, today);
    assert forall k :: 0 <= k < |window| ==> !Before(window[k].date, start) by {
      forall k | 0 <= k < |window|
        ensures !Before(window[k].date, start)
      {
        assert OnOrAfter(start)(window[k]);
      }
    }
    forall i | 0 <= i < |rows|
      ensures MonthOrdinal(rows[i].key) >= MonthOrdinal(MonthOf(today)) - 6
    {
      GroupMonthNotEarlier(window, start, rows[i].key);
    }
  }

  lemma GroupMonthNotEarlier(window: seq<Payment>, start: Date, m: YearMonth)
    requires forall k :: 0 <= k < |window| ==> !Before(window[k].date, start)
    requires CountKey(window, PaymentMonth, m) >= 1
    ensures MonthOrdinal(m) >= MonthOrdinal(MonthOf(start))
  {
    CountKeyPositive(window, PaymentMonth, m);
    var k :| 0 <= k < |window| && PaymentMonth(window[k]) == m;
    MonthOfMonotone(start, window[k].date);
  }

  /** The window has no upper bound: every payment dated today or later is
      counted, in its own month's row. */
  lemma LaterPaymentsCounted(s: Store, today: Date)
    ensures forall j :: 0 <= j < |s.payments| && !Before(s.payments[j].date, today) ==>
              PaymentMonth(s.payments[j]) in GroupKeys(MonthlyPayments(s, today))
  {
    var start := WindowStart(today);
    SubMonthsIsEarlier(today, 6);
    forall j | 0 <= j < |s.payments| && !Before(s.payments[j].date, today)
      ensures !Before(s.payments[j].date, start)
    {
      OrdinalIsCalendarOrder(s.payments[j].date, today);
      OrdinalIsCalendarOrder(start, today);
      OrdinalIsCalendarOrder(s.payments[j].date, start);
    }
  }

  /** The row for today's month, when there is one, holds the same total as the
      report's monthly_revenue: the window takes in all of today's month. */
  lemma CurrentMonthRowIsMonthlyRevenue(s: Store, today: Date)
    ensures forall i :: 0 <= i < |MonthlyPayments(s, today)| && MonthlyPayments(s, today)[i].key == MonthOf(today) ==>
              MonthlyPayments(s, today)[i].total == GetReportsData(s, today).monthlyRevenue
  {
    var start := WindowStart(today);
    forall x: Payment | PaymentMonth(x) == MonthOf(today)
      ensures OnOrAfter(start)(x)
    {
      MonthOrdinalInjective(MonthOf(x.date), MonthOf(start));
    }
    SumKeyFilter(s.payments, OnOrAfter(start), PaymentMonth, MonthOf(today), PaymentAmount);
  }

  /** Every payment dated on or after the window start has its month's row. */
  lemma MonthlyRowsCover(ps: seq<Payment>, start: Date)
    ensures forall j :: 0 <= j < |ps| && !Before(ps[j].date, start) ==>
              PaymentMonth(ps[j]) in GroupKeys(MonthlyRows(ps, start))
  {
    var window := PaymentsSince(ps, start);
    var months := WindowMonths(window);
    var rows := MonthlyRows(ps, start);
    assert GroupKeys(rows) == months;
    MonthsOfWindow(window, months);
    forall j | 0 <= j < |ps| && !Before(ps[j].date, start)
      ensures PaymentMonth(ps[j]) in months
    {
      assert ps[j] in window;
      var k :| 0 <= k < |window| && window[k] == ps[j];
      assert PaymentMonth(window[k]) in months;
    }
  }

  lemma MonthlyRowsCount(ps: seq<Payment>, start: Date)
    ensures var rows := MonthlyRows(ps, start);
      forall i :: 0 <= i < |rows| ==>
        var window := PaymentsSince(ps, start);
        rows[i].count == CountKey(window, PaymentMonth, rows[i].key) >= 1
        && rows[i].total == SumKey(window, PaymentMonth, rows[i].key, PaymentAmount)
  {
    var window := PaymentsSince(ps, start);
    DistinctKeysOccur(window, PaymentMonth, WindowMonths(window));
  }

  lemma MonthlyRowsOrder(ps: seq<Payment>, start: Date)
    ensures var rows := MonthlyRows(ps, start);
      forall i, j :: 0 <= i < j < |rows| ==> MonthOrdinal(rows[i].key) > MonthOrdinal(rows[j].key)
  {
    var window := PaymentsSince(ps, start);
    MonthsOfWindow(window, WindowMonths(window));
  }

  lemma MonthlyRowsPartition(ps: seq<Payment>, start: Date)
    ensures GroupCounts(MonthlyRows(ps, start)) == |PaymentsSince(ps, start)|
    ensures GroupTotals(MonthlyRows(ps, start)) == Sum(PaymentsSince(ps, start), PaymentAmount)
  {
    var window := PaymentsSince(ps, start);
    var months := WindowMonths(window);
    MonthsOfWindow(window, months);
    GroupsPartition(months, window, PaymentMonth, PaymentAmount);
  }

  /** The months of the window, sorted latest first: distinct, strictly
      descending, and exactly the months of the window's payments. */
  lemma MonthsOfWindow(window: seq<Payment>, months: seq<YearMonth>)
    requires months == Sort(Distinct(Keys(window, PaymentMonth)), MonthRank)
    ensures NoDup(months)
    ensures forall i, j :: 0 <= i < j < |months| ==> MonthOrdinal(months[i]) > MonthOrdinal(months[j])
    ensures forall j :: 0 <= j < |window| ==> PaymentMonth(window[j]) in months
    ensures forall i :: 0 <= i < |months| ==> exists j :: 0 <= j < |window| && PaymentMonth(window[j]) == months[i]
  {
    var distinct := Distinct(Keys(window, PaymentMonth));
    SortKeepsDistinct(distinct, MonthRank);
    StrictlyDescending(months);
    SameMonths(window, months);
  }

  lemma StrictlyDescending(months: seq<YearMonth>)
    requires SortedDesc(months, MonthRank)
    requires NoDup(months)
    ensures forall i, j :: 0 <= i < j < |months| ==> MonthOrdinal(months[i]) > MonthOrdinal(months[j])
  {
    forall i, j | 0 <= i < j < |months|
      ensures MonthOrdinal(months[i]) > MonthOrdinal(months[j])
    {
      assert AtLeast(MonthRank(months[i]), MonthRank(months[j]));
      MonthOrdinalInjective(months[i], months[j]);
    }
  }

  lemma SameMonths(window: seq<Payment>, months: seq<YearMonth>)
    requires multiset(months) == multiset(Distinct(Keys(window, PaymentMonth)))
    ensures forall j :: 0 <= j < |window| ==> PaymentMonth(window[j]) in months
    ensures forall i :: 0 <= i < |months| ==> exists j :: 0 <= j < |window| && PaymentMonth(window[j]) == months[i]
  {
    var keys := Keys(window, PaymentMonth);
    var distinct := Distinct(keys);
    forall j | 0 <= j < |window|
      ensures PaymentMonth(window[j]) in months
    {
      assert keys[j] in distinct;
      assert keys[j] in multiset(months);
    }
    forall i | 0 <= i < |months|
      ensures exists j :: 0 <= j < |window| && PaymentMonth(window[j]) == months[i]
    {
      assert months[i] in multiset(distinct);
      var k :| 0 <= k < |keys| && keys[k] == months[i];
    }
  }
}
