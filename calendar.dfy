/** Calendar dates as MySQL's DATE type holds them, and the little date
    arithmetic the aggregation queries use: MONTH()/YEAR() extraction,
    date comparison and DATE_SUB(d, INTERVAL k MONTH). */
module Calendar {

  type Month = m: int | 1 <= m <= 12 witness 1
  type Day = d: int | 1 <= d <= 31 witness 1

  datatype Date = Date(year: int, month: Month, day: Day)

  /** A calendar month, the value of DATE_FORMAT(d, '%Y-%m'). */
  datatype YearMonth = YearMonth(year: int, month: Month)

  predicate IsLeapYear(y: int) {
    y % 4 == 0 && (y % 100 != 0 || y % 400 == 0)
  }

  function DaysInMonth(y: int, m: Month): (n: Day)
    ensures 28 <= n <= 31
    ensures m == 2 ==> (n == 29 <==> IsLeapYear(y))
  {
    if m == 2 then (if IsLeapYear(y) then 29 else 28)
    else if m == 4 || m == 6 || m == 9 || m == 11 then 30
    else 31
  }

  /** A date that exists on the calendar (what a DATE column stores). */
  predicate ValidDate(d: Date) {
    d.day <= DaysInMonth(d.year, d.month)
  }

  function MonthOf(d: Date): YearMonth {
    YearMonth(d.year, d.month)
  }

  /** `MONTH(a) = MONTH(b) AND YEAR(a) = YEAR(b)`. */
  predicate SameMonth(a: Date, b: Date) {
    a.month == b.month && a.year == b.year
  }

  /** Calendar order on dates: `a < b` in SQL. */
  predicate Before(a: Date, b: Date) {
    a.year < b.year
    || (a.year == b.year && a.month < b.month)
    || (a.year == b.year && a.month == b.month && a.day < b.day)
  }

  /** Months counted from year 0, January; consecutive months differ by one. */
  function MonthOrdinal(ym: YearMonth): int {
    ym.year * 12 + ym.month - 1
  }

  /** An integer that orders dates as the calendar does (see OrdinalIsCalendarOrder). */
  function DateOrdinal(d: Date): int {
    d.year * 512 + d.month * 32 + d.day
  }

  lemma OrdinalIsCalendarOrder(a: Date, b: Date)
    ensures DateOrdinal(a) < DateOrdinal(b) <==> Before(a, b)
    ensures DateOrdinal(a) == DateOrdinal(b) <==> a == b
  {
    if a.year < b.year {
      assert DateOrdinal(a) <= a.year * 512 + 415;
      assert (a.year + 1) * 512 + 33 <= DateOrdinal(b);
    } else if b.year < a.year {
      assert DateOrdinal(b) <= b.year * 512 + 415;
      assert (b.year + 1) * 512 + 33 <= DateOrdinal(a);
    }
  }

  lemma MonthOrdinalInjective(a: YearMonth, b: YearMonth)
    ensures MonthOrdinal(a) == MonthOrdinal(b) <==> a == b
    ensures MonthOrdinal(a) < MonthOrdinal(b) <==>
              a.year < b.year || (a.year == b.year && a.month < b.month)
  {
    if a.year < b.year {
      assert MonthOrdinal(a) <= a.year * 12 + 11;
    } else if b.year < a.year {
      assert MonthOrdinal(b) <= b.year * 12 + 11;
    }
  }

  lemma MonthOfMonotone(a: Date, b: Date)
    requires !Before(b, a)
    ensures MonthOrdinal(MonthOf(a)) <= MonthOrdinal(MonthOf(b))
  {
    MonthOrdinalInjective(MonthOf(a), MonthOf(b));
  }

  /** `DATE_SUB(d, INTERVAL k MONTH)`: step back k calendar months and clamp the
      day to the length of the month reached (March 31 minus one month is the
      last day of February). */
  function SubMonths(d: Date, k: nat): (r: Date)
    ensures MonthOrdinal(MonthOf(r)) == MonthOrdinal(MonthOf(d)) - k
    ensures ValidDate(r)
    ensures r.day == if d.day <= DaysInMonth(r.year, r.month) then d.day else DaysInMonth(r.year, r.month)
  {
    var total := MonthOrdinal(MonthOf(d)) - k;
    var y := total / 12;
    var m: Month := total % 12 + 1;
    var last := DaysInMonth(y, m);
    Date(y, m, if d.day <= last then d.day else last)
  }

  /** Going back a positive number of months always lands strictly earlier. */
  lemma SubMonthsIsEarlier(d: Date, k: nat)
    requires k > 0
    ensures Before(SubMonths(d, k), d)
  {
    var r := SubMonths(d, k);
    MonthOrdinalInjective(MonthOf(r), MonthOf(d));
  }
}
