# Gym management analytics and reports, modelled in Dafny

This project models the analytics and reporting layer of a small gym-management
web application. The layer reads five MySQL tables: Members, Trainers, Classes,
Payments and Attendance. From them it builds:

- the admin dashboard figures (`get_analytics_data`);
- the "recent" lists and the class timetable;
- the reports page: `get_reports_data` and four grouped views
  (`get_monthly_payments`, `get_membership_stats`, `get_class_popularity`,
  `get_trainer_performance`).

Every query is modelled as a pure function over a `Store`, which holds one
sequence of records per table:

- `today` is a parameter that stands for `CURDATE()`;
- money is held in integer cents;
- `GROUP BY` is modelled with `Distinct`/`Keys`/`CountKey`/`SumKey`
  (module `Aggregate`);
- `ORDER BY` is a stable sort on a descending lexicographic rank, and `LIMIT` is
  a prefix of that sort (module `Sorting`);
- MySQL's DECIMAL rounding (half away from zero) and Python's `round` (half to
  even) are two separate functions (module `Rounding`);
- `MONTH()`/`YEAR()`, date comparison and `DATE_SUB(…, INTERVAL k MONTH)` are
  in module `Calendar`.

The modules mirror the source's functions:

| module | models |
|---|---|
| `Calendar` | the date arithmetic |
| `Rounding` | the rounding functions |
| `Aggregate` | the aggregates |
| `Sorting` | ordering and limits |
| `Store` | the tables |
| `Analytics` | the dashboard |
| `Reports` | the reports page and the monthly payments |
| `Membership` | the membership statistics |
| `Popularity` | the class popularity |
| `TrainerPerformance` | the trainer statistics |

Two behaviours of the queries are easy to miss. The model follows the code in
both, and a lemma pins each one down:

- `get_monthly_payments` is meant as a six-month report, but its `WHERE` clause
  has only a lower bound. Payments dated after today are therefore counted in
  their own months' rows (`Reports.LaterPaymentsCounted`).
- The trainer average is `AVG` over the per-class attendance counts brought in
  by a `LEFT JOIN`. A class without attendance contributes `NULL`, which `AVG`
  skips, so the mean is over attended classes only, not over all the
  trainer's classes. It is 0 only when no class of the trainer has attendance
  (`TrainerPerformance.UnattendedClassSkipped`,
  `TrainerPerformance.UnattendedAverageZero`).

## Model

| member | source | states |
|---|---|---|
| Calendar.SubMonths | main.py:263 | `DATE_SUB(d, INTERVAL k MONTH)` lands exactly k calendar months earlier, on a valid date, with the day clamped to the length of the month reached |
| Calendar.SubMonthsIsEarlier | main.py:263 | going back six months gives a date strictly before today |
| Calendar.OrdinalIsCalendarOrder | main.py:176 | the date ordinal used for `ORDER BY date` orders dates exactly as the calendar does, and is injective |
| Calendar.MonthOrdinalInjective | main.py:264-265 | the month ordinal that orders `'%Y-%m'` months is injective and agrees with year-then-month order |
| Calendar.MonthOfMonotone | main.py:263-265 | a later date never has an earlier month |
| Calendar.DaysInMonth | main.py:263 | month lengths 28..31, with 29 in February exactly in leap years |
| Rounding.RoundHalfEven | main.py:167 | Python `round` of a/b: within half of a/b, and even on a tie |
| Rounding.RoundHalfAway | main.py:275 | MySQL DECIMAL rounding of a/b: within half of a/b, and away from zero on a tie |
| Rounding.RoundHalfEvenMonotone | main.py:318 | Python `round` never reverses the order of two quotients with the same divisor |
| Rounding.RoundHalfAwayMonotone | main.py:275 | DECIMAL rounding never reverses the order of two quotients with the same divisor |
| Rounding.RoundExact | main.py:167 | rounding an exact quotient gives that quotient back, under both tie rules |
| Aggregate.CountWhere | main.py:136-138 | `COUNT(*) … WHERE p` is the length of the filtered table, 0 exactly when no row satisfies p, and the whole table exactly when every row does |
| Aggregate.SumWhere | main.py:159-160 | `SUM(w) … WHERE p` is the sum over the filtered table, 0 when no row satisfies p, the full sum when every row does |
| Aggregate.SumKeyIsFilterSum | main.py:260 | a group's `SUM(amount)` is the sum over the table filtered on the group's key |
| Aggregate.CountKeyIsFilterLength | main.py:288-290 | a group's `COUNT(*)` is the length of the table filtered on the group's key |
| Aggregate.CountKeyPositive | main.py:264 | a group's `COUNT(*)` is positive exactly when some row has the group's key |
| Aggregate.DistinctKeysCover | main.py:277 | every row's key is among the groups formed by `GROUP BY` |
| Aggregate.DistinctKeysOccur | main.py:277 | every group's key occurs in at least one row |
| Aggregate.DistinctCardinality | main.py:303 | `COUNT(DISTINCT x)` counts exactly the set of values of x |
| Aggregate.GroupsPartition | main.py:264 | groups formed over distinct keys that cover every row partition the rows: the counts add up to the row count and the totals add up to the total |
| Aggregate.SumKeyFilter | main.py:218-224 | summing one key's rows after a filter that keeps every row with that key equals summing them without the filter |
| Aggregate.SumKeyAtMostSum | main.py:219-221 | with non-negative amounts, one group's sum lies between 0 and the overall sum |
| Sorting.Sort | main.py:265 | `ORDER BY … DESC` yields a permutation of the rows, sorted by descending rank |
| Sorting.TopN | main.py:176-177 | `ORDER BY … LIMIT n` yields min(n, rows) rows, sorted, drawn from the rows, forming a prefix of the full ordering |
| Sorting.TopNOutranksRest | main.py:292-293 | a row cut off by `LIMIT` ranks no higher than any row kept |
| Sorting.SortKeepsDistinct | main.py:265 | sorting distinct keys keeps them distinct |
| Analytics.GetAnalyticsData | main.py:122-171 | the dashboard: each field is its query (total revenue, new members this month, today's attendance, today's payments, rate as `PercentOf`); member, class and trainer counts equal the table sizes; no payments gives revenue and today's payments of 0; the rate is 0 without members, otherwise the nearest integer to 100·attendance/members with ties to even; with non-negative amounts, 0 ≤ today's payments ≤ total revenue |
| Analytics.TotalRevenue | main.py:126-128 | 0 for an empty Payments table, and non-negative when no amount is negative |
| Analytics.MembersJoinedInMonth | main.py:135-140 | the number of members whose start date lies in today's calendar month: the length of that filter, 0 exactly when no member joined this month, all members exactly when every member did |
| Analytics.AttendanceOn | main.py:151-155 | the number of attendance rows dated today: the length of that filter, 0 exactly when no row is dated today, all rows exactly when every row is |
| Analytics.PaymentsOn | main.py:158-163 | today's takings: the sum of the amounts of exactly the payments dated today; 0 when no payment is dated today, the total revenue when every payment is |
| Analytics.PercentOf | main.py:166-169 | 0 for an empty Members table; otherwise the nearest integer to 100·count/total, even on a tie |
| Analytics.TodayPaymentsAtMostTotal | main.py:126-128 | with non-negative amounts, today's payments lie between 0 and the total revenue |
| Analytics.RevenueMonotone | main.py:126-128 | recording a payment with a non-negative amount lowers neither the total revenue nor today's payments |
| Analytics.AttendanceRateUncapped | main.py:166-167 | the rate is not capped at 100: one member with two attendance rows today gives 200 |
| Analytics.OneMemberOnePayment | main.py:122-171 | one gold member who paid 50.00 today gives revenue 50.00, one member, one new member, no attendance, today's payments 50.00 and a rate of 0 |
| Analytics.RecentPayments | main.py:173-179 | `limit` payments (or all), drawn from the table, latest date first and then highest id, forming a prefix of that full ordering |
| Analytics.RecentMembers | main.py:181-187 | `limit` members (or all), drawn from the table, latest start date first and then highest id, forming a prefix of that full ordering |
| Analytics.RecentAttendance | main.py:189-195 | `limit` attendance rows (or all), drawn from the table, latest date first and then highest id, forming a prefix of that full ordering |
| Analytics.RecencyIsDateThenId | main.py:176 | the recency rank orders by date descending, then by id descending |
| Analytics.RecentPaymentsAreLatest | main.py:176-177 | a payment left out of the recent list is older than, or on the same date with a lower id than, every payment listed |
| Analytics.TodaysClasses | main.py:197-199 | every class exactly once, ordered by time ascending, with no date filter |
| Reports.GetReportsData | main.py:214-254 | monthly revenue is this month's payment sum; member growth is the members who joined this month, the dashboard's new-members figure; average attendance is `PercentOf` of this month's attendance rows and the members: 0 without members, otherwise the nearest integer to 100·attendance/members with ties to even; with non-negative amounts, monthly revenue lies between 0 and the total revenue; the two placeholders are 75 and 12 |
| Reports.MonthlyRevenue | main.py:218-224 | this month's takings: the sum of the amounts of exactly the payments in today's calendar month; 0 when there are none, the total revenue when every payment is in it |
| Reports.AttendanceInMonth | main.py:238-243 | the number of attendance rows dated in today's calendar month: the length of that filter, 0 exactly when no row is, all rows exactly when every row is |
| Reports.MonthlyRevenueAtMostTotal | main.py:218-224 | with non-negative amounts, this month's revenue lies between 0 and the total revenue |
| Reports.MonthlyPayments | main.py:256-268 | every month with a payment on or after the window start has a row; each row counts and sums exactly that month's window payments, of which there is at least one; months are strictly descending, so none appears twice; the counts add up to the window's size and the totals to its sum |
| Reports.MonthlyWindowLowerBound | main.py:263 | no row is for a month earlier than six months before today's month |
| Reports.LaterPaymentsCounted | main.py:263 | a payment dated today or later always has its month's row, because the window has no upper bound |
| Reports.CurrentMonthRowIsMonthlyRevenue | main.py:218-224 | the row for today's month carries the same total as the report's `monthly_revenue` |
| Reports.MonthlyRowsCover | main.py:263-264 | every window payment's month is a group |
| Reports.MonthlyRowsCount | main.py:260-261 | each group's `SUM(amount)` and `COUNT(*)` are over exactly its month's window payments, and the count is at least one |
| Reports.MonthlyRowsOrder | main.py:265 | the groups are in strictly descending month order |
| Reports.MonthlyRowsPartition | main.py:264 | the groups' counts and totals add up to the window's |
| Reports.MonthsOfWindow | main.py:264-265 | the sorted distinct months are distinct, strictly descending, and exactly the months of the window's payments |
| Membership.Percentage | main.py:275 | `ROUND(c*100.0/n, 1)` in tenths: the unique t with 1000c/n − ½ < t ≤ 1000c/n + ½, i.e. the exact share rounded once, half up; between 0 and 100.0 when c ≤ n; exactly 100.0 when c = n |
| Membership.ShareJustBelowHalfTenth | main.py:275 | 5 members of 10001 (0.04999…%) give 0.0, since the share is rounded only once |
| Membership.MembershipStats | main.py:270-281 | no rows without members; otherwise one row per membership type in ranked order, each with the number of members of its type and that count's percentage of all members |
| Membership.TypeRows | main.py:273-275 | one row per type, with that type's member count and its percentage |
| Membership.MembershipStatsEmpty | main.py:277 | there are no rows exactly when there are no members |
| Membership.MembershipStatsCover | main.py:277 | every member's type has a row |
| Membership.MembershipStatsCounts | main.py:274-275 | each row's count is the number of members of its type (at least one), and its percentage is that count's share |
| Membership.MembershipStatsOrder | main.py:277-278 | no type appears twice, and the counts do not increase |
| Membership.MembershipCountsPartition | main.py:277 | the row counts add up to the number of members |
| Membership.PercentagesNearlyWhole | main.py:275 | because each row is rounded separately, the k percentages add up to 100.0 only within k·0.05 |
| Membership.SingleTypeIsWhole | main.py:270-281 | three gold members make the single row gold, 3, 100.0 |
| Popularity.AttendanceCount | main.py:288-290 | a class's `COUNT(a.attendance_id)` is the number of attendance rows naming the class; it is 0 exactly when no row names it, so the `LEFT JOIN` keeps unattended classes with 0, and it is all rows exactly when every row names it |
| Popularity.ClassPopularity | main.py:283-296 | min(10, classes) rows; each row carries its ranked class's name, time and attendance count; counts do not increase |
| Popularity.RankedClassesFromTable | main.py:291-293 | the classes shown are drawn from the table, and all of them are shown when there are at most ten |
| Popularity.OmittedClassesLessPopular | main.py:292-293 | a class cut off by `LIMIT 10` has no more attendance than any class shown |
| TrainerPerformance.Stats | main.py:314 | one group per trainer, in table order |
| TrainerPerformance.GetTrainerPerformance | main.py:298-318 | one row per trainer; the ranked groups are a permutation of the per-trainer groups; each row is its group with the average rounded by Python's `round`; class count descending, then rounded average descending |
| TrainerPerformance.ClassCount | main.py:303 | `COUNT(DISTINCT c.class_id)` is at most the number of the trainer's classes, and 0 exactly when the trainer has no class |
| TrainerPerformance.AverageScaled | main.py:304-313 | `COALESCE(AVG(…), 0)` to four places: 0 when no class of the trainer has attendance, otherwise the counts' mean rounded to four places, a tie going up; never negative |
| TrainerPerformance.ClassCountIsDistinctIds | main.py:303 | `COUNT(DISTINCT c.class_id)` is the number of different ids among the trainer's classes |
| TrainerPerformance.NoClassesNoAverage | main.py:303-306 | the class count is 0 exactly when no class names the trainer; then the average is 0 |
| TrainerPerformance.UnattendedAverageZero | main.py:304-313 | a trainer none of whose classes has attendance averages 0 (`AVG` of only NULLs, then `COALESCE`) |
| TrainerPerformance.AverageWithinCounts | main.py:304-318 | the DECIMAL average and its Python rounding lie between the smallest and the largest count among the attended classes |
| TrainerPerformance.AttendedClassIsTaught | main.py:306-313 | every class in the average belongs to the trainer and has attendance |
| TrainerPerformance.AverageOfBounded | main.py:304 | a four-place mean of n counts in [lo, hi], and its rounding, stay in [lo, hi] |
| TrainerPerformance.UnattendedClassSkipped | main.py:304-313 | two classes, one attended three times and one never, average 3, not round(1.5) = 2: the unattended class is skipped |

## Left out

- The database connection, its environment configuration and the module-level cursor (main.py:12-30) are not modelled. The tables are parameters.
- The web layer is not modelled: Flask routes, login, roles, sessions and templates (main.py:32-118, 203-212).
- The list and insert handlers for members, trainers, classes, payments and attendance (main.py:322-423) are not modelled. They write rows; they aggregate nothing.
- Concurrency between requests sharing one cursor is not modelled.
- Floating point is not modelled. The source converts DECIMAL sums and percentages to Python `float`, and divides in floating point before `round` (main.py:167, 246). The model works on the exact rationals instead.
- Analytics.PercentOf: rounds the exact ratio half to even. The source rounds a floating-point quotient, whose representation error can move a value that sits on or near a tie.
- Reports.GetReportsData: `avg_attendance` inherits the same exact-ratio simplification as Analytics.PercentOf.
- Output formatting is not modelled:
  - a month is a `YearMonth` value rather than the `'%Y-%m'` string;
  - a class time is seconds since midnight rather than `str(time)`;
  - a percentage is an integer in tenths rather than a float.
- Amounts are integer cents, which assumes that the DECIMAL amount column has at most two decimal places.
- Columns that no aggregate reads are not modelled, for example member names and contact data.
- Sorting.Sort: rows with equal sort keys keep their input order. SQL leaves the order of ties unspecified, so the model fixes one of the orders the database may return. For the recent lists, the timetable, class popularity and trainer performance, the input is the table, so ties keep table order. For membership types, ties keep the order in which `Distinct` lists the types, which is the order of their last occurrence in the table.
- Membership.Percentage: models the query's share as the exact quotient rounded once at one decimal. This relies on MySQL carrying the division internally to nine decimal places, truncating, before `ROUND` applies. The five-place scale of the division's result type is not applied in between.
- Membership.MembershipStats: groups compare membership types by exact string equality. MySQL's `GROUP BY` compares them under the column's collation, which by default ignores letter case and trailing spaces, so 'Gold' and 'gold ' would form one group there and two rows here.
- Popularity.ClassPopularity: rows are formed per Class record, while the query groups by `class_id`. The two agree because `class_id` is the primary key. The same holds for trainers and `trainer_id` in TrainerPerformance.Stats.
- The `class_utilization` and `revenue_growth` figures are fixed placeholders (main.py:251-252). The model carries them as the constants 75 and 12.
- Analytics.RecentPayments, Analytics.RecentMembers and Analytics.RecentAttendance take `limit` as an explicit parameter, where the source defaults it to 5.
