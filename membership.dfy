/** get_membership_stats: the members grouped by membership_type, each group
    with its size and its share of all members, largest group first. */
module Membership {
  import Calendar
  import opened Rounding
  import opened Aggregate
  import opened Sorting
  import opened Store

  /** `{'type', 'count', 'percentage'}`; the percentage is held in tenths of a
      percent, the one decimal place `ROUND(..., 1)` keeps. */
  datatype TypeRow = TypeRow(membershipType: string, count: nat, percentage: int)

  /** `ROUND(COUNT(*) * 100.0 / n, 1)` in MySQL's DECIMAL arithmetic, in tenths:
      the exact share 1000 * c / n rounded once, half away from zero (which for
      a share is half up). The division's result scale is five places, but
      MySQL carries the quotient internally to nine, truncating, and ROUND
      works on that value; a truncation below the rounding digit never crosses
      a half-tenth boundary, so the result is the rounding of the exact share.
      So t is the unique integer with 1000c/n - 1/2 < t <= 1000c/n + 1/2. */
  function Percentage(c: nat, n: nat): (t: int)
    requires n > 0
    ensures -(n as int) < 2 * (t * n - 1000 * c) <= n
    ensures c <= n ==> 0 <= t <= 1000
    ensures c == n ==> t == 1000
  {
    PercentageRange(c, n);
    RoundHalfAway(1000 * c, n)
  }

  /** 5 of 10001 members is a share of 0.04999...%, which is 0.0 to one
      place: the share is rounded once, not first to five places (0.05000)
      and then to one (0.1). */
  lemma ShareJustBelowHalfTenth()
    ensures Percentage(5, 10001) == 0
  {
  }

  lemma PercentageRange(c: nat, n: nat)
    requires n > 0
    ensures c <= n ==> 0 <= RoundHalfAway(1000 * c, n) <= 1000
    ensures c == n ==> RoundHalfAway(1000 * c, n) == 1000
  {
    if c <= n {
      RoundExact(0, n);
      RoundExact(1000, n);
      RoundHalfAwayMonotone(0, 1000 * c, n);
      RoundHalfAwayMonotone(1000 * c, 1000 * n, n);
    }
  }

  /** `ORDER BY count DESC`. Ties keep the order in which Distinct lists the
      types; the query leaves it unspecified. */
  function TypeRank(ms: seq<Member>): string -> Rank {
    (t: string) => Rank(CountKey(ms, MemberType, t), 0)
  }

  /** The membership types, each once, largest group first. */
  function MembershipTypes(ms: seq<Member>): seq<string> {
    Sort(Distinct(Keys(ms, MemberType)), TypeRank(ms))
  }

  /** One row per type in types, counting and weighing the members of that type. */
  function TypeRows(types: seq<string>, ms: seq<Member>): (rows: seq<TypeRow>)
    requires |ms| > 0
    ensures |rows| == |types|
    ensures forall i :: 0 <= i < |types| ==>
              rows[i].membershipType == types[i]
              && rows[i].count == CountKey(ms, MemberType, types[i])
              && rows[i].percentage == Percentage(rows[i].count, |ms|)
  {
    if types == [] then []
    else
      var c := CountKey(ms, MemberType, types[0]);
      [TypeRow(types[0], c, Percentage(c, |ms|))] + TypeRows(types[1..], ms)
  }

  /** get_membership_stats. With no members, GROUP BY forms no group and the
      percentage's division is never evaluated; otherwise there is one row per
      membership type, largest group first, each with its count's share. */
  function MembershipStats(s: Store): (rows: seq<TypeRow>)
    ensures |s.members| == 0 ==> rows == []
    ensures |rows| <= |s.members|
    ensures |s.members| > 0 ==> |rows| == |MembershipTypes(s.members)|
    ensures forall i :: 0 <= i < |rows| ==>
              |s.members| > 0 && rows[i].membershipType == MembershipTypes(s.members)[i]
              && rows[i].count == CountKey(s.members, MemberType, rows[i].membershipType)
              && rows[i].percentage == Percentage(rows[i].count, |s.members|)
  {
    if |s.members| == 0 then [] else TypeRows(MembershipTypes(s.members), s.members)
  }

  function TypeCounts(rows: seq<TypeRow>): nat {
    if rows == [] then 0 else rows[0].count + TypeCounts(rows[1..])
  }

  function PercentTotal(rows: seq<TypeRow>): int {
    if rows == [] then 0 else rows[0].percentage + PercentTotal(rows[1..])
  }

  function NoAmount(m: Member): int { 0 }

  /** No rows exactly when there are no members. */
  lemma MembershipStatsEmpty(s: Store)
    ensures MembershipStats(s) == [] <==> |s.members| == 0
  {
    if |s.members| > 0 {
      var ms := s.members;
      DistinctKeysCover(ms, MemberType, MembershipTypes(ms));
      assert MemberType(ms[0]) in MembershipTypes(ms);
    }
  }

  /** Every member's type has a row. */
  lemma MembershipStatsCover(s: Store)
    ensures forall j :: 0 <= j < |s.members| ==> s.members[j].membershipType in TypeNames(MembershipStats(s))
  {
    var ms := s.members;
    if |ms| > 0 {
      var types := MembershipTypes(ms);
      DistinctKeysCover(ms, MemberType, types);
      assert TypeNames(TypeRows(types, ms)) == types;
      forall j | 0 <= j < |ms|
        ensures ms[j].membershipType in types
      {
        assert MemberType(ms[j]) in types;
      }
    }
  }

  /** Each row counts the members of its type, of which there is at least one,
      and carries that count's percentage of all members. */
  lemma MembershipStatsCounts(s: Store)
    ensures forall i :: 0 <= i < |MembershipStats(s)| ==>
              MembershipStats(s)[i].count == CountKey(s.members, MemberType, MembershipStats(s)[i].membershipType) >= 1
              && MembershipStats(s)[i].percentage == Percentage(MembershipStats(s)[i].count, |s.members|)
  {
    if |s.members| > 0 {
      DistinctKeysOccur(s.members, MemberType, MembershipTypes(s.members));
    }
  }

  /** No type appears twice, and the groups come largest first. */
  lemma MembershipStatsOrder(s: Store)
    ensures forall i, j :: 0 <= i < j < |MembershipStats(s)| ==>
              MembershipStats(s)[i].membershipType != MembershipStats(s)[j].membershipType
              && MembershipStats(s)[i].count >= MembershipStats(s)[j].count
  {
    var ms := s.members;
    if |ms| > 0 {
      var types := MembershipTypes(ms);
      var rows := TypeRows(types, ms);
      SortKeepsDistinct(Distinct(Keys(ms, MemberType)), TypeRank(ms));
      forall i, j | 0 <= i < j < |rows|
        ensures rows[i].count >= rows[j].count
      {
        assert AtLeast(TypeRank(ms)(types[i]), TypeRank(ms)(types[j]));
      }
    }
  }

  function TypeNames(rows: seq<TypeRow>): (ts: seq<string>)
    ensures |ts| == |rows|
    ensures forall i :: 0 <= i < |rows| ==> ts[i] == rows[i].membershipType
  {
    seq(|rows|, i requires 0 <= i < |rows| => rows[i].membershipType)
  }

  /** The group sizes add up to the number of members. */
  lemma MembershipCountsPartition(s: Store)
    ensures TypeCounts(MembershipStats(s)) == |s.members|
  {
    var ms := s.members;
    if |ms| > 0 {
      var types := MembershipTypes(ms);
      SortKeepsDistinct(Distinct(Keys(ms, MemberType)), TypeRank(ms));
      DistinctKeysCover(ms, MemberType, types);
      TypeRowsCounts(types, ms);
      GroupsPartition(types, ms, MemberType, NoAmount);
    }
  }

  lemma {:induction false} TypeRowsCounts(types: seq<string>, ms: seq<Member>)
    requires |ms| > 0
    ensures TypeCounts(TypeRows(types, ms)) == GroupCounts(GroupsFor(types, ms, MemberType, NoAmount))
  {
    if types != [] {
      TypeRowsCounts(types[1..], ms);
      assert TypeRows(types, ms)[1..] == TypeRows(types[1..], ms);
    }
  }

  /** Each percentage is rounded separately, so the percentages of k groups
      add up to 100.0 only to within k halves of a tenth. */
  lemma PercentagesNearlyWhole(s: Store)
    requires |s.members| > 0
    ensures -|MembershipStats(s)| <= 2 * (PercentTotal(MembershipStats(s)) - 1000) <= |MembershipStats(s)|
  {
    MembershipStatsCounts(s);
    MembershipCountsPartition(s);
    PercentSumNearlyWhole(MembershipStats(s), |s.members|);
  }

  lemma PercentSumNearlyWhole(rows: seq<TypeRow>, n: nat)
    requires n > 0 && TypeCounts(rows) == n
    requires forall i :: 0 <= i < |rows| ==>
               -(n as int) <= 2 * (rows[i].percentage * n - 1000 * rows[i].count) <= n
    ensures -|rows| <= 2 * (PercentTotal(rows) - 1000) <= |rows|
  {
    PercentSumError(rows, n, n);
    ScaleBack(PercentTotal(rows), n, |rows|);
  }

  /** Dividing the summed error bound by the member count n. */
  lemma ScaleBack(p: int, n: int, k: int)
    requires n > 0
    requires -(n * k) <= 2 * (p * n - 1000 * n) <= n * k
    ensures -k <= 2 * (p - 1000) <= k
  {
    var d := p - 1000;
    assert p * n - 1000 * n == d * n;
    assert 2 * (d * n) == (2 * d) * n;
    assert n * k == k * n;
    assert -(n * k) == (-k) * n;
    DivideOut(-k, 2 * d, n);
    DivideOut(2 * d, k, n);
  }

  lemma DivideOut(x: int, y: int, n: int)
    requires n > 0 && x * n <= y * n
    ensures x <= y
  {
    assert (y - x) * n >= 0;
  }

  lemma Distribute(a: int, b: int, n: int)
    ensures (a + b) * n == a * n + b * n
  {
  }

  /** A row's rounding error, scaled: 2 * (percentage * n - 1000 * count). */
  function RowError(r: TypeRow, n: nat): int {
    2 * (r.percentage * n - 1000 * r.count)
  }

  function ErrorSum(rows: seq<TypeRow>, n: nat): int {
    if rows == [] then 0 else RowError(rows[0], n) + ErrorSum(rows[1..], n)
  }

  /** Adding up the rows' errors: with each row's scaled error within m, the
      total error of k rows is within k * m. */
  lemma PercentSumError(rows: seq<TypeRow>, n: nat, m: int)
    requires forall i :: 0 <= i < |rows| ==>
               -m <= 2 * (rows[i].percentage * n - 1000 * rows[i].count) <= m
    ensures -(m * |rows|) <= 2 * (PercentTotal(rows) * n - 1000 * TypeCounts(rows)) <= m * |rows|
  {
    ErrorSumBound(rows, n, m);
    ErrorSumIsTotalError(rows, n);
  }

  lemma {:induction false} ErrorSumBound(rows: seq<TypeRow>, n: nat, m: int)
    requires forall i :: 0 <= i < |rows| ==> -m <= RowError(rows[i], n) <= m
    ensures -(m * |rows|) <= ErrorSum(rows, n) <= m * |rows|
  {
    if rows != [] {
      var rest := rows[1..];
      ErrorSumBound(rest, n, m);
      assert -m <= RowError(rows[0], n) <= m;
      Distribute(1, |rest|, m);
      assert m * |rows| == m + m * |rest|;
    }
  }

  lemma {:induction false} ErrorSumIsTotalError(rows: seq<TypeRow>, n: nat)
    ensures ErrorSum(rows, n) == 2 * (PercentTotal(rows) * n - 1000 * TypeCounts(rows))
  {
    if rows != [] {
      var rest := rows[1..];
      ErrorSumIsTotalError(rest, n);
      Distribute(rows[0].percentage, PercentTotal(rest), n);
    }
  }

  /** Three gold members make one row: gold, 3 members, 100.0 percent. */
  lemma SingleTypeIsWhole(d: Calendar.Date)
    ensures MembershipStats(Store([Member(1, "gold", d), Member(2, "gold", d), Member(3, "gold", d)], [], [], [], []))
            == [TypeRow("gold", 3, 1000)]
  {
    var ms := [Member(1, "gold", d), Member(2, "gold", d), Member(3, "gold", d)];
    assert ms[1..][1..][1..] == [];
    var keys := Keys(ms, MemberType);
    assert keys == ["gold", "gold", "gold"];
    assert keys[1..][1..][1..] == [];
    assert Distinct(keys) == ["gold"];
    assert CountKey(ms[2..], MemberType, "gold") == 1;
    assert CountKey(ms[1..], MemberType, "gold") == 2;
    assert CountKey(ms, MemberType, "gold") == 3;
    assert MembershipTypes(ms) == ["gold"];
  }
}
