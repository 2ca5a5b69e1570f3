/** `ORDER BY k1 DESC, k2 DESC ... LIMIT n` over a table held as a sequence.
    Each ordering is given as a key function into Rank, a pair compared
    lexicographically; an ascending column is ranked by its negation.
    SQL leaves the order of rows with equal keys unspecified; the sort here is
    a stable insertion sort, so it keeps such rows in table order. */
module Sorting {

  datatype Rank = Rank(major: int, minor: int)

  /** a ranks at least as high as b: it may come first in descending order. */
  predicate AtLeast(a: Rank, b: Rank) {
    a.major > b.major || (a.major == b.major && a.minor >= b.minor)
  }

  predicate SortedDesc<T>(s: seq<T>, key: T -> Rank) {
    forall i, j :: 0 <= i < j < |s| ==> AtLeast(key(s[i]), key(s[j]))
  }

  function Insert<T>(x: T, s: seq<T>, key: T -> Rank): (r: seq<T>)
    requires SortedDesc(s, key)
    ensures SortedDesc(r, key)
    ensures multiset(r) == multiset(s) + multiset{x}
    ensures |r| == |s| + 1
  {
    if s == [] || AtLeast(key(x), key(s[0])) then [x] + s
    else
      var rest := Insert(x, s[1..], key);
      assert s == [s[0]] + s[1..];
      var others := s[1..] + [x];
      assert multiset(others) == multiset(s[1..]) + multiset{x};
      assert forall i :: 0 <= i < |others| ==> AtLeast(key(s[0]), key(others[i])) by {
        forall i | 0 <= i < |others|
          ensures AtLeast(key(s[0]), key(others[i]))
        {
          if i < |s| - 1 {
            assert others[i] == s[i + 1];
          }
        }
      }
      OutranksPermutation(key(s[0]), rest, others, key);
      [s[0]] + rest
  }

  /** A rank at least that of every row of b is at least that of every row
      of a permutation of b. */
  lemma OutranksPermutation<T>(h: Rank, a: seq<T>, b: seq<T>, key: T -> Rank)
    requires multiset(a) == multiset(b)
    requires forall i :: 0 <= i < |b| ==> AtLeast(h, key(b[i]))
    ensures forall j :: 0 <= j < |a| ==> AtLeast(h, key(a[j]))
  {
    forall j | 0 <= j < |a|
      ensures AtLeast(h, key(a[j]))
    {
      assert a[j] in multiset(b);
      var i :| 0 <= i < |b| && b[i] == a[j];
    }
  }

  /** The rows of s, ordered by key, highest first. */
  function Sort<T>(s: seq<T>, key: T -> Rank): (r: seq<T>)
    ensures SortedDesc(r, key)
    ensures multiset(r) == multiset(s)
    ensures |r| == |s|
  {
    if s == [] then []
    else
      assert s == [s[0]] + s[1..];
      Insert(s[0], Sort(s[1..], key), key)
  }

  function Min(a: nat, b: nat): nat {
    if a <= b then a else b
  }

  /** `LIMIT n`: the first n rows, or all of them when there are fewer. */
  function Take<T>(s: seq<T>, n: nat): (r: seq<T>)
    ensures |r| == Min(n, |s|)
    ensures r == s[..|r|]
  {
    if n <= |s| then s[..n] else s
  }

  /** `ORDER BY ... LIMIT n`. */
  function TopN<T>(s: seq<T>, key: T -> Rank, n: nat): (r: seq<T>)
    ensures |r| == Min(n, |s|)
    ensures SortedDesc(r, key)
    ensures multiset(r) <= multiset(s)
    ensures r == Sort(s, key)[..|r|]
  {
    var sorted := Sort(s, key);
    var r := Take(sorted, n);
    assert sorted == r + sorted[|r|..];
    assert multiset(sorted) == multiset(r) + multiset(sorted[|r|..]);
    r
  }

  /** Every row that LIMIT cuts off ranks no higher than every row it keeps. */
  lemma TopNOutranksRest<T>(s: seq<T>, key: T -> Rank, n: nat, x: T)
    requires x in multiset(s) - multiset(TopN(s, key, n))
    ensures forall i :: 0 <= i < |TopN(s, key, n)| ==> AtLeast(key(TopN(s, key, n)[i]), key(x))
  {
    var sorted := Sort(s, key);
    var r := TopN(s, key, n);
    var rest := sorted[|r|..];
    assert sorted == r + rest;
    assert multiset(sorted) == multiset(r) + multiset(rest);
    assert x in multiset(rest);
    var j :| 0 <= j < |rest| && rest[j] == x;
    assert sorted[|r| + j] == x;
    forall i | 0 <= i < |r|
      ensures AtLeast(key(r[i]), key(x))
    {
      assert r[i] == sorted[i];
    }
  }

  /** Sorting keeps a duplicate-free table duplicate-free. */
  lemma {:induction false} SortKeepsDistinct<T>(s: seq<T>, key: T -> Rank)
    requires forall i, j :: 0 <= i < j < |s| ==> s[i] != s[j]
    ensures forall i, j :: 0 <= i < j < |Sort(s, key)| ==> Sort(s, key)[i] != Sort(s, key)[j]
  {
    if s != [] {
      SortKeepsDistinct(s[1..], key);
      assert s[0] !in s[1..];
      InsertKeepsDistinct(s[0], Sort(s[1..], key), key);
    }
  }

  lemma {:induction false} InsertKeepsDistinct<T>(x: T, s: seq<T>, key: T -> Rank)
    requires SortedDesc(s, key)
    requires forall i, j :: 0 <= i < j < |s| ==> s[i] != s[j]
    requires x !in multiset(s)
    ensures forall i, j :: 0 <= i < j < |Insert(x, s, key)| ==> Insert(x, s, key)[i] != Insert(x, s, key)[j]
  {
    if s != [] && !AtLeast(key(x), key(s[0])) {
      assert s == [s[0]] + s[1..];
      InsertKeepsDistinct(x, s[1..], key);
      var rest := Insert(x, s[1..], key);
      assert s[0] !in multiset(s[1..]) + multiset{x};
      assert s[0] !in multiset(rest);
      assert Insert(x, s, key) == [s[0]] + rest;
    }
  }
}
