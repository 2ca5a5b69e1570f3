/** SQL aggregates over a table held as a sequence of rows: SUM and COUNT
    with a WHERE filter, and GROUP BY a key with a SUM and a COUNT per group.
    SUM over no rows is 0 here, which is what `COALESCE(SUM(x), 0)` and the
    source's `float(x) if x else 0` both produce. */
module Aggregate {

  /** `SELECT COALESCE(SUM(w(x)), 0) FROM s`. */
  function Sum<T>(s: seq<T>, w: T -> int): int {
    if s == [] then 0 else w(s[0]) + Sum(s[1..], w)
  }

  /** `SELECT COUNT(*) FROM s WHERE p(x)`. */
  function CountWhere<T>(s: seq<T>, p: T -> bool): (n: nat)
    ensures n == |Filter(s, p)|
    ensures n <= |s|
    ensures n == 0 <==> forall i :: 0 <= i < |s| ==> !p(s[i])
    ensures n == |s| <==> forall i :: 0 <= i < |s| ==> p(s[i])
  {
    if s == [] then 0 else (if p(s[0]) then 1 else 0) + CountWhere(s[1..], p)
  }

  /** `SELECT COALESCE(SUM(w(x)), 0) FROM s WHERE p(x)`. */
  function SumWhere<T>(s: seq<T>, p: T -> bool, w: T -> int): (r: int)
    ensures r == Sum(Filter(s, p), w)
    ensures (forall i :: 0 <= i < |s| ==> !p(s[i])) ==> r == 0
    ensures (forall i :: 0 <= i < |s| ==> p(s[i])) ==> r == Sum(s, w)
  {
    if s == [] then 0
    else
      SumAppend(if p(s[0]) then [s[0]] else [], Filter(s[1..], p), w);
      (if p(s[0]) then w(s[0]) else 0) + SumWhere(s[1..], p, w)
  }

  /** `SELECT * FROM s WHERE p(x)`, keeping the table's order. */
  function Filter<T>(s: seq<T>, p: T -> bool): (r: seq<T>)
    ensures |r| <= |s|
    ensures forall i :: 0 <= i < |r| ==> r[i] in s && p(r[i])
    ensures forall i :: 0 <= i < |s| && p(s[i]) ==> s[i] in r
  {
    if s == [] then [] else (if p(s[0]) then [s[0]] else []) + Filter(s[1..], p)
  }

  lemma {:induction false} SumAppend<T>(s: seq<T>, t: seq<T>, w: T -> int)
    ensures Sum(s + t, w) == Sum(s, w) + Sum(t, w)
  {
    if s != [] {
      assert (s + t)[1..] == s[1..] + t;
      SumAppend(s[1..], t, w);
    } else {
      assert s + t == t;
    }
  }

  lemma {:induction false} SumWhereAppend<T>(s: seq<T>, t: seq<T>, p: T -> bool, w: T -> int)
    ensures SumWhere(s + t, p, w) == SumWhere(s, p, w) + SumWhere(t, p, w)
  {
    if s != [] {
      assert (s + t)[1..] == s[1..] + t;
      SumWhereAppend(s[1..], t, p, w);
    } else {
      assert s + t == t;
    }
  }

  lemma {:induction false} SumNonNegative<T>(s: seq<T>, w: T -> int)
    ensures (forall i :: 0 <= i < |s| ==> w(s[i]) >= 0) ==> Sum(s, w) >= 0
  {
    if s != [] {
      SumNonNegative(s[1..], w);
    }
  }

  /** A sum of n weights, each between lo and hi, lies between n*lo and n*hi. */
  lemma {:induction false} SumBounds<T>(s: seq<T>, w: T -> int, lo: int, hi: int)
    requires forall i :: 0 <= i < |s| ==> lo <= w(s[i]) <= hi
    ensures |s| * lo <= Sum(s, w) <= |s| * hi
  {
    if s != [] {
      SumBounds(s[1..], w, lo, hi);
      assert |s| * lo == lo + |s[1..]| * lo;
      assert |s| * hi == hi + |s[1..]| * hi;
    }
  }

  /** With no negative weights, a filtered sum never exceeds the full sum. */
  lemma {:induction false} SumWhereAtMostSum<T>(s: seq<T>, p: T -> bool, w: T -> int)
    requires forall i :: 0 <= i < |s| ==> w(s[i]) >= 0
    ensures 0 <= SumWhere(s, p, w) <= Sum(s, w)
  {
    if s != [] {
      SumWhereAtMostSum(s[1..], p, w);
    }
  }

  // ----- GROUP BY -----

  predicate NoDup<K(==)>(s: seq<K>) {
    forall i, j :: 0 <= i < j < |s| ==> s[i] != s[j]
  }

  /** The distinct values of s, each once (the groups a GROUP BY forms). */
  function Distinct<K(==)>(s: seq<K>): (r: seq<K>)
    ensures NoDup(r)
    ensures forall i :: 0 <= i < |r| ==> r[i] in s
    ensures forall i :: 0 <= i < |s| ==> s[i] in r
    ensures |r| <= |s|
  {
    if s == [] then []
    else
      var rest := Distinct(s[1..]);
      if s[0] in rest then rest else [s[0]] + rest
  }

  /** The group keys of a table: key(x) for every row x. */
  function Keys<T, K>(s: seq<T>, key: T -> K): (ks: seq<K>)
    ensures |ks| == |s|
    ensures forall i :: 0 <= i < |s| ==> ks[i] == key(s[i])
  {
    seq(|s|, i requires 0 <= i < |s| => key(s[i]))
  }

  /** Listing the distinct keys of a table in any order leaves out no row's key. */
  lemma DistinctKeysCover<T, K>(s: seq<T>, key: T -> K, ks: seq<K>)
    requires multiset(ks) == multiset(Distinct(Keys(s, key)))
    ensures forall j :: 0 <= j < |s| ==> key(s[j]) in ks
  {
    var keys := Keys(s, key);
    var distinct := Distinct(keys);
    forall j | 0 <= j < |s|
      ensures key(s[j]) in ks
    {
      assert keys[j] in distinct;
      assert keys[j] in multiset(ks);
    }
  }

  /** Each distinct key of a table names a non-empty group. */
  lemma DistinctKeysOccur<T, K>(s: seq<T>, key: T -> K, ks: seq<K>)
    requires multiset(ks) == multiset(Distinct(Keys(s, key)))
    ensures forall i :: 0 <= i < |ks| ==> CountKey(s, key, ks[i]) >= 1
  {
    var keys := Keys(s, key);
    var distinct := Distinct(keys);
    forall i | 0 <= i < |ks|
      ensures CountKey(s, key, ks[i]) >= 1
    {
      assert ks[i] in multiset(distinct);
      var m :| 0 <= m < |distinct| && distinct[m] == ks[i];
      assert distinct[m] in keys;
      var k :| 0 <= k < |keys| && keys[k] == ks[i];
      assert key(s[k]) == ks[i];
      CountKeyPositive(s, key, ks[i]);
    }
  }

  /** `COUNT(*)` of the group with key k. */
  function CountKey<T, K(==)>(s: seq<T>, key: T -> K, k: K): (n: nat)
    ensures n <= |s|
  {
    if s == [] then 0
    else (if key(s[0]) == k then 1 else 0) + CountKey(s[1..], key, k)
  }

  /** A group is non-empty exactly when some row has its key. */
  lemma {:induction false} CountKeyPositive<T, K>(s: seq<T>, key: T -> K, k: K)
    ensures CountKey(s, key, k) > 0 <==> exists i :: 0 <= i < |s| && key(s[i]) == k
  {
    if s != [] {
      CountKeyPositive(s[1..], key, k);
      if key(s[0]) != k && CountKey(s, key, k) > 0 {
        var i :| 0 <= i < |s[1..]| && key(s[1..][i]) == k;
        assert key(s[i + 1]) == k;
      }
      if exists i :: 0 <= i < |s| && key(s[i]) == k {
        var i :| 0 <= i < |s| && key(s[i]) == k;
        if i > 0 {
          assert key(s[1..][i - 1]) == k;
        }
      }
    }
  }

  /** The group with key k is the table filtered on `key(x) = k`: its COUNT(*)
      is the length of that filter, for any predicate p that tests the key. */
  lemma {:induction false} CountKeyIsFilterLength<T, K>(s: seq<T>, key: T -> K, k: K, p: T -> bool)
    requires forall x :: p(x) <==> key(x) == k
    ensures CountKey(s, key, k) == |Filter(s, p)|
  {
    if s != [] {
      CountKeyIsFilterLength(s[1..], key, k, p);
    }
  }

  /** The group with key k is the table filtered on `key(x) = k`: its SUM is
      the sum of that filter, for any predicate p that tests the key. */
  lemma {:induction false} SumKeyIsFilterSum<T, K>(s: seq<T>, key: T -> K, k: K, p: T -> bool, w: T -> int)
    requires forall x :: p(x) <==> key(x) == k
    ensures SumKey(s, key, k, w) == Sum(Filter(s, p), w)
  {
    if s != [] {
      SumKeyIsFilterSum(s[1..], key, k, p, w);
      SumAppend(if p(s[0]) then [s[0]] else [], Filter(s[1..], p), w);
    }
  }

  /** `SUM(w(x))` of the group with key k. */
  function SumKey<T, K(==)>(s: seq<T>, key: T -> K, k: K, w: T -> int): (r: int)
    ensures (forall i :: 0 <= i < |s| ==> key(s[i]) != k) ==> r == 0
    ensures (forall i :: 0 <= i < |s| ==> key(s[i]) == k) ==> r == Sum(s, w)
  {
    if s == [] then 0
    else (if key(s[0]) == k then w(s[0]) else 0) + SumKey(s[1..], key, k, w)
  }

  /** A filter that keeps every row of group k leaves that group's total alone. */
  lemma {:induction false} SumKeyFilter<T, K>(s: seq<T>, f: T -> bool, key: T -> K, k: K, w: T -> int)
    requires forall x :: key(x) == k ==> f(x)
    ensures SumKey(Filter(s, f), key, k, w) == SumKey(s, key, k, w)
  {
    if s != [] {
      SumKeyFilter(s[1..], f, key, k, w);
      var head := if f(s[0]) then [s[0]] else [];
      SumKeyAppend(head, Filter(s[1..], f), key, k, w);
    }
  }

  lemma {:induction false} SumKeyAppend<T, K>(s: seq<T>, t: seq<T>, key: T -> K, k: K, w: T -> int)
    ensures SumKey(s + t, key, k, w) == SumKey(s, key, k, w) + SumKey(t, key, k, w)
  {
    if s != [] {
      assert (s + t)[1..] == s[1..] + t;
      SumKeyAppend(s[1..], t, key, k, w);
    } else {
      assert s + t == t;
    }
  }

  /** With no negative weights, a group's total never exceeds the full sum. */
  lemma {:induction false} SumKeyAtMostSum<T, K>(s: seq<T>, key: T -> K, k: K, w: T -> int)
    requires forall i :: 0 <= i < |s| ==> w(s[i]) >= 0
    ensures 0 <= SumKey(s, key, k, w) <= Sum(s, w)
  {
    if s != [] {
      SumKeyAtMostSum(s[1..], key, k, w);
    }
  }

  /** The length of Distinct(s) is the number of different values in s,
      which is what `COUNT(DISTINCT x)` reports. */
  lemma {:induction false} DistinctCardinality<K>(s: seq<K>)
    ensures |Distinct(s)| == |set x | x in s|
  {
    if s != [] {
      DistinctCardinality(s[1..]);
      var rest := Distinct(s[1..]);
      assert s == [s[0]] + s[1..];
      assert (set x | x in s) == {s[0]} + (set x | x in s[1..]);
      var tail := set x | x in s[1..];
      if s[0] in rest {
        assert s[0] in s[1..];
        assert (set x | x in s) == tail;
        assert Distinct(s) == rest;
      } else {
        assert s[0] !in tail;
        assert |{s[0]} + tail| == 1 + |tail|;
        assert Distinct(s) == [s[0]] + rest;
      }
    }
  }

  /** One output row of `SELECT k, SUM(w(x)), COUNT(*) ... GROUP BY k`. */
  datatype Group<K> = Group(key: K, total: int, count: nat)

  /** The groups for the keys ks, in the order of ks. */
  function GroupsFor<T, K(==)>(ks: seq<K>, s: seq<T>, key: T -> K, w: T -> int): (gs: seq<Group<K>>)
    ensures |gs| == |ks|
    ensures forall i :: 0 <= i < |ks| ==>
              gs[i].key == ks[i] && gs[i].total == SumKey(s, key, ks[i], w)
              && gs[i].count == CountKey(s, key, ks[i])
  {
    if ks == [] then []
    else [Group(ks[0], SumKey(s, key, ks[0], w), CountKey(s, key, ks[0]))] + GroupsFor(ks[1..], s, key, w)
  }

  /** The keys of the groups, in order. */
  function GroupKeys<K>(gs: seq<Group<K>>): (ks: seq<K>)
    ensures |ks| == |gs|
    ensures forall i :: 0 <= i < |gs| ==> ks[i] == gs[i].key
  {
    seq(|gs|, i requires 0 <= i < |gs| => gs[i].key)
  }

  function GroupCounts<K>(gs: seq<Group<K>>): nat {
    if gs == [] then 0 else gs[0].count + GroupCounts(gs[1..])
  }

  function GroupTotals<K>(gs: seq<Group<K>>): int {
    if gs == [] then 0 else gs[0].total + GroupTotals(gs[1..])
  }

  /** Moving the first row out of every group: with distinct keys, the row
      lands in exactly one group, or in none when its key is not among them. */
  lemma {:induction false} GroupsForCons<T, K>(ks: seq<K>, s: seq<T>, key: T -> K, w: T -> int)
    requires NoDup(ks) && s != []
    ensures GroupCounts(GroupsFor(ks, s, key, w))
            == (if key(s[0]) in ks then 1 else 0) + GroupCounts(GroupsFor(ks, s[1..], key, w))
    ensures GroupTotals(GroupsFor(ks, s, key, w))
            == (if key(s[0]) in ks then w(s[0]) else 0) + GroupTotals(GroupsFor(ks, s[1..], key, w))
  {
    if ks != [] {
      assert NoDup(ks[1..]);
      GroupsForCons(ks[1..], s, key, w);
      assert key(s[0]) in ks <==> key(s[0]) == ks[0] || key(s[0]) in ks[1..];
      if key(s[0]) == ks[0] {
        assert key(s[0]) !in ks[1..];
      }
    }
  }

  lemma {:induction false} GroupsForEmpty<T, K>(ks: seq<K>, key: T -> K, w: T -> int)
    ensures GroupCounts(GroupsFor(ks, [], key, w)) == 0
    ensures GroupTotals(GroupsFor(ks, [], key, w)) == 0
  {
    if ks != [] {
      GroupsForEmpty(ks[1..], key, w);
    }
  }

  /** GROUP BY partitions the table: when the keys are distinct and cover every
      row, the group counts add up to the number of rows and the group totals
      to the total over all rows. */
  lemma {:induction false} GroupsPartition<T, K>(ks: seq<K>, s: seq<T>, key: T -> K, w: T -> int)
    requires NoDup(ks)
    requires forall i :: 0 <= i < |s| ==> key(s[i]) in ks
    ensures GroupCounts(GroupsFor(ks, s, key, w)) == |s|
    ensures GroupTotals(GroupsFor(ks, s, key, w)) == Sum(s, w)
  {
    if s == [] {
      GroupsForEmpty(ks, key, w);
    } else {
      GroupsForCons(ks, s, key, w);
      GroupsPartition(ks, s[1..], key, w);
    }
  }
}
