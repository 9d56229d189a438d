/**
 Sorted, duplicate-free key lists: the group index pandas builds for
 `pivot_table` and `groupby` (compile_data.py, lines 61-65), whose groups come
 out in ascending key order with each key once.
 */
module SortedKeys {

  /** `before` is a strict total order. */
  ghost predicate StrictOrder<K(!new)>(before: (K, K) -> bool) {
    && (forall a :: !before(a, a))
    && (forall a, b, c :: before(a, b) && before(b, c) ==> before(a, c))
    && (forall a, b :: a != b ==> before(a, b) || before(b, a))
  }

  predicate Ascending<K>(ks: seq<K>, before: (K, K) -> bool) {
    forall i, j :: 0 <= i < j < |ks| ==> before(ks[i], ks[j])
  }

  predicate NoDuplicates<K(==)>(ks: seq<K>) {
    forall i, j :: 0 <= i < j < |ks| ==> ks[i] != ks[j]
  }

  /** Adds `k` to an ascending list at its place, unless it is already there. */
  function Insert<K(==,!new)>(ks: seq<K>, k: K, before: (K, K) -> bool): (r: seq<K>)
    ensures forall x :: x in r <==> x in ks || x == k
  {
    if |ks| == 0 then [k]
    else if k == ks[0] then ks
    else if before(k, ks[0]) then [k] + ks
    else [ks[0]] + Insert(ks[1..], k, before)
  }

  lemma {:induction false} InsertAscending<K(!new)>(ks: seq<K>, k: K, before: (K, K) -> bool)
    requires StrictOrder(before)
    requires Ascending(ks, before)
    ensures Ascending(Insert(ks, k, before), before)
  {
    if |ks| > 0 && k != ks[0] && !before(k, ks[0]) {
      var tail := ks[1..];
      assert Ascending(tail, before);
      InsertAscending(tail, k, before);
      var r := Insert(ks, k, before);
      assert r == [ks[0]] + Insert(tail, k, before);
      assert before(ks[0], k);
      forall j | 0 < j < |r|
        ensures before(r[0], r[j])
      {
        assert r[j] in Insert(tail, k, before);
      }
    }
  }

  /** The distinct keys of `xs` under `key`, in ascending order. */
  function Keys<T, K(==,!new)>(xs: seq<T>, key: T -> K, before: (K, K) -> bool): (ks: seq<K>)
    ensures forall k :: k in ks <==> exists i :: 0 <= i < |xs| && key(xs[i]) == k
  {
    if |xs| == 0 then []
    else
      var rest := Keys(xs[1..], key, before);
      Insert(rest, key(xs[0]), before)
  }

  lemma {:induction false} KeysAscending<T, K(!new)>(xs: seq<T>, key: T -> K, before: (K, K) -> bool)
    requires StrictOrder(before)
    ensures Ascending(Keys(xs, key, before), before)
  {
    if |xs| > 0 {
      KeysAscending(xs[1..], key, before);
      InsertAscending(Keys(xs[1..], key, before), key(xs[0]), before);
    }
  }

  lemma AscendingNoDuplicates<K(!new)>(ks: seq<K>, before: (K, K) -> bool)
    requires StrictOrder(before)
    requires Ascending(ks, before)
    ensures NoDuplicates(ks)
  {
    forall i, j | 0 <= i < j < |ks|
      ensures ks[i] != ks[j]
    {
      assert before(ks[i], ks[j]);
    }
  }

  /** An ascending list is determined by its elements. */
  lemma {:induction false} AscendingUnique<K(!new)>(a: seq<K>, b: seq<K>, before: (K, K) -> bool)
    requires StrictOrder(before)
    requires Ascending(a, before) && Ascending(b, before)
    requires forall x :: x in a <==> x in b
    ensures a == b
  {
    if |a| > 0 {
      assert a[0] in b;
    }
    if |b| > 0 {
      assert b[0] in a;
    }
    if |a| > 0 {
      assert a[0] == b[0];
      forall x
        ensures x in a[1..] <==> x in b[1..]
      {
        if x in a[1..] {
          var i :| 1 <= i < |a| && a[i] == x;
          assert before(a[0], x);
          assert x in a;
          var j :| 0 <= j < |b| && b[j] == x;
          assert j != 0;
          assert b[1..][j - 1] == x;
        }
        if x in b[1..] {
          var j :| 1 <= j < |b| && b[j] == x;
          assert before(b[0], x);
          assert x in b;
          var i :| 0 <= i < |a| && a[i] == x;
          assert i != 0;
          assert a[1..][i - 1] == x;
        }
      }
      AscendingUnique(a[1..], b[1..], before);
      assert a == [a[0]] + a[1..] && b == [b[0]] + b[1..];
    }
  }

  /** Without duplicates, a list is as long as the set of its elements is large. */
  lemma {:induction false} NoDuplicatesCardinality<K>(ks: seq<K>)
    requires NoDuplicates(ks)
    ensures |set k | k in ks| == |ks|
  {
    if |ks| > 0 {
      var tail := ks[1..];
      NoDuplicatesCardinality(tail);
      assert (set k | k in ks) == {ks[0]} + (set k | k in tail);
      assert ks[0] !in tail;
    }
  }

  /** The keys do not depend on the order of the elements. */
  lemma KeysPermutation<T, K(!new)>(a: seq<T>, b: seq<T>, key: T -> K, before: (K, K) -> bool)
    requires StrictOrder(before)
    requires multiset(a) == multiset(b)
    ensures Keys(a, key, before) == Keys(b, key, before)
  {
    var ka, kb := Keys(a, key, before), Keys(b, key, before);
    KeysAscending(a, key, before);
    KeysAscending(b, key, before);
    forall k
      ensures k in ka <==> k in kb
    {
      if k in ka {
        var i :| 0 <= i < |a| && key(a[i]) == k;
        assert a[i] in multiset(b);
        var j :| 0 <= j < |b| && b[j] == a[i];
      }
      if k in kb {
        var j :| 0 <= j < |b| && key(b[j]) == k;
        assert b[j] in multiset(a);
        var i :| 0 <= i < |a| && a[i] == b[j];
      }
    }
    AscendingUnique(ka, kb, before);
  }
}
