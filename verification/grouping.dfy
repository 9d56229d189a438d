/**
 Grouped column sums: the `aggfunc='sum'` of `pivot_table` and the `.sum()`
 of `groupby` (compile_data.py, lines 61-64), stated once for any element
 type and any grouping key.
 */
module Grouping {
  import opened Tariff
  import opened SortedKeys

  /** Column-wise sum of `col` over `xs`. */
  function Total<T>(xs: seq<T>, col: T -> Columns): Columns {
    if |xs| == 0 then Zero else Plus(col(xs[0]), Total(xs[1..], col))
  }

  /** The elements of `xs` whose key is `k`, in their original order. */
  function Pick<T, K(==)>(xs: seq<T>, key: T -> K, k: K): seq<T> {
    if |xs| == 0 then []
    else (if key(xs[0]) == k then [xs[0]] else []) + Pick(xs[1..], key, k)
  }

  /** A group holds every element with its key, as often as `xs` does, and nothing else. */
  lemma {:induction false} PickMultiset<T(!new), K>(xs: seq<T>, key: T -> K, k: K)
    ensures forall y :: multiset(Pick(xs, key, k))[y] == if key(y) == k then multiset(xs)[y] else 0
  {
    if |xs| > 0 {
      assert xs == [xs[0]] + xs[1..];
      PickMultiset(xs[1..], key, k);
    }
  }

  /** Sums of rows that keep the column relations keep them too. */
  lemma {:induction false} TotalConsistent<T>(xs: seq<T>, col: T -> Columns)
    requires forall i :: 0 <= i < |xs| ==> Consistent(col(xs[i]))
    ensures Consistent(Total(xs, col))
  {
    if |xs| > 0 {
      assert forall i :: 0 <= i < |xs[1..]| ==> xs[1..][i] == xs[i + 1];
      TotalConsistent(xs[1..], col);
    }
  }

  lemma {:induction false} TotalNonNegative<T>(xs: seq<T>, col: T -> Columns)
    requires forall i :: 0 <= i < |xs| ==> NonNegative(col(xs[i]))
    ensures NonNegative(Total(xs, col))
  {
    if |xs| > 0 {
      assert forall i :: 0 <= i < |xs[1..]| ==> xs[1..][i] == xs[i + 1];
      TotalNonNegative(xs[1..], col);
    }
  }

  /** The sum over the groups named by `ks`, one group after another. */
  function TotalByKey<T(!new), K(==)>(xs: seq<T>, col: T -> Columns, key: T -> K, ks: seq<K>): Columns {
    if |ks| == 0 then Zero
    else Plus(Total(Pick(xs, key, ks[0]), col), TotalByKey(xs, col, key, ks[1..]))
  }

  lemma {:induction false} TotalAppend<T>(a: seq<T>, b: seq<T>, col: T -> Columns)
    ensures Total(a + b, col) == Plus(Total(a, col), Total(b, col))
  {
    if |a| == 0 {
      assert a + b == b;
    } else {
      assert (a + b)[1..] == a[1..] + b;
      TotalAppend(a[1..], b, col);
      PlusAssociative(col(a[0]), Total(a[1..], col), Total(b, col));
    }
  }

  lemma PlusAssociative(x: Columns, y: Columns, z: Columns)
    ensures Plus(x, Plus(y, z)) == Plus(Plus(x, y), z)
  {
  }

  /** Taking one element out of a sum. */
  lemma TotalRemove<T>(b: seq<T>, i: nat, col: T -> Columns)
    requires i < |b|
    ensures Total(b, col) == Plus(col(b[i]), Total(b[..i] + b[i + 1..], col))
  {
    var x, p, q := b[i], b[..i], b[i + 1..];
    TotalSplitAt(b, i, col);
    TotalSnoc(p, x, col);
    TotalAppend(p, q, col);
    PlusRearrange(Total(p, col), col(x), Total(q, col));
  }

  lemma TotalSplitAt<T>(b: seq<T>, i: nat, col: T -> Columns)
    requires i < |b|
    ensures Total(b, col) == Plus(Total(b[..i] + [b[i]], col), Total(b[i + 1..], col))
  {
    assert b == (b[..i] + [b[i]]) + b[i + 1..];
    TotalAppend(b[..i] + [b[i]], b[i + 1..], col);
  }

  lemma TotalSnoc<T>(p: seq<T>, x: T, col: T -> Columns)
    ensures Total(p + [x], col) == Plus(Total(p, col), Plus(col(x), Zero))
  {
    TotalAppend(p, [x], col);
    assert Total([x], col) == Plus(col(x), Zero);
  }

  lemma PlusRearrange(a: Columns, x: Columns, b: Columns)
    ensures Plus(Plus(a, Plus(x, Zero)), b) == Plus(x, Plus(a, b))
  {
  }

  /** Summing does not depend on the order of the elements. */
  lemma {:induction false} TotalPermutation<T>(a: seq<T>, b: seq<T>, col: T -> Columns)
    requires multiset(a) == multiset(b)
    ensures Total(a, col) == Total(b, col)
  {
    if |a| == 0 {
      assert |multiset(b)| == 0;
    } else {
      var x := a[0];
      assert x in multiset(b);
      var i :| 0 <= i < |b| && b[i] == x;
      var rest := b[..i] + b[i + 1..];
      assert multiset(a[1..]) == multiset(rest) by {
        assert a == [x] + a[1..];
        assert b == b[..i] + [x] + b[i + 1..];
        assert multiset(a[1..]) == multiset(a) - multiset{x};
        assert multiset(rest) == multiset(b) - multiset{x};
      }
      TotalPermutation(a[1..], rest, col);
      TotalRemove(b, i, col);
    }
  }

  /** Groups of a permuted sequence are permutations of the original groups. */
  lemma PickPermutation<T(!new), K>(a: seq<T>, b: seq<T>, key: T -> K, k: K)
    requires multiset(a) == multiset(b)
    ensures multiset(Pick(a, key, k)) == multiset(Pick(b, key, k))
  {
    var pa, pb := Pick(a, key, k), Pick(b, key, k);
    PickMultiset(a, key, k);
    PickMultiset(b, key, k);
    forall y
      ensures multiset(pa)[y] == multiset(pb)[y]
    {
    }
  }

  lemma {:induction false} PickMembers<T(!new), K>(xs: seq<T>, key: T -> K, k: K)
    ensures forall y :: y in Pick(xs, key, k) <==> y in xs && key(y) == k
  {
    var ys := Pick(xs, key, k);
    PickMultiset(xs, key, k);
    forall y
      ensures y in ys <==> y in xs && key(y) == k
    {
      assert y in ys <==> multiset(ys)[y] > 0;
      assert y in xs <==> multiset(xs)[y] > 0;
    }
  }

  /** A sub-list of an ascending list is ascending. */
  lemma {:induction false} PickAscending<T(!new), K>(xs: seq<T>, key: T -> K, k: K, before: (T, T) -> bool)
    requires Ascending(xs, before)
    ensures Ascending(Pick(xs, key, k), before)
  {
    if |xs| > 0 {
      var tail := xs[1..];
      assert Ascending(tail, before);
      PickAscending(tail, key, k, before);
      PickMembers(tail, key, k);
      var rest := Pick(tail, key, k);
      forall j | 0 <= j < |rest|
        ensures before(xs[0], rest[j])
      {
        assert rest[j] in tail;
      }
    }
  }

  lemma {:induction false} TotalByKeyEmpty<T(!new), K>(col: T -> Columns, key: T -> K, ks: seq<K>)
    ensures TotalByKey([], col, key, ks) == Zero
  {
    if |ks| > 0 {
      TotalByKeyEmpty(col, key, ks[1..]);
    }
  }

  lemma PickSkipsFirst<T, K>(xs: seq<T>, key: T -> K, k: K)
    requires |xs| > 0 && key(xs[0]) != k
    ensures Pick(xs, key, k) == Pick(xs[1..], key, k)
  {
    assert [] + Pick(xs[1..], key, k) == Pick(xs[1..], key, k);
  }

  /** The first element does not belong to any of the groups `ks` names. */
  lemma {:induction false} TotalByKeyAbsent<T(!new), K>(xs: seq<T>, col: T -> Columns, key: T -> K, ks: seq<K>)
    requires |xs| > 0 && key(xs[0]) !in ks
    ensures TotalByKey(xs, col, key, ks) == TotalByKey(xs[1..], col, key, ks)
  {
    if |ks| > 0 {
      PickSkipsFirst(xs, key, ks[0]);
      TotalByKeyAbsent(xs, col, key, ks[1..]);
    }
  }

  /** The first element belongs to exactly one of the groups `ks` names. */
  lemma {:induction false} TotalByKeyFirst<T(!new), K>(xs: seq<T>, col: T -> Columns, key: T -> K, ks: seq<K>)
    requires |xs| > 0 && key(xs[0]) in ks && NoDuplicates(ks)
    ensures TotalByKey(xs, col, key, ks) == Plus(col(xs[0]), TotalByKey(xs[1..], col, key, ks))
  {
    var tail := ks[1..];
    assert NoDuplicates(tail);
    if key(xs[0]) == ks[0] {
      assert key(xs[0]) !in tail;
      TotalByKeyAbsent(xs, col, key, tail);
    } else {
      assert key(xs[0]) in tail;
      PickSkipsFirst(xs, key, ks[0]);
      TotalByKeyFirst(xs, col, key, tail);
    }
  }

  /** Summing group by group over distinct keys that cover every element
      gives the sum of all elements. */
  lemma {:induction false} TotalByDistinctKeys<T(!new), K>(xs: seq<T>, col: T -> Columns, key: T -> K, ks: seq<K>)
    requires NoDuplicates(ks)
    requires forall i :: 0 <= i < |xs| ==> key(xs[i]) in ks
    ensures TotalByKey(xs, col, key, ks) == Total(xs, col)
  {
    if |xs| == 0 {
      TotalByKeyEmpty(col, key, ks);
    } else {
      assert key(xs[0]) in ks;
      TotalByKeyFirst(xs, col, key, ks);
      TotalByDistinctKeys(xs[1..], col, key, ks);
    }
  }

  /** The sizes of the groups named by `ks`, added up. */
  function CountByKey<T, K(==)>(xs: seq<T>, key: T -> K, ks: seq<K>): nat {
    if |ks| == 0 then 0 else |Pick(xs, key, ks[0])| + CountByKey(xs, key, ks[1..])
  }

  lemma {:induction false} CountByKeyEmpty<T, K>(key: T -> K, ks: seq<K>)
    ensures CountByKey([], key, ks) == 0
  {
    if |ks| > 0 {
      CountByKeyEmpty(key, ks[1..]);
    }
  }

  lemma {:induction false} CountByKeyAbsent<T, K>(xs: seq<T>, key: T -> K, ks: seq<K>)
    requires |xs| > 0 && key(xs[0]) !in ks
    ensures CountByKey(xs, key, ks) == CountByKey(xs[1..], key, ks)
  {
    if |ks| > 0 {
      PickSkipsFirst(xs, key, ks[0]);
      CountByKeyAbsent(xs, key, ks[1..]);
    }
  }

  lemma {:induction false} CountByKeyFirst<T, K>(xs: seq<T>, key: T -> K, ks: seq<K>)
    requires |xs| > 0 && key(xs[0]) in ks && NoDuplicates(ks)
    ensures CountByKey(xs, key, ks) == 1 + CountByKey(xs[1..], key, ks)
  {
    var tail := ks[1..];
    assert NoDuplicates(tail);
    if key(xs[0]) == ks[0] {
      assert key(xs[0]) !in tail;
      CountByKeyAbsent(xs, key, tail);
    } else {
      assert key(xs[0]) in tail;
      PickSkipsFirst(xs, key, ks[0]);
      CountByKeyFirst(xs, key, tail);
    }
  }

  /** Groups over distinct keys that cover every element partition the elements. */
  lemma {:induction false} CountByDistinctKeys<T, K>(xs: seq<T>, key: T -> K, ks: seq<K>)
    requires NoDuplicates(ks)
    requires forall i :: 0 <= i < |xs| ==> key(xs[i]) in ks
    ensures CountByKey(xs, key, ks) == |xs|
  {
    if |xs| == 0 {
      CountByKeyEmpty(key, ks);
    } else {
      assert key(xs[0]) in ks;
      CountByKeyFirst(xs, key, ks);
      CountByDistinctKeys(xs[1..], key, ks);
    }
  }
}
