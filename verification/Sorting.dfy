/** Python's stable `sorted(xs, key=...)` and the facts the callers rely on. */
module Sorting {

  function Insert<T>(key: T -> real, x: T, xs: seq<T>): seq<T> {
    if xs == [] || key(x) < key(xs[0]) then [x] + xs else [xs[0]] + Insert(key, x, xs[1..])
  }

  /** `sorted(xs, key=key)`; equal keys keep their order. */
  function StableSort<T>(key: T -> real, xs: seq<T>): seq<T> {
    if xs == [] then [] else Insert(key, xs[|xs| - 1], StableSort(key, xs[..|xs| - 1]))
  }

  ghost predicate SortedBy<T>(key: T -> real, xs: seq<T>) {
    forall i, j :: 0 <= i <= j < |xs| ==> key(xs[i]) <= key(xs[j])
  }

  /** The elements of `xs` with key `k`, in order. */
  ghost function WithKey<T>(key: T -> real, k: real, xs: seq<T>): seq<T> {
    if xs == [] then [] else (if key(xs[0]) == k then [xs[0]] else []) + WithKey(key, k, xs[1..])
  }

  lemma {:induction false} InsertFacts<T>(key: T -> real, x: T, xs: seq<T>)
    requires SortedBy(key, xs)
    ensures SortedBy(key, Insert(key, x, xs))
    ensures multiset(Insert(key, x, xs)) == multiset(xs) + multiset{x}
  {
    if xs == [] {
    } else if key(x) < key(xs[0]) {
    } else {
      InsertFacts(key, x, xs[1..]);
      var r := Insert(key, x, xs[1..]);
      assert xs == [xs[0]] + xs[1..];
      forall j | 0 <= j < |r| ensures key(xs[0]) <= key(r[j]) {
        assert r[j] in multiset(r);
        assert r[j] in multiset(xs[1..]) || r[j] == x;
        if r[j] != x { var m :| 0 <= m < |xs[1..]| && xs[1..][m] == r[j]; assert xs[m + 1] == r[j]; }
      }
    }
  }

  /** Sorting sorts, and neither loses nor invents elements. */
  lemma {:induction false} SortFacts<T>(key: T -> real, xs: seq<T>)
    ensures SortedBy(key, StableSort(key, xs))
    ensures multiset(StableSort(key, xs)) == multiset(xs)
    ensures |StableSort(key, xs)| == |xs|
  {
    if xs != [] {
      var ys := xs[..|xs| - 1];
      SortFacts(key, ys);
      InsertFacts(key, xs[|xs| - 1], StableSort(key, ys));
      assert xs == ys + [xs[|xs| - 1]];
    }
    assert |StableSort(key, xs)| == |multiset(StableSort(key, xs))| == |multiset(xs)|;
  }

  lemma {:induction false} WithKeySnoc<T>(key: T -> real, k: real, xs: seq<T>, x: T)
    ensures WithKey(key, k, xs + [x]) == WithKey(key, k, xs) + if key(x) == k then [x] else []
  {
    if xs != [] {
      assert (xs + [x])[1..] == xs[1..] + [x];
      WithKeySnoc(key, k, xs[1..], x);
    } else {
      assert xs + [x] == [x];
    }
  }

  lemma {:induction false} NoneWithKey<T>(key: T -> real, k: real, xs: seq<T>)
    requires forall i :: 0 <= i < |xs| ==> key(xs[i]) != k
    ensures WithKey(key, k, xs) == []
  {
    if xs != [] { NoneWithKey(key, k, xs[1..]); }
  }

  lemma WithKeyCons<T>(key: T -> real, k: real, x: T, xs: seq<T>)
    ensures WithKey(key, k, [x] + xs) == (if key(x) == k then [x] else []) + WithKey(key, k, xs)
  {
    assert ([x] + xs)[1..] == xs;
  }

  lemma {:induction false} InsertStable<T>(key: T -> real, x: T, xs: seq<T>, k: real)
    requires SortedBy(key, xs)
    ensures WithKey(key, k, Insert(key, x, xs)) == WithKey(key, k, xs) + if key(x) == k then [x] else []
  {
    if xs == [] {
    } else if key(x) < key(xs[0]) {
      WithKeyCons(key, k, x, xs);
      if key(x) == k {
        forall i | 0 <= i < |xs| ensures key(xs[i]) != k { assert key(xs[0]) <= key(xs[i]); }
        NoneWithKey(key, k, xs);
      }
    } else {
      InsertStable(key, x, xs[1..], k);
      WithKeyCons(key, k, xs[0], Insert(key, x, xs[1..]));
    }
  }

  /** Sorting is stable: the elements of any one key keep their input order. */
  lemma {:induction false} SortStable<T>(key: T -> real, xs: seq<T>, k: real)
    ensures WithKey(key, k, StableSort(key, xs)) == WithKey(key, k, xs)
  {
    if xs != [] {
      var ys := xs[..|xs| - 1];
      SortStable(key, ys, k);
      SortFacts(key, ys);
      InsertStable(key, xs[|xs| - 1], StableSort(key, ys), k);
      WithKeySnoc(key, k, ys, xs[|xs| - 1]);
      assert xs == ys + [xs[|xs| - 1]];
    }
  }

  lemma SameHead<T>(key: T -> real, xs: seq<T>, ys: seq<T>)
    requires multiset(xs) == multiset(ys) && xs != [] && ys != []
    requires SortedBy(key, xs) && StrictBy(key, ys)
    ensures xs[0] == ys[0]
  {
    assert xs[0] in multiset(ys) && ys[0] in multiset(xs);
    var a :| 0 <= a < |ys| && ys[a] == xs[0];
    var b :| 0 <= b < |xs| && xs[b] == ys[0];
    assert key(xs[0]) <= key(xs[b]);
  }

  ghost predicate StrictBy<T>(key: T -> real, xs: seq<T>) {
    forall i, j :: 0 <= i < j < |xs| ==> key(xs[i]) < key(xs[j])
  }

  lemma TailMultiset<T>(xs: seq<T>)
    requires xs != []
    ensures multiset(xs[1..]) == multiset(xs) - multiset{xs[0]}
  {
    assert xs == [xs[0]] + xs[1..];
  }

  /** Strictly increasing keys leave only one sorted arrangement of a multiset. */
  lemma {:induction false} SortedUnique<T>(key: T -> real, xs: seq<T>, ys: seq<T>)
    requires multiset(xs) == multiset(ys)
    requires SortedBy(key, xs) && StrictBy(key, ys)
    ensures xs == ys
  {
    assert |xs| == |multiset(xs)| == |multiset(ys)| == |ys|;
    if xs != [] {
      SameHead(key, xs, ys);
      TailMultiset(xs);
      TailMultiset(ys);
      SortedUnique(key, xs[1..], ys[1..]);
      assert xs == [xs[0]] + xs[1..] && ys == [ys[0]] + ys[1..];
    }
  }
}
