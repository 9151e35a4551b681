/** Shared datatypes and predicates. */
module Basics {
  datatype Option<+T> = None | Some(value: T)

  ghost predicate Distinct<T>(xs: seq<T>) {
    forall i, j :: 0 <= i < j < |xs| ==> xs[i] != xs[j]
  }

  /** First occurrences, in order. */
  function Dedup(ns: seq<string>): seq<string> {
    if ns == [] then []
    else
      var ds, n := Dedup(ns[..|ns| - 1]), ns[|ns| - 1];
      if n in ds then ds else ds + [n]
  }

  /** The position of the first occurrence. */
  function FirstIndex(ns: seq<string>, n: string): (i: nat)
    requires n in ns
    ensures i < |ns| && ns[i] == n && n !in ns[..i]
  {
    var init := ns[..|ns| - 1];
    if n in init then
      var i := FirstIndex(init, n);
      assert ns[..i] == init[..i];
      i
    else |ns| - 1
  }

  ghost predicate InFirstOrder(ns: seq<string>, ds: seq<string>) {
    && (forall n :: n in ds <==> n in ns)
    && (forall i, j :: 0 <= i < j < |ds| ==> FirstIndex(ns, ds[i]) < FirstIndex(ns, ds[j]))
  }

  /** Deduplication keeps every name once, in the order of the first occurrences. */
  lemma {:induction false} DedupFacts(ns: seq<string>)
    ensures Distinct(Dedup(ns)) && InFirstOrder(ns, Dedup(ns))
  {
    if ns != [] {
      var init, last := ns[..|ns| - 1], ns[|ns| - 1];
      var ds, es := Dedup(init), Dedup(ns);
      DedupFacts(init);
      assert ns == init + [last];
      forall i, j | 0 <= i < j < |es| ensures FirstIndex(ns, es[i]) < FirstIndex(ns, es[j]) {
        assert FirstIndex(ns, es[i]) == FirstIndex(init, ds[i]);
        if j < |ds| { assert FirstIndex(ns, es[j]) == FirstIndex(init, ds[j]); }
      }
    }
  }

  lemma DedupSnoc(ns: seq<string>, x: string)
    ensures Dedup(ns + [x]) == if x in ns then Dedup(ns) else Dedup(ns) + [x]
  {
    assert (ns + [x])[..|ns|] == ns;
    DedupFacts(ns);
  }
}
