/** The breadcrumb of a markdown section, kept by truncation, against the chain of enclosing headings. */
module Breadcrumbs {

  /** A match of the heading pattern: where it starts, its number of hashes, and its title. */
  datatype Heading = Heading(pos: nat, level: nat, title: string)

  ghost predicate HasLevels(hs: seq<Heading>) {
    forall i :: 0 <= i < |hs| ==> 1 <= hs[i].level
  }

  /** The loop's `breadcrumb[:level - 1] + [heading]`, as indices into `hs`. */
  function Crumb(hs: seq<Heading>, i: nat): (c: seq<nat>)
    requires i < |hs| && 1 <= hs[i].level && HasLevels(hs)
    ensures c != [] && |c| <= hs[i].level && c[|c| - 1] == i
    ensures forall k :: 0 <= k < |c| ==> c[k] <= i
  {
    (if i == 0 then [] else
       var b := Crumb(hs, i - 1);
       if |b| <= hs[i].level - 1 then b else b[..hs[i].level - 1]) + [i]
  }

  // ---- The reference: nearest earlier headings of smaller level --------------

  /** The last heading among the first `n` whose level is below `level`, or -1. */
  function NearestBelow(hs: seq<Heading>, n: nat, level: nat): (r: int)
    requires n <= |hs|
    ensures -1 <= r < n
    ensures r >= 0 ==> hs[r].level < level
    ensures forall k :: 0 <= k < n && r < k ==> hs[k].level >= level
  {
    if n == 0 then -1 else if hs[n - 1].level < level then n - 1 else NearestBelow(hs, n - 1, level)
  }

  function Parent(hs: seq<Heading>, i: nat): int
    requires i < |hs|
  {
    NearestBelow(hs, i, hs[i].level)
  }

  /** `i` after the chain of its parents. */
  function Chain(hs: seq<Heading>, i: nat): (c: seq<nat>)
    requires i < |hs|
    ensures c != [] && c[|c| - 1] == i
    ensures forall k :: 0 <= k < |c| ==> c[k] <= i
    decreases i, 1
  {
    ChainTo(hs, Parent(hs, i), i) + [i]
  }

  /** The chain of `q`, a heading before `n`, or nothing if there is none. */
  function ChainTo(hs: seq<Heading>, q: int, n: nat): (c: seq<nat>)
    requires -1 <= q < n <= |hs|
    ensures forall k :: 0 <= k < |c| ==> c[k] <= q
    decreases n, 0
  {
    if q == -1 then [] else Chain(hs, q)
  }

  /** Levels grow strictly along a chain, so a chain is no longer than the level of its end. */
  ghost predicate Climbing(hs: seq<Heading>, c: seq<nat>) {
    && (forall k :: 0 <= k < |c| ==> c[k] < |hs|)
    && (forall k :: 0 <= k < |c| ==> k + 1 <= hs[c[k]].level)
    && (forall k :: 0 < k < |c| ==> hs[c[k - 1]].level < hs[c[k]].level)
  }

  lemma {:induction false} ChainClimbs(hs: seq<Heading>, i: nat)
    requires i < |hs| && HasLevels(hs)
    ensures Climbing(hs, Chain(hs, i))
  {
    if Parent(hs, i) != -1 { ChainClimbs(hs, Parent(hs, i)); }
  }

  /** The chain without its tail of levels at or above `level`. */
  function CutBelow(hs: seq<Heading>, c: seq<nat>, level: nat): (r: seq<nat>)
    requires forall k :: 0 <= k < |c| ==> c[k] < |hs|
    ensures |r| <= |c| && r == c[..|r|]
  {
    if c == [] || hs[c[|c| - 1]].level < level then c else CutBelow(hs, c[..|c| - 1], level)
  }

  /** The ancestors of heading `j` with smaller levels are the chain of the nearest heading below. */
  lemma {:induction false} CutChain(hs: seq<Heading>, j: nat, level: nat)
    requires j < |hs|
    ensures CutBelow(hs, Chain(hs, j), level) == ChainTo(hs, NearestBelow(hs, j + 1, level), j + 1)
  {
    if hs[j].level >= level {
      var p, c := Parent(hs, j), Chain(hs, j);
      assert c[..|c| - 1] == ChainTo(hs, p, j);
      if p != -1 { CutChain(hs, p, level); }
      SkipToParent(hs, j, level);
    }
  }

  lemma SkipToParent(hs: seq<Heading>, j: nat, level: nat)
    requires j < |hs| && hs[j].level >= level
    ensures NearestBelow(hs, j + 1, level) == NearestBelow(hs, Parent(hs, j) + 1, level)
  {}

  /** One heading on: pop the levels at or above the new one, push the new one. */
  lemma ChainStep(hs: seq<Heading>, i: nat)
    requires 0 < i < |hs|
    ensures Chain(hs, i) == CutBelow(hs, Chain(hs, i - 1), hs[i].level) + [i]
  {
    CutChain(hs, i - 1, hs[i].level);
  }

  // ---- When the breadcrumb is the chain ---------------------------------------

  ghost predicate CrumbIsChain(hs: seq<Heading>, i: nat)
    requires i < |hs| && HasLevels(hs)
  {
    Crumb(hs, i) == Chain(hs, i)
  }

  /** Heading `i` is deeper than the one before it, or every smaller level is above it. */
  ghost predicate NoLevelSkipped(hs: seq<Heading>, i: nat)
    requires i < |hs|
  {
    i > 0 ==> hs[i].level > hs[i - 1].level || |Chain(hs, i)| == hs[i].level
  }

  /** How much of the breadcrumb before it a heading keeps. */
  function KeptLength(c: seq<nat>, level: nat): (n: nat)
    requires 1 <= level
    ensures n <= |c|
  {
    if |c| <= level - 1 then |c| else level - 1
  }

  lemma CrumbStep(hs: seq<Heading>, i: nat, c: seq<nat>)
    requires 0 < i < |hs| && HasLevels(hs) && c == Crumb(hs, i - 1)
    ensures Crumb(hs, i) == c[..KeptLength(c, hs[i].level)] + [i]
  {
    assert |c| <= hs[i].level - 1 ==> c[..|c|] == c;
  }

  lemma PrefixSnocIff(c: seq<nat>, a: nat, b: nat, i: nat)
    requires a <= |c| && b <= |c|
    ensures c[..a] + [i] == c[..b] + [i] <==> a == b
  {
    assert |c[..a] + [i]| == a + 1 && |c[..b] + [i]| == b + 1;
  }

  lemma StepIff(hs: seq<Heading>, i: nat)
    requires 0 < i < |hs| && HasLevels(hs) && CrumbIsChain(hs, i - 1)
    ensures CrumbIsChain(hs, i) <==> NoLevelSkipped(hs, i)
  {
    var c, level := Chain(hs, i - 1), hs[i].level;
    ChainStep(hs, i);
    CrumbStep(hs, i, c);
    var m := |CutBelow(hs, c, level)|;
    PrefixSnocIff(c, KeptLength(c, level), m, i);
    assert |Chain(hs, i)| == m + 1;
    LastLevel(hs, i - 1);
    assert m == |c| <==> hs[i - 1].level < level;
  }

  lemma LastLevel(hs: seq<Heading>, i: nat)
    requires i < |hs| && HasLevels(hs)
    ensures |Chain(hs, i)| <= hs[i].level
  {
    ChainClimbs(hs, i);
  }

  /** The breadcrumb is the chain of enclosing headings exactly when no level is skipped above a heading. */
  lemma {:induction false} CrumbsAreChainsIff(hs: seq<Heading>, n: nat)
    requires n <= |hs| && HasLevels(hs)
    ensures (forall i :: 0 <= i < n ==> CrumbIsChain(hs, i)) <==> (forall i :: 0 <= i < n ==> NoLevelSkipped(hs, i))
  {
    if n > 0 {
      CrumbsAreChainsIff(hs, n - 1);
      if n > 1 {
        if forall i :: 0 <= i < n - 1 ==> CrumbIsChain(hs, i) { StepIff(hs, n - 1); }
      } else {
        assert Parent(hs, 0) == -1;
        assert CrumbIsChain(hs, 0);
      }
    }
  }

  // ---- When its length is the level ---------------------------------------------

  /** The first heading has level 1 and levels never grow by more than one. */
  ghost predicate WellNested(hs: seq<Heading>, n: nat)
    requires n <= |hs|
  {
    && (n > 0 ==> hs[0].level == 1)
    && (forall i :: 0 < i < n ==> hs[i].level <= hs[i - 1].level + 1)
  }

  ghost predicate FullCrumb(hs: seq<Heading>, i: nat)
    requires i < |hs| && HasLevels(hs)
  {
    |Crumb(hs, i)| == hs[i].level
  }

  lemma FullStepIff(hs: seq<Heading>, i: nat)
    requires i < |hs| && HasLevels(hs) && (i > 0 ==> FullCrumb(hs, i - 1))
    ensures FullCrumb(hs, i) <==> hs[i].level <= if i == 0 then 1 else hs[i - 1].level + 1
  {}

  /** Every breadcrumb is as long as its level exactly when the headings are well nested. */
  lemma {:induction false} CrumbLengthIff(hs: seq<Heading>, n: nat)
    requires n <= |hs| && HasLevels(hs)
    ensures (forall i :: 0 <= i < n ==> FullCrumb(hs, i)) <==> WellNested(hs, n)
  {
    if n > 0 {
      CrumbLengthIff(hs, n - 1);
      if WellNested(hs, n - 1) { FullStepIff(hs, n - 1); }
    }
  }

  lemma {:induction false} FullChainCut(hs: seq<Heading>, c: seq<nat>, level: nat)
    requires Climbing(hs, c) && (c != [] ==> |c| == hs[c[|c| - 1]].level) && 1 <= level
    ensures |CutBelow(hs, c, level)| == if |c| <= level - 1 then |c| else level - 1
  {
    if c != [] && hs[c[|c| - 1]].level >= level {
      FullChainCut(hs, c[..|c| - 1], level);
    }
  }

  lemma FullCut(hs: seq<Heading>, i: nat, level: nat)
    requires i < |hs| && HasLevels(hs) && |Chain(hs, i)| == hs[i].level && 1 <= level
    ensures CutBelow(hs, Chain(hs, i), level) == Chain(hs, i)[..KeptLength(Chain(hs, i), level)]
  {
    ChainClimbs(hs, i);
    FullChainCut(hs, Chain(hs, i), level);
  }

  lemma NestedStep(hs: seq<Heading>, i: nat)
    requires 0 < i < |hs| && HasLevels(hs) && CrumbIsChain(hs, i - 1)
    requires FullCrumb(hs, i - 1) && hs[i].level <= hs[i - 1].level + 1
    ensures CrumbIsChain(hs, i)
  {
    FullCut(hs, i - 1, hs[i].level);
    ChainStep(hs, i);
    CrumbStep(hs, i, Chain(hs, i - 1));
  }

  /** In well-nested text the breadcrumb is the chain of enclosing headings, one per level. */
  lemma {:induction false} NestedCrumbs(hs: seq<Heading>, n: nat)
    requires n <= |hs| && HasLevels(hs) && WellNested(hs, n)
    ensures forall i :: 0 <= i < n ==> CrumbIsChain(hs, i) && FullCrumb(hs, i)
  {
    CrumbLengthIff(hs, n);
    if n > 1 {
      NestedCrumbs(hs, n - 1);
      assert CrumbIsChain(hs, n - 2) && FullCrumb(hs, n - 2);
      NestedStep(hs, n - 1);
    } else if n == 1 {
      assert Parent(hs, 0) == -1;
      assert CrumbIsChain(hs, 0);
    }
  }

  /** Siblings below a skipped level: the second is filed under the first, which is no ancestor of it. */
  lemma SkippedLevelMisfiles(hs: seq<Heading>, i: nat)
    requires 0 < i < |hs| && HasLevels(hs)
    requires hs[i].level == hs[i - 1].level && |Crumb(hs, i - 1)| < hs[i - 1].level
    ensures Crumb(hs, i) == Crumb(hs, i - 1) + [i] && i - 1 in Crumb(hs, i) && i - 1 !in Chain(hs, i)
  {
    var c := Crumb(hs, i - 1);
    CrumbStep(hs, i, c);
    assert Crumb(hs, i)[|c| - 1] == i - 1;
  }
}
