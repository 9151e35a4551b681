/** The vote tallies: a fold over the records, then a stable ranking and its top. */
module Votes {
  import opened Basics
  import opened Sorting

  /** One vote record; None is an amount that does not parse. */
  datatype Record = Record(validator: string, amount: Option<real>)

  datatype Entry = Entry(validator: string, voters: nat, weight: real)

  function Amount(r: Record): real {
    if r.amount.Some? then r.amount.value else 0.0
  }

  // ---- The reference: counts and sums by validator ---------------------------------

  function Voters(rs: seq<Record>, v: string): nat {
    if rs == [] then 0
    else Voters(rs[..|rs| - 1], v) + if rs[|rs| - 1].validator == v then 1 else 0
  }

  function Weight(rs: seq<Record>, v: string): real {
    if rs == [] then 0.0
    else Weight(rs[..|rs| - 1], v) + if rs[|rs| - 1].validator == v then Amount(rs[|rs| - 1]) else 0.0
  }

  function Named(rs: seq<Record>): seq<string> {
    seq(|rs|, i requires 0 <= i < |rs| => rs[i].validator)
  }

  /** The validators in the order of their first record. */
  function Validators(rs: seq<Record>): seq<string> {
    Dedup(Named(rs))
  }

  function EntryOf(rs: seq<Record>, v: string): Entry {
    Entry(v, Voters(rs, v), Weight(rs, v))
  }

  /** The tally as a list, in insertion order. */
  function Tally(rs: seq<Record>): seq<Entry> {
    var vs := Validators(rs);
    seq(|vs|, i requires 0 <= i < |vs| => EntryOf(rs, vs[i]))
  }

  function ByWeight(): Entry -> real {
    (e: Entry) => -e.weight
  }

  /** `xs[:n]`. */
  function Slice<T>(xs: seq<T>, n: int): seq<T> {
    if n >= |xs| then xs else if n >= 0 then xs[..n] else if |xs| + n >= 0 then xs[..|xs| + n] else []
  }

  function Ranking(rs: seq<Record>): seq<Entry> {
    StableSort(ByWeight(), Tally(rs))
  }

  // ---- Conservation --------------------------------------------------------------------

  function SumVoters(es: seq<Entry>): nat {
    if es == [] then 0 else SumVoters(es[..|es| - 1]) + es[|es| - 1].voters
  }

  function SumWeights(es: seq<Entry>): real {
    if es == [] then 0.0 else SumWeights(es[..|es| - 1]) + es[|es| - 1].weight
  }

  function SumAmounts(rs: seq<Record>): real {
    if rs == [] then 0.0 else SumAmounts(rs[..|rs| - 1]) + Amount(rs[|rs| - 1])
  }

  predicate Votes(rs: seq<Record>, v: string) {
    exists i :: 0 <= i < |rs| && rs[i].validator == v
  }

  lemma VotesSnoc(rs: seq<Record>, v: string)
    requires rs != []
    ensures Votes(rs, v) <==> Votes(rs[..|rs| - 1], v) || rs[|rs| - 1].validator == v
  {
    var init := rs[..|rs| - 1];
    if i :| 0 <= i < |init| && init[i].validator == v { assert rs[i].validator == v; }
  }

  /** The tally has each validator of the records once, in the order of their first records. */
  lemma ValidatorsFacts(rs: seq<Record>)
    ensures Distinct(Validators(rs)) && InFirstOrder(Named(rs), Validators(rs))
    ensures forall v :: v in Validators(rs) <==> Votes(rs, v)
  {
    DedupFacts(Named(rs));
    forall v ensures v in Named(rs) <==> Votes(rs, v) {
      if i :| 0 <= i < |rs| && rs[i].validator == v { assert Named(rs)[i] == v; }
    }
  }

  /** What the last record adds to the list of validators. */
  lemma ValidatorsStep(rs: seq<Record>, us: seq<string>, vs: seq<string>)
    requires rs != [] && us == Validators(rs[..|rs| - 1]) && vs == Validators(rs)
    ensures Distinct(us) && Distinct(vs)
    ensures var v := rs[|rs| - 1].validator; if v in us then vs == us else vs == us + [v]
    ensures rs[|rs| - 1].validator !in us ==> !Votes(rs[..|rs| - 1], rs[|rs| - 1].validator)
  {
    ValidatorsFacts(rs[..|rs| - 1]);
    ValidatorsFacts(rs);
    assert Named(rs)[..|rs| - 1] == Named(rs[..|rs| - 1]);
  }

  lemma {:induction false} NotCounted(rs: seq<Record>, v: string)
    requires !Votes(rs, v)
    ensures Voters(rs, v) == 0 && Weight(rs, v) == 0.0
  {
    if rs != [] {
      VotesSnoc(rs, v);
      NotCounted(rs[..|rs| - 1], v);
    }
  }

  /** The entries of the validators `vs[..n]`. */
  function Entries(rs: seq<Record>, vs: seq<string>, n: nat): seq<Entry>
    requires n <= |vs|
  {
    seq(n, i requires 0 <= i < n => EntryOf(rs, vs[i]))
  }

  lemma {:induction false} EntriesStep(rs: seq<Record>, vs: seq<string>, n: nat)
    requires rs != [] && n <= |vs| && Distinct(vs)
    ensures var r, init := rs[|rs| - 1], rs[..|rs| - 1];
            var hit := r.validator in vs[..n];
            && SumVoters(Entries(rs, vs, n)) == SumVoters(Entries(init, vs, n)) + (if hit then 1 else 0)
            && SumWeights(Entries(rs, vs, n)) == SumWeights(Entries(init, vs, n)) + (if hit then Amount(r) else 0.0)
  {
    if n > 0 {
      var init := rs[..|rs| - 1];
      EntriesStep(rs, vs, n - 1);
      assert Entries(rs, vs, n)[..n - 1] == Entries(rs, vs, n - 1);
      assert Entries(init, vs, n)[..n - 1] == Entries(init, vs, n - 1);
      assert vs[..n] == vs[..n - 1] + [vs[n - 1]];
      if rs[|rs| - 1].validator in vs[..n - 1] {
        var i :| 0 <= i < n - 1 && vs[i] == rs[|rs| - 1].validator;
        assert vs[i] != vs[n - 1];
      }
    }
  }

  /** A validator without a record has an empty entry. */
  lemma NewEntry(rs: seq<Record>, us: seq<string>, v: string)
    requires us == Validators(rs) && !Votes(rs, v)
    ensures SumVoters(Entries(rs, us + [v], |us| + 1)) == SumVoters(Tally(rs))
    ensures SumWeights(Entries(rs, us + [v], |us| + 1)) == SumWeights(Tally(rs))
  {
    NotCounted(rs, v);
    assert Entries(rs, us + [v], |us| + 1)[..|us|] == Tally(rs);
  }

  /** Voter counts add up to the number of records, weights to the sum of the parsed amounts. */
  lemma {:induction false} TallyConserves(rs: seq<Record>)
    ensures SumVoters(Tally(rs)) == |rs|
    ensures SumWeights(Tally(rs)) == SumAmounts(rs)
  {
    if rs != [] {
      var init, r := rs[..|rs| - 1], rs[|rs| - 1];
      var us, vs := Validators(init), Validators(rs);
      TallyConserves(init);
      ValidatorsStep(rs, us, vs);
      EntriesStep(rs, vs, |vs|);
      assert vs[..|vs|] == vs;
      assert Tally(rs) == Entries(rs, vs, |vs|);
      if r.validator in us {
        assert Entries(init, vs, |vs|) == Tally(init);
      } else {
        NewEntry(init, us, r.validator);
      }
    }
  }

  /** Each record counts once for its validator, with its amount, or with nothing if that does not parse. */
  lemma RecordCounts(rs: seq<Record>, r: Record, v: string)
    ensures Voters([], v) == 0 && Weight([], v) == 0.0 && SumAmounts([]) == 0.0
    ensures r.validator != v ==> Voters(rs + [r], v) == Voters(rs, v) && Weight(rs + [r], v) == Weight(rs, v)
    ensures r.validator == v ==> Voters(rs + [r], v) == Voters(rs, v) + 1
    ensures r.validator == v && r.amount.None? ==> Weight(rs + [r], v) == Weight(rs, v)
    ensures r.validator == v && r.amount.Some? ==> Weight(rs + [r], v) == Weight(rs, v) + r.amount.value
    ensures SumAmounts(rs + [r]) - SumAmounts(rs) == Weight(rs + [r], r.validator) - Weight(rs, r.validator)
  {
    assert (rs + [r])[..|rs|] == rs;
  }

  lemma MultisetWithout<T>(ys: seq<T>, i: nat)
    requires i < |ys|
    ensures multiset(ys[..i] + ys[i + 1..]) == multiset(ys) - multiset{ys[i]}
  {
    assert ys == ys[..i] + [ys[i]] + ys[i + 1..];
  }

  lemma MatchLast<T>(xs: seq<T>, ys: seq<T>) returns (i: nat)
    requires multiset(xs) == multiset(ys) && xs != []
    ensures i < |ys| && ys[i] == xs[|xs| - 1]
    ensures multiset(xs[..|xs| - 1]) == multiset(ys[..i] + ys[i + 1..])
  {
    var e := xs[|xs| - 1];
    assert e in multiset(ys);
    i :| 0 <= i < |ys| && ys[i] == e;
    MultisetWithout(ys, i);
    MultisetWithout(xs, |xs| - 1);
    assert xs[..|xs| - 1] + xs[|xs|..] == xs[..|xs| - 1];
  }

  lemma {:induction false} SumVotersOfMultiset(xs: seq<Entry>, ys: seq<Entry>)
    requires multiset(xs) == multiset(ys)
    ensures SumVoters(xs) == SumVoters(ys) && SumWeights(xs) == SumWeights(ys)
    decreases |xs|
  {
    if xs == [] {
      assert |ys| == |multiset(ys)| == 0;
    } else {
      var i := MatchLast(xs, ys);
      SumVotersOfMultiset(xs[..|xs| - 1], ys[..i] + ys[i + 1..]);
      SumRemove(ys, i);
    }
  }

  lemma WithoutLast<T>(ys: seq<T>, i: nat)
    requires i < |ys| - 1
    ensures ys[..i] + ys[i + 1..] == (ys[..i] + ys[i + 1..|ys| - 1]) + [ys[|ys| - 1]]
    ensures ys[..|ys| - 1][..i] + ys[..|ys| - 1][i + 1..] == ys[..i] + ys[i + 1..|ys| - 1]
  {}

  lemma {:induction false} SumRemove(ys: seq<Entry>, i: nat)
    requires i < |ys|
    ensures SumVoters(ys) == SumVoters(ys[..i] + ys[i + 1..]) + ys[i].voters
    ensures SumWeights(ys) == SumWeights(ys[..i] + ys[i + 1..]) + ys[i].weight
  {
    var init := ys[..|ys| - 1];
    if i == |ys| - 1 {
      assert ys[..i] + ys[i + 1..] == init;
    } else {
      SumRemove(init, i);
      WithoutLast(ys, i);
    }
  }

  // ---- The ranking -----------------------------------------------------------------------

  /**
   * The ranking holds one entry per validator, with its exact count and weight, heaviest first;
   * equal weights keep the order of first appearance.
   */
  lemma RankingFacts(rs: seq<Record>, w: real)
    ensures var es := Ranking(rs);
            && (forall i, j :: 0 <= i <= j < |es| ==> es[i].weight >= es[j].weight)
            && multiset(es) == multiset(Tally(rs))
            && SumVoters(es) == |rs| && SumWeights(es) == SumAmounts(rs)
            && WithKey(ByWeight(), w, es) == WithKey(ByWeight(), w, Tally(rs))
  {
    var es := Ranking(rs);
    SortFacts(ByWeight(), Tally(rs));
    SortStable(ByWeight(), Tally(rs), w);
    TallyConserves(rs);
    SumVotersOfMultiset(es, Tally(rs));
    forall i, j | 0 <= i <= j < |es| ensures es[i].weight >= es[j].weight {
      assert ByWeight()(es[i]) <= ByWeight()(es[j]);
    }
  }

  /** A slice is a prefix: all that is there of `n` elements, or what is left without the last `-n`. */
  lemma SliceMeans<T>(xs: seq<T>, n: int)
    ensures Slice(xs, n) <= xs
    ensures n >= 0 ==> |Slice(xs, n)| == if n <= |xs| then n else |xs|
    ensures n < 0 ==> |Slice(xs, n)| == if |xs| + n >= 0 then |xs| + n else 0
  {}

  lemma SameElements<T>(xs: seq<T>, ys: seq<T>, x: T)
    requires multiset(xs) == multiset(ys)
    ensures x in xs <==> x in ys
  {
    assert x in xs <==> x in multiset(xs);
    assert x in ys <==> x in multiset(ys);
  }

  lemma HeaviestFirst(es: seq<Entry>, top: seq<Entry>, e: Entry, f: Entry)
    requires forall i, j :: 0 <= i <= j < |es| ==> es[i].weight >= es[j].weight
    requires top <= es && e in top && f in es && f !in top
    ensures f.weight <= e.weight
  {
    var a :| 0 <= a < |top| && top[a] == e;
    var b :| 0 <= b < |es| && es[b] == f;
    assert b >= |top|;
    assert es[a] == top[a];
  }

  /** No validator that the top list omits outweighs a listed one, and listed entries are exact. */
  lemma TopIsHeaviest(rs: seq<Record>, n: int, e: Entry, v: string)
    requires e in Slice(Ranking(rs), n)
    requires v in Validators(rs) && forall f :: f in Slice(Ranking(rs), n) ==> f.validator != v
    ensures Weight(rs, v) <= e.weight
    ensures e == EntryOf(rs, e.validator)
  {
    var es, top, f := Ranking(rs), Slice(Ranking(rs), n), EntryOf(rs, v);
    RankingFacts(rs, 0.0);
    SliceMeans(es, n);
    var i :| 0 <= i < |Validators(rs)| && Validators(rs)[i] == v;
    assert Tally(rs)[i] == f;
    SameElements(es, Tally(rs), f);
    SameElements(es, Tally(rs), e);
    HeaviestFirst(es, top, e, f);
  }

  // ---- The loop ----------------------------------------------------------------------------

  /** The aggregation of `marinade_msol_votes` and `marinade_vemnde_votes`. */
  method TopValidators(rs: seq<Record>, topN: int) returns (ranked: seq<Entry>, total: nat)
    ensures ranked == Slice(Ranking(rs), topN)
    ensures total == |Validators(rs)|
  {
    var tally: map<string, Entry> := map[];
    var order: seq<string> := [];
    for k := 0 to |rs|
      invariant order == Validators(rs[..k])
      invariant forall v :: v in tally <==> v in order
      invariant forall v :: v in tally ==> tally[v] == EntryOf(rs[..k], v)
    {
      var r := rs[k];
      assert rs[..k + 1][..k] == rs[..k];
      ValidatorsStep(rs[..k + 1], order, Validators(rs[..k + 1]));
      if r.validator !in tally {
        NotCounted(rs[..k], r.validator);
        tally := tally[r.validator := Entry(r.validator, 0, 0.0)];
        order := order + [r.validator];
      }
      var e := tally[r.validator];
      tally := tally[r.validator := e.(voters := e.voters + 1, weight := e.weight + Amount(r))];
    }
    assert rs[..|rs|] == rs;
    var values := seq(|order|, i requires 0 <= i < |order| => tally[order[i]]);
    assert values == Tally(rs);
    ranked := Slice(StableSort(ByWeight(), values), topN);
    total := |order|;
  }
}
