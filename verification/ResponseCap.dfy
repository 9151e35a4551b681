/** `_cap`: truncation of tool responses to a number of serialised characters. */
module ResponseCap {
  import opened Basics
  import opened Text

  /** A JSON value. Scalars and keys are given by the text `json.dumps` renders them as. */
  datatype Json = Scalar(text: string) | List(items: seq<Json>) | Dict(members: seq<Member>)

  datatype Member = Member(key: string, value: Json)

  function DumpItems(xs: seq<Json>): string
    decreases xs
  {
    if xs == [] then ""
    else if |xs| == 1 then Dump(xs[0])
    else DumpItems(xs[..|xs| - 1]) + ", " + Dump(xs[|xs| - 1])
  }

  function DumpMember(m: Member): string
    decreases m
  {
    m.key + ": " + Dump(m.value)
  }

  function DumpMembers(ms: seq<Member>): string
    decreases ms
  {
    if ms == [] then ""
    else if |ms| == 1 then DumpMember(ms[0])
    else DumpMembers(ms[..|ms| - 1]) + ", " + DumpMember(ms[|ms| - 1])
  }

  /** `json.dumps(v)`. */
  function Dump(v: Json): string
    decreases v
  {
    match v
    case Scalar(t) => t
    case List(xs) => "[" + DumpItems(xs) + "]"
    case Dict(ms) => "{" + DumpMembers(ms) + "}"
  }

  function Size(v: Json): nat {
    |Dump(v)|
  }

  function ListSizes(xs: seq<Json>): nat -> nat {
    (k: nat) => if k <= |xs| then Size(List(xs[..k])) else 0
  }

  function DictSizes(ms: seq<Member>): nat -> nat {
    (k: nat) => if k <= |ms| then Size(Dict(ms[..k])) else 0
  }

  /** The largest `k <= n` with `size(k) <= max`, or 0: searched from above. */
  function Longest(size: nat -> nat, n: nat, max: nat): (k: nat)
    ensures k <= n
    ensures k == 0 || size(k) <= max
    ensures forall j :: k < j <= n ==> size(j) > max
  {
    if n == 0 then 0 else if size(n) <= max then n else Longest(size, n - 1, max)
  }

  ghost predicate Growing(size: nat -> nat, n: nat) {
    forall i: nat, j: nat :: i <= j <= n ==> size(i) <= size(j)
  }

  /** `xs[:max(1, k)]`. */
  function AtLeastOne<T>(xs: seq<T>, k: nat): seq<T>
    requires k <= |xs|
  {
    if xs == [] then xs else if k == 0 then xs[..1] else xs[..k]
  }

  /** `_cap`. */
  function Cap(v: Json, max: nat): Json
    decreases v, 1
  {
    if Size(v) <= max then v
    else
      match v
      case Scalar(_) => v
      case List(xs) => List(AtLeastOne(xs, Longest(ListSizes(xs), |xs|, max)))
      case Dict(ms) =>
        var t := Dict(CapMembers(ms, max));
        if Size(t) <= max then t else Dict(AtLeastOne(ms, Longest(DictSizes(ms), |ms|, max)))
  }

  /** The members with their list and dictionary values capped. */
  function CapMembers(ms: seq<Member>, max: nat): (r: seq<Member>)
    ensures |r| == |ms|
    decreases ms, 0
  {
    if ms == [] then []
    else CapMembers(ms[..|ms| - 1], max)
         + [Member(ms[|ms| - 1].key, if ms[|ms| - 1].value.Scalar? then ms[|ms| - 1].value else Cap(ms[|ms| - 1].value, max))]
  }

  lemma {:induction false} CapMembersAt(ms: seq<Member>, max: nat, i: nat)
    requires i < |ms|
    ensures CapMembers(ms, max)[i] == Member(ms[i].key, Cap(ms[i].value, max))
  {
    if i < |ms| - 1 { CapMembersAt(ms[..|ms| - 1], max, i); }
  }

  // ---- The text of a value ------------------------------------------------------------

  function Dumps(xs: seq<Json>): seq<string> {
    seq(|xs|, i requires 0 <= i < |xs| => Dump(xs[i]))
  }

  function MemberDumps(ms: seq<Member>): seq<string> {
    seq(|ms|, i requires 0 <= i < |ms| => ms[i].key + ": " + Dump(ms[i].value))
  }

  lemma {:induction false} ItemsJoined(xs: seq<Json>)
    ensures DumpItems(xs) == Join(", ", Dumps(xs))
  {
    if |xs| > 1 {
      ItemsJoined(xs[..|xs| - 1]);
      JoinSnoc(", ", Dumps(xs[..|xs| - 1]), Dump(xs[|xs| - 1]));
      assert Dumps(xs) == Dumps(xs[..|xs| - 1]) + [Dump(xs[|xs| - 1])];
    }
  }

  lemma {:induction false} MembersJoined(ms: seq<Member>)
    ensures DumpMembers(ms) == Join(", ", MemberDumps(ms))
  {
    if ms != [] {
      var init, last := ms[..|ms| - 1], ms[|ms| - 1];
      assert MemberDumps(ms) == MemberDumps(init) + [last.key + ": " + Dump(last.value)];
      MembersJoined(init);
      if init != [] { JoinSnoc(", ", MemberDumps(init), last.key + ": " + Dump(last.value)); }
    }
  }

  /** The text of a list or dictionary is the bracketed texts of its entries, joined by a comma and a space. */
  lemma DumpMeans(t: string, xs: seq<Json>, ms: seq<Member>)
    ensures Dump(Scalar(t)) == t
    ensures Dump(List(xs)) == "[" + Join(", ", Dumps(xs)) + "]"
    ensures Dump(Dict(ms)) == "{" + Join(", ", MemberDumps(ms)) + "}"
  {
    ItemsJoined(xs);
    MembersJoined(ms);
  }

  // ---- Sizes ------------------------------------------------------------------------

  lemma {:induction false} ListGrows(xs: seq<Json>, i: nat, j: nat)
    requires i <= j <= |xs|
    ensures |DumpItems(xs[..i])| <= |DumpItems(xs[..j])|
  {
    if i < j {
      ListGrows(xs, i, j - 1);
      assert xs[..j][..j - 1] == xs[..j - 1];
    }
  }

  lemma {:induction false} DictGrows(ms: seq<Member>, i: nat, j: nat)
    requires i <= j <= |ms|
    ensures |DumpMembers(ms[..i])| <= |DumpMembers(ms[..j])|
  {
    if i < j {
      DictGrows(ms, i, j - 1);
      assert ms[..j][..j - 1] == ms[..j - 1];
    }
  }

  lemma ListSizesGrow(xs: seq<Json>)
    ensures Growing(ListSizes(xs), |xs|)
  {
    forall i: nat, j: nat | i <= j <= |xs| ensures ListSizes(xs)(i) <= ListSizes(xs)(j) { ListGrows(xs, i, j); }
  }

  lemma DictSizesGrow(ms: seq<Member>)
    ensures Growing(DictSizes(ms), |ms|)
  {
    forall i: nat, j: nat | i <= j <= |ms| ensures DictSizes(ms)(i) <= DictSizes(ms)(j) { DictGrows(ms, i, j); }
  }

  /** On an oversized list the result is the longest prefix that fits, or else the first element alone. */
  lemma OversizedList(xs: seq<Json>, max: nat, k: nat)
    requires Size(List(xs)) > max && xs != [] && 0 < k <= |xs|
    ensures Cap(List(xs), max) == List(xs[..k]) <==>
              (if Size(List(xs[..1])) <= max then
                 Size(List(xs[..k])) <= max && (k == |xs| || Size(List(xs[..k + 1])) > max)
               else k == 1)
  {
    var l := Longest(ListSizes(xs), |xs|, max);
    ListSizesGrow(xs);
    assert ListSizes(xs)(1) == Size(List(xs[..1]));
    assert ListSizes(xs)(k) == Size(List(xs[..k]));
    assert k < |xs| ==> ListSizes(xs)(k + 1) == Size(List(xs[..k + 1]));
    assert |AtLeastOne(xs, l)| == if l == 0 then 1 else l;
    if Cap(List(xs), max) == List(xs[..k]) {
      assert |xs[..k]| == k;
    }
  }

  /** On an oversized dictionary whose capped members fit, the result has exactly those members, each capped. */
  lemma MembersCapped(ms: seq<Member>, max: nat, i: nat)
    requires Size(Dict(ms)) > max && Size(Dict(CapMembers(ms, max))) <= max && i < |ms|
    ensures var r := Cap(Dict(ms), max);
            r.Dict? && |r.members| == |ms| && r.members[i] == Member(ms[i].key, Cap(ms[i].value, max))
  {
    CapMembersAt(ms, max, i);
  }

  /** On one whose capped members do not fit, it is the longest prefix of members that fits, or else the first alone. */
  lemma OversizedDict(ms: seq<Member>, max: nat, k: nat)
    requires Size(Dict(ms)) > max && Size(Dict(CapMembers(ms, max))) > max && ms != [] && 0 < k <= |ms|
    ensures Cap(Dict(ms), max) == Dict(ms[..k]) <==>
              (if Size(Dict(ms[..1])) <= max then
                 Size(Dict(ms[..k])) <= max && (k == |ms| || Size(Dict(ms[..k + 1])) > max)
               else k == 1)
  {
    var l := Longest(DictSizes(ms), |ms|, max);
    DictSizesGrow(ms);
    assert DictSizes(ms)(1) == Size(Dict(ms[..1]));
    assert DictSizes(ms)(k) == Size(Dict(ms[..k]));
    assert k < |ms| ==> DictSizes(ms)(k + 1) == Size(Dict(ms[..k + 1]));
    assert |AtLeastOne(ms, l)| == if l == 0 then 1 else l;
    if Cap(Dict(ms), max) == Dict(ms[..k]) {
      assert |ms[..k]| == k;
    }
  }

  // ---- When the result fits ------------------------------------------------------------

  /** The number of elements or members; 0 for a scalar. */
  function Count(v: Json): nat {
    match v
    case Scalar(_) => 0
    case List(xs) => |xs|
    case Dict(ms) => |ms|
  }

  /** What can be checked beforehand: the value fits, or its first element or member alone does, or its capped members do. */
  predicate CanFit(v: Json, max: nat) {
    || Size(v) <= max
    || (v.List? && v.items != [] && Size(List(v.items[..1])) <= max)
    || (v.Dict? && Size(Dict(CapMembers(v.members, max))) <= max)
    || (v.Dict? && v.members != [] && Size(Dict(v.members[..1])) <= max)
  }

  /** The result is within the limit exactly when something of the value can be. */
  lemma CapFitsIff(v: Json, max: nat)
    ensures Size(Cap(v, max)) <= max <==> CanFit(v, max)
  {
    match v
    case Scalar(_) =>
    case List(xs) =>
      ListSizesGrow(xs);
      var l := Longest(ListSizes(xs), |xs|, max);
      if xs != [] {
        assert ListSizes(xs)(1) == Size(List(xs[..1]));
        assert ListSizes(xs)(l) == Size(List(xs[..l]));
      }
    case Dict(ms) =>
      DictSizesGrow(ms);
      var l := Longest(DictSizes(ms), |ms|, max);
      if ms != [] {
        assert DictSizes(ms)(1) == Size(Dict(ms[..1]));
        assert DictSizes(ms)(l) == Size(Dict(ms[..l]));
      }
  }

  /** A result over the limit is a scalar, or has at most one element or member. */
  lemma OversizedResultIsSmall(v: Json, max: nat)
    ensures Size(Cap(v, max)) <= max || Cap(v, max).Scalar? || Count(Cap(v, max)) <= 1
  {
    match v
    case Scalar(_) =>
    case List(xs) =>
      var l := Longest(ListSizes(xs), |xs|, max);
      assert ListSizes(xs)(l) == Size(List(xs[..l]));
    case Dict(ms) =>
      var l := Longest(DictSizes(ms), |ms|, max);
      assert DictSizes(ms)(l) == Size(Dict(ms[..l]));
  }

  /** A list of one element that is too long comes back whole, however small the limit. */
  lemma HugeElementSurvives(x: Json, max: nat)
    requires Size(List([x])) > max
    ensures Cap(List([x]), max) == List([x])
  {
    OversizedList([x], max, 1);
    assert [x][..1] == [x];
  }

  // ---- Pruning ---------------------------------------------------------------------------

  /** `r` is `v` with list tails, member tails and parts of members' values cut off. */
  ghost predicate Pruned(r: Json, v: Json)
    decreases r
  {
    || r == v
    || (r.List? && v.List? && r.items <= v.items)
    || (r.Dict? && v.Dict? && |r.members| <= |v.members|
        && forall i :: 0 <= i < |r.members| ==>
             r.members[i].key == v.members[i].key && Pruned(r.members[i].value, v.members[i].value))
  }

  /** `_cap` only prunes. */
  lemma {:induction false} CapPrunes(v: Json, max: nat)
    ensures Pruned(Cap(v, max), v)
    decreases v
  {
    match v
    case Scalar(_) =>
    case List(xs) =>
    case Dict(ms) =>
      var r := Cap(v, max);
      if Size(v) > max && Size(Dict(CapMembers(ms, max))) <= max {
        forall i | 0 <= i < |ms| ensures r.members[i].key == ms[i].key && Pruned(r.members[i].value, ms[i].value) {
          CapMembersAt(ms, max, i);
          CapPrunes(ms[i].value, max);
        }
      }
  }

  lemma DumpMembersSnoc(ms: seq<Member>, n: nat)
    requires 0 < n <= |ms|
    ensures |DumpMembers(ms[..n])|
         == |DumpMembers(ms[..n - 1])| + (if n == 1 then 0 else 2) + |ms[n - 1].key| + 2 + Size(ms[n - 1].value)
  {
    assert ms[..n][..n - 1] == ms[..n - 1];
  }

  lemma {:induction false} PrunedMembersSize(rs: seq<Member>, ms: seq<Member>, n: nat)
    requires n <= |rs| && n <= |ms|
    requires forall i :: 0 <= i < n ==> rs[i].key == ms[i].key && Size(rs[i].value) <= Size(ms[i].value)
    ensures |DumpMembers(rs[..n])| <= |DumpMembers(ms[..n])|
  {
    if n > 0 {
      PrunedMembersSize(rs, ms, n - 1);
      DumpMembersSnoc(rs, n);
      DumpMembersSnoc(ms, n);
    }
  }

  lemma {:induction false} PrunedIsSmaller(r: Json, v: Json)
    requires Pruned(r, v)
    ensures Size(r) <= Size(v)
    decreases r
  {
    if r != v && r.List? {
      ListGrows(v.items, |r.items|, |v.items|);
      assert v.items[..|r.items|] == r.items && v.items[..|v.items|] == v.items;
    } else if r != v {
      var rs, ms := r.members, v.members;
      forall i | 0 <= i < |rs| ensures Size(rs[i].value) <= Size(ms[i].value) { PrunedIsSmaller(rs[i].value, ms[i].value); }
      PrunedMembersSize(rs, ms, |rs|);
      DictGrows(ms, |rs|, |ms|);
      assert rs[..|rs|] == rs && ms[..|ms|] == ms;
    }
  }

  /** The size never grows. */
  lemma CapNeverGrows(v: Json, max: nat)
    ensures Size(Cap(v, max)) <= Size(v)
  {
    CapPrunes(v, max);
    PrunedIsSmaller(Cap(v, max), v);
  }

  /** One step of a path into a value: an element, or the member with a key. */
  datatype Access = Item(index: nat) | Field(key: string)

  function Lookup(ms: seq<Member>, key: string): Option<Json> {
    if ms == [] then None else if ms[0].key == key then Some(ms[0].value) else Lookup(ms[1..], key)
  }

  function At(v: Json, path: seq<Access>): Option<Json>
    decreases |path|
  {
    if path == [] then Some(v)
    else
      var next := match path[0]
        case Item(i) => if v.List? && i < |v.items| then Some(v.items[i]) else None
        case Field(k) => if v.Dict? then Lookup(v.members, k) else None;
      if next.None? then None else At(next.value, path[1..])
  }

  /** A key leads to its first member, an index to its element, and a path to what its steps lead to in turn. */
  lemma {:induction false} PathsMean(v: Json, step: Access, path: seq<Access>)
    ensures At(v, []) == Some(v)
    ensures At(v, [step] + path) ==
              var next := At(v, [step]); if next.Some? then At(next.value, path) else None
    ensures At(v, [step]).Some? ==>
              match step
              case Item(i) => v.List? && i < |v.items| && At(v, [step]).value == v.items[i]
              case Field(k) => v.Dict? && exists i :: IsFirst(v.members, k, i) && At(v, [step]).value == v.members[i].value
    ensures At(v, [step]).None? ==>
              match step
              case Item(i) => !v.List? || i >= |v.items|
              case Field(k) => !v.Dict? || forall i :: 0 <= i < |v.members| ==> v.members[i].key != k
  {
    assert ([step] + path)[1..] == path && [step][1..] == [];
    if v.Dict? && step.Field? { LookupMeans(v.members, step.key); }
  }

  predicate IsFirst(ms: seq<Member>, key: string, i: int) {
    0 <= i < |ms| && ms[i].key == key && forall j :: 0 <= j < i ==> ms[j].key != key
  }

  lemma {:induction false} LookupMeans(ms: seq<Member>, key: string)
    ensures match Lookup(ms, key)
            case Some(v) => exists i :: IsFirst(ms, key, i) && ms[i].value == v
            case None => forall i :: 0 <= i < |ms| ==> ms[i].key != key
  {
    if ms != [] {
      LookupMeans(ms[1..], key);
      if ms[0].key == key {
        assert IsFirst(ms, key, 0);
      } else if Lookup(ms, key).Some? {
        var i :| IsFirst(ms[1..], key, i) && ms[1..][i].value == Lookup(ms, key).value;
        assert forall j :: 1 <= j < |ms| ==> ms[j] == ms[1..][j - 1];
        assert IsFirst(ms, key, i + 1);
      } else {
        assert forall j :: 1 <= j < |ms| ==> ms[j] == ms[1..][j - 1];
      }
    }
  }

  lemma {:induction false} LookupPruned(rs: seq<Member>, ms: seq<Member>, key: string)
    requires |rs| <= |ms| && Lookup(rs, key).Some?
    requires forall i :: 0 <= i < |rs| ==> rs[i].key == ms[i].key && Pruned(rs[i].value, ms[i].value)
    ensures Lookup(ms, key).Some? && Pruned(Lookup(rs, key).value, Lookup(ms, key).value)
  {
    if rs[0].key != key { LookupPruned(rs[1..], ms[1..], key); }
  }

  /** Every leaf that is left sits at the same path in the original, and is the same leaf. */
  lemma {:induction false} PrunedLeaves(r: Json, v: Json, path: seq<Access>)
    requires Pruned(r, v) && At(r, path).Some? && At(r, path).value.Scalar?
    ensures At(v, path) == At(r, path)
    decreases |path|
  {
    if path != [] && r != v {
      if r.List? {
        assert r.items[path[0].index] == v.items[path[0].index];
      } else {
        LookupPruned(r.members, v.members, path[0].key);
        PrunedLeaves(Lookup(r.members, path[0].key).value, Lookup(v.members, path[0].key).value, path[1..]);
      }
    }
  }

  /** Every leaf of the result is the leaf at the same path of the input. */
  lemma CapKeepsLeaves(v: Json, max: nat, path: seq<Access>)
    requires At(Cap(v, max), path).Some? && At(Cap(v, max), path).value.Scalar?
    ensures At(v, path) == At(Cap(v, max), path)
  {
    CapPrunes(v, max);
    PrunedLeaves(Cap(v, max), v, path);
  }

  // ---- Capping again -----------------------------------------------------------------------

  lemma CapOfHead(xs: seq<Json>, max: nat)
    requires xs != [] && Size(List(xs[..1])) > max
    ensures Cap(List(xs[..1]), max) == List(xs[..1])
  {
    assert xs[..1] == [xs[0]];
    HugeElementSurvives(xs[0], max);
  }

  /** Capping a list twice is capping it once. */
  lemma CapListTwice(xs: seq<Json>, max: nat)
    ensures Cap(Cap(List(xs), max), max) == Cap(List(xs), max)
  {
    var l := Longest(ListSizes(xs), |xs|, max);
    if Size(List(xs)) > max && xs != [] {
      assert ListSizes(xs)(l) == Size(List(xs[..l]));
      if l == 0 {
        assert ListSizes(xs)(1) == Size(List(xs[..1]));
        CapOfHead(xs, max);
      }
    }
  }

  /** The one way a second application still changes something: the first member alone, capped inside, fits. */
  predicate CanShrinkAgain(v: Json, max: nat) {
    && v.Dict? && v.members != [] && Size(v) > max
    && Size(Dict(CapMembers(v.members, max))) > max
    && Size(Dict(v.members[..1])) > max
    && Size(Dict(CapMembers(v.members[..1], max))) <= max
  }

  lemma CapOfFirst(ms: seq<Member>, max: nat)
    requires ms != [] && Size(Dict(ms[..1])) > max
    ensures var c := Dict(CapMembers(ms[..1], max));
            Cap(Dict(ms[..1]), max) == if Size(c) <= max then c else Dict(ms[..1])
  {
    var l := Longest(DictSizes(ms[..1]), 1, max);
    assert ms[..1][..1] == ms[..1];
    assert DictSizes(ms[..1])(1) == Size(Dict(ms[..1]));
  }

  lemma CapDictShape(ms: seq<Member>, max: nat)
    requires Size(Dict(ms)) > max && Size(Dict(CapMembers(ms, max))) > max && ms != []
    ensures if Size(Dict(ms[..1])) > max then Cap(Dict(ms), max) == Dict(ms[..1]) else Size(Cap(Dict(ms), max)) <= max
  {
    var l := Longest(DictSizes(ms), |ms|, max);
    DictSizesGrow(ms);
    assert DictSizes(ms)(1) == Size(Dict(ms[..1]));
    assert DictSizes(ms)(l) == Size(Dict(ms[..l]));
  }

  /** Capping is idempotent except exactly in that case. */
  lemma CapTwiceIff(v: Json, max: nat)
    ensures Cap(Cap(v, max), max) == Cap(v, max) <==> !CanShrinkAgain(v, max)
  {
    match v
    case Scalar(_) =>
    case List(xs) => CapListTwice(xs, max);
    case Dict(ms) =>
      if Size(v) > max && ms != [] && Size(Dict(CapMembers(ms, max))) > max {
        CapDictShape(ms, max);
        if Size(Dict(ms[..1])) > max { CapOfFirst(ms, max); }
      }
  }

  /** Two applications always reach a fixed point. */
  lemma CapFixedAfterTwo(v: Json, max: nat)
    ensures Cap(Cap(Cap(v, max), max), max) == Cap(Cap(v, max), max)
  {
    CapTwiceIff(v, max);
    if CanShrinkAgain(v, max) {
      CapDictShape(v.members, max);
      CapOfFirst(v.members, max);
    }
  }

  lemma SmallSizes(x: Json, y: Json, m: Member)
    ensures Size(List([x])) == 2 + Size(x)
    ensures Size(List([x, y])) == 4 + Size(x) + Size(y)
    ensures Size(Dict([m])) == 4 + |m.key| + Size(m.value)
  {
    assert [x, y][..1] == [x];
    assert DumpItems([x]) == Dump(x);
    assert DumpItems([x, y]) == Dump(x) + ", " + Dump(y);
    assert DumpMembers([m]) == DumpMember(m) == m.key + ": " + Dump(m.value);
    assert Dump(List([x])) == "[" + DumpItems([x]) + "]";
    assert Dump(List([x, y])) == "[" + DumpItems([x, y]) + "]";
    assert Dump(Dict([m])) == "{" + DumpMembers([m]) + "}";
  }

  lemma CapOfPair(x: Json, y: Json, max: nat)
    requires Size(List([x])) <= max < Size(List([x, y]))
    ensures Cap(List([x, y]), max) == List([x])
  {
    var xs := [x, y];
    assert xs[..2] == xs && xs[..1] == [x];
    assert ListSizes(xs)(1) == Size(List([x])) && ListSizes(xs)(2) == Size(List(xs));
    assert Longest(ListSizes(xs), 2, max) == 1;
  }

  /** A long list beside a long scalar: the first application keeps the list whole, the second shortens it. */
  lemma TwiceIsNotOnce(x: Json, y: Json, a: Member, b: Member, max: nat)
    requires a.value == List([x, y]) && max == Size(Dict([Member(a.key, List([x]))]))
    requires Size(List([x, y])) > max && b.value.Scalar?
    ensures CanShrinkAgain(Dict([a, b]), max)
  {
    var ms := [a, b];
    SmallSizes(x, y, a);
    SmallSizes(x, y, Member(a.key, List([x])));
    CapOfPair(x, y, max);
    assert ms[..1] == [a] && ms[..2] == ms;
    DictGrows(ms, 1, 2);
    CapMembersAt([a], max, 0);
    assert CapMembers([a], max) == [Member(a.key, List([x]))];
    var cs := CapMembers(ms, max);
    CapMembersAt(ms, max, 0);
    assert cs[..2] == cs && cs[..1] == [Member(a.key, List([x]))];
    DumpMembersSnoc(cs, 2);
  }

  // ---- The methods ----------------------------------------------------------------------------

  /** The binary search `_cap` runs over the prefixes of a list or of the items of a dictionary. */
  method LongestPrefix(size: nat -> nat, n: nat, max: nat) returns (lo: nat)
    requires Growing(size, n)
    ensures lo == Longest(size, n, max)
  {
    var hi := n;
    lo := 0;
    while lo < hi
      invariant lo <= Longest(size, n, max) <= hi <= n
    {
      var mid := (lo + hi + 1) / 2;
      if size(mid) <= max {
        lo := mid;
      } else {
        hi := mid - 1;
      }
    }
  }

  /** `_cap`, with its loops. */
  method Truncate(v: Json, max: nat) returns (r: Json)
    ensures r == Cap(v, max)
    decreases v
  {
    if Size(v) <= max { return v; }
    match v
    case Scalar(_) => return v;
    case List(xs) =>
      ListSizesGrow(xs);
      var lo := LongestPrefix(ListSizes(xs), |xs|, max);
      return List(AtLeastOne(xs, lo));
    case Dict(ms) =>
      var truncated: seq<Member> := [];
      for i := 0 to |ms|
        invariant truncated == CapMembers(ms[..i], max)
      {
        assert ms[..i + 1][..i] == ms[..i];
        var m := ms[i];
        var c := m.value;
        if !m.value.Scalar? { c := Truncate(m.value, max); }
        truncated := truncated + [Member(m.key, c)];
      }
      assert ms[..|ms|] == ms;
      if Size(Dict(truncated)) <= max { return Dict(truncated); }
      DictSizesGrow(ms);
      var lo := LongestPrefix(DictSizes(ms), |ms|, max);
      return Dict(AtLeastOne(ms, lo));
  }
}
