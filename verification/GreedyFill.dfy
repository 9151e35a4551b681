/** Greedy filling in general: items go into the open group while it has room for them. */
module GreedyFill {

  /** The items of one group, and what it inherits from the group before it. */
  datatype Group<T> = Group(carry: T, items: seq<T>)

  function Add<T>(room: (Group<T>, T) -> bool, carry: Group<T> -> T, none: T, gs: seq<Group<T>>, x: T): seq<Group<T>> {
    if gs == [] then [Group(none, [x])]
    else
      var init, g := gs[..|gs| - 1], gs[|gs| - 1];
      if room(g, x) then init + [Group(g.carry, g.items + [x])] else gs + [Group(carry(g), [x])]
  }

  function Fill<T>(room: (Group<T>, T) -> bool, carry: Group<T> -> T, none: T, xs: seq<T>): seq<Group<T>> {
    if xs == [] then [] else Add(room, carry, none, Fill(room, carry, none, xs[..|xs| - 1]), xs[|xs| - 1])
  }

  /** The group before it: all but the last item. */
  function Shorter<T>(g: Group<T>): Group<T>
    requires g.items != []
  {
    Group(g.carry, g.items[..|g.items| - 1])
  }

  /** Every item after the first was added to a group that had room for it. */
  ghost predicate Roomy<T>(room: (Group<T>, T) -> bool, g: Group<T>)
    decreases |g.items|
  {
    && g.items != []
    && (|g.items| > 1 ==> room(Shorter(g), g.items[|g.items| - 1]) && Roomy(room, Shorter(g)))
  }

  /** `g` may come after `gs`: it inherits from the last of them, which had no room for its first item. */
  ghost predicate Follows<T>(room: (Group<T>, T) -> bool, carry: Group<T> -> T, none: T, gs: seq<Group<T>>, g: Group<T>)
    requires g.items != []
  {
    if gs == [] then g.carry == none
    else g.carry == carry(gs[|gs| - 1]) && !room(gs[|gs| - 1], g.items[0])
  }

  /** The groups split `xs` into consecutive non-empty parts, none of which could have been longer. */
  ghost predicate Greedy<T>(room: (Group<T>, T) -> bool, carry: Group<T> -> T, none: T, gs: seq<Group<T>>, xs: seq<T>)
    decreases |gs|
  {
    if gs == [] then xs == []
    else
      var init, g := gs[..|gs| - 1], gs[|gs| - 1];
      && g.items != [] && |g.items| <= |xs|
      && g.items == xs[|xs| - |g.items|..]
      && Roomy(room, g)
      && Follows(room, carry, none, init, g)
      && Greedy(room, carry, none, init, xs[..|xs| - |g.items|])
  }

  lemma GreedySnoc<T>(room: (Group<T>, T) -> bool, carry: Group<T> -> T, none: T,
                      init: seq<Group<T>>, g: Group<T>, xs: seq<T>)
    requires Greedy(room, carry, none, init, xs)
    requires Roomy(room, g) && Follows(room, carry, none, init, g)
    ensures Greedy(room, carry, none, init + [g], xs + g.items)
  {
    assert (init + [g])[..|init|] == init;
    var ys := xs + g.items;
    assert ys[|ys| - |g.items|..] == g.items && ys[..|ys| - |g.items|] == xs;
  }

  lemma ExtendIsGreedy<T>(room: (Group<T>, T) -> bool, carry: Group<T> -> T, none: T,
                          gs: seq<Group<T>>, xs: seq<T>, x: T)
    requires Greedy(room, carry, none, gs, xs) && gs != [] && room(gs[|gs| - 1], x)
    ensures Greedy(room, carry, none, Add(room, carry, none, gs, x), xs + [x])
  {
    var init, g := gs[..|gs| - 1], gs[|gs| - 1];
    var h, ys := Group(g.carry, g.items + [x]), xs[..|xs| - |g.items|];
    assert Shorter(h) == g;
    GreedySnoc(room, carry, none, init, h, ys);
    assert ys + h.items == xs + [x];
  }

  lemma AddIsGreedy<T>(room: (Group<T>, T) -> bool, carry: Group<T> -> T, none: T, gs: seq<Group<T>>, xs: seq<T>, x: T)
    requires Greedy(room, carry, none, gs, xs)
    ensures Greedy(room, carry, none, Add(room, carry, none, gs, x), xs + [x])
  {
    if gs == [] {
      GreedySnoc(room, carry, none, [], Group(none, [x]), []);
      assert [] + [Group(none, [x])] == [Group(none, [x])];
    } else if room(gs[|gs| - 1], x) {
      ExtendIsGreedy(room, carry, none, gs, xs, x);
    } else {
      GreedySnoc(room, carry, none, gs, Group(carry(gs[|gs| - 1]), [x]), xs);
    }
  }

  lemma {:induction false} FillIsGreedy<T>(room: (Group<T>, T) -> bool, carry: Group<T> -> T, none: T, xs: seq<T>)
    ensures Greedy(room, carry, none, Fill(room, carry, none, xs), xs)
  {
    if xs != [] {
      FillIsGreedy(room, carry, none, xs[..|xs| - 1]);
      AddIsGreedy(room, carry, none, Fill(room, carry, none, xs[..|xs| - 1]), xs[..|xs| - 1], xs[|xs| - 1]);
      assert xs == xs[..|xs| - 1] + [xs[|xs| - 1]];
    }
  }

  /** Removing the last item of a greedy filling and adding it again. */
  lemma DropItem<T>(room: (Group<T>, T) -> bool, carry: Group<T> -> T, none: T, gs: seq<Group<T>>, xs: seq<T>)
      returns (hs: seq<Group<T>>)
    requires Greedy(room, carry, none, gs, xs) && gs != []
    ensures xs != []
    ensures Greedy(room, carry, none, hs, xs[..|xs| - 1])
    ensures Add(room, carry, none, hs, xs[|xs| - 1]) == gs
  {
    var init, g := gs[..|gs| - 1], gs[|gs| - 1];
    var x, ys := g.items[|g.items| - 1], xs[..|xs| - |g.items|];
    assert gs == init + [g];
    if |g.items| == 1 {
      hs := init;
      assert ys == xs[..|xs| - 1] && g.items == [x];
    } else {
      var h := Shorter(g);
      hs := init + [h];
      GreedySnoc(room, carry, none, init, h, ys);
      assert ys + h.items == xs[..|xs| - 1];
      assert g.items == h.items + [x];
      assert hs[..|init|] == init;
    }
  }

  /** Greedy filling has exactly one outcome, and `Fill` computes it. */
  lemma {:induction false} GreedyIffFill<T>(room: (Group<T>, T) -> bool, carry: Group<T> -> T, none: T,
                                            gs: seq<Group<T>>, xs: seq<T>)
    ensures Greedy(room, carry, none, gs, xs) <==> gs == Fill(room, carry, none, xs)
    decreases |xs|
  {
    FillIsGreedy(room, carry, none, xs);
    if Greedy(room, carry, none, gs, xs) && gs != [] {
      var hs := DropItem(room, carry, none, gs, xs);
      GreedyIffFill(room, carry, none, hs, xs[..|xs| - 1]);
    }
  }

  // ---- What greedy filling means, group by group -------------------------------

  /** The items of the groups, one group after the other, are `xs`. */
  ghost predicate Parts<T>(gs: seq<Group<T>>, xs: seq<T>)
    decreases |gs|
  {
    if gs == [] then xs == []
    else
      var g := gs[|gs| - 1];
      && g.items != [] && |g.items| <= |xs|
      && g.items == xs[|xs| - |g.items|..]
      && Parts(gs[..|gs| - 1], xs[..|xs| - |g.items|])
  }

  lemma {:induction false} GreedyParts<T>(room: (Group<T>, T) -> bool, carry: Group<T> -> T, none: T,
                                          gs: seq<Group<T>>, xs: seq<T>)
    requires Greedy(room, carry, none, gs, xs)
    ensures Parts(gs, xs)
  {
    if gs != [] { GreedyParts(room, carry, none, gs[..|gs| - 1], xs[..|xs| - |gs[|gs| - 1].items|]); }
  }

  lemma {:induction false} GreedyAt<T>(room: (Group<T>, T) -> bool, carry: Group<T> -> T, none: T,
                                       gs: seq<Group<T>>, xs: seq<T>, i: nat)
    requires Greedy(room, carry, none, gs, xs) && i < |gs|
    ensures Roomy(room, gs[i])
    ensures i == 0 ==> gs[i].carry == none
    ensures i > 0 ==> gs[i].carry == carry(gs[i - 1]) && !room(gs[i - 1], gs[i].items[0])
  {
    var init := gs[..|gs| - 1];
    if i < |init| {
      GreedyAt(room, carry, none, init, xs[..|xs| - |gs[|gs| - 1].items|], i);
    }
  }

  /** Every item of a group is one of `xs`. */
  lemma {:induction false} ItemOfParts<T>(gs: seq<Group<T>>, xs: seq<T>, i: nat, k: nat) returns (j: nat)
    requires Parts(gs, xs) && i < |gs| && k < |gs[i].items|
    ensures j < |xs| && xs[j] == gs[i].items[k]
  {
    var n := |xs| - |gs[|gs| - 1].items|;
    if i == |gs| - 1 {
      j := n + k;
    } else {
      j := ItemOfParts(gs[..|gs| - 1], xs[..n], i, k);
    }
  }

  /** Every one of `xs` is an item of a group. */
  lemma {:induction false} GroupOfItem<T>(gs: seq<Group<T>>, xs: seq<T>, j: nat) returns (i: nat, k: nat)
    requires Parts(gs, xs) && j < |xs|
    ensures i < |gs| && k < |gs[i].items| && gs[i].items[k] == xs[j]
  {
    var n := |xs| - |gs[|gs| - 1].items|;
    if j >= n {
      i, k := |gs| - 1, j - n;
    } else {
      i, k := GroupOfItem(gs[..|gs| - 1], xs[..n], j);
    }
  }
}
