/** `_para_chunks`: greedy filling of paragraphs into bounded chunks with an overlap carry. */
module ParagraphFiller {
  import opened Text
  import opened GreedyFill

  datatype Limits = Limits(maxChars: nat, overlap: nat)

  /** MAX_CHARS and OVERLAP; the program uses 1200 and 150. */
  type ChunkLimits = l: Limits | 0 < l.overlap && l.overlap + 2 < l.maxChars witness Limits(1200, 150)

  datatype Chunk = Chunk(docId: string, chunkId: nat, content: string, sectionPath: string)

  function ChunkTexts(chunks: seq<Chunk>): seq<string> {
    seq(|chunks|, i requires 0 <= i < |chunks| => chunks[i].content)
  }

  /** The chunks of one section, numbered from `start`. */
  function Numbered(docId: string, start: nat, path: string, contents: seq<string>): (chunks: seq<Chunk>)
    ensures |chunks| == |contents|
    ensures forall i :: 0 <= i < |chunks| ==> chunks[i] == Chunk(docId, start + i, contents[i], path)
  {
    if contents == [] then []
    else Numbered(docId, start, path, contents[..|contents| - 1])
         + [Chunk(docId, start + |contents| - 1, contents[|contents| - 1], path)]
  }

  // ---- Groups: what the loop builds ----------------------------------------

  /** The paragraphs of one chunk after the text carried over from the chunk before it. */
  type ParaGroup = Group<string>

  function Full(g: ParaGroup): string {
    CarryHead(g.carry) + Join(BLANK_LINE, g.items)
  }

  function Clip(lim: ChunkLimits, s: string): string {
    if |s| > lim.maxChars then s[..lim.maxChars] else s
  }

  function Render(lim: ChunkLimits, g: ParaGroup): string {
    Clip(lim, Full(g))
  }

  function Renders(lim: ChunkLimits, gs: seq<ParaGroup>): seq<string> {
    seq(|gs|, i requires 0 <= i < |gs| => Render(lim, gs[i]))
  }

  function Tail(lim: ChunkLimits, p: string): string {
    if |p| > lim.overlap then p[|p| - lim.overlap..] else p
  }

  function StripLeft(s: string): string {
    s[SkipSpace(s, 0)..]
  }

  /** The overlap text of a finished buffer: the tail of its last paragraph. */
  function CarryText(lim: ChunkLimits, buf: string): string {
    var ps := Paragraphs(buf);
    if ps == [] then "" else Tail(lim, ps[|ps| - 1])
  }

  /** What is left of it at the start of the next chunk, which is stripped. */
  function CarryFrom(lim: ChunkLimits, buf: string): string {
    StripLeft(CarryText(lim, buf))
  }

  predicate Fits(lim: ChunkLimits, buf: string, p: string) {
    |buf| + |p| + 2 <= lim.maxChars
  }

  function Room(lim: ChunkLimits): (ParaGroup, string) -> bool {
    (g: ParaGroup, p: string) => Fits(lim, Render(lim, g), p)
  }

  function Carry(lim: ChunkLimits): ParaGroup -> string {
    (g: ParaGroup) => CarryFrom(lim, Render(lim, g))
  }

  function Groups(lim: ChunkLimits, ps: seq<string>): seq<ParaGroup> {
    Fill(Room(lim), Carry(lim), "", ps)
  }

  /** The texts of the chunks of `content`. */
  function Pieces(lim: ChunkLimits, content: string): seq<string> {
    Renders(lim, Groups(lim, Paragraphs(content)))
  }

  ghost predicate GreedyGroups(lim: ChunkLimits, gs: seq<ParaGroup>, ps: seq<string>) {
    Greedy(Room(lim), Carry(lim), "", gs, ps)
  }

  // ---- One group -----------------------------------------------------------

  predicate GoodGroup(lim: ChunkLimits, g: ParaGroup) {
    && (g.carry != "" ==> Clean(g.carry) && |g.carry| <= lim.overlap)
    && g.items != [] && AllClean(g.items)
    && (|g.items| > 1 ==> |Full(g)| <= lim.maxChars)
  }

  function CarrySeq(c: string): seq<string> {
    if c == "" then [] else [c]
  }

  function CarryHead(c: string): string {
    if c == "" then "" else c + BLANK_LINE
  }

  lemma FullSnoc(g: ParaGroup, p: string)
    requires g.items != []
    ensures Full(Group(g.carry, g.items + [p])) == Full(g) + BLANK_LINE + p
  {
    JoinSnoc(BLANK_LINE, g.items, p);
  }

  lemma ParagraphsAfterCarry(c: string, q: string)
    requires c != "" ==> Clean(c)
    requires q != "" && !IsSpace(q[0])
    ensures Paragraphs(CarryHead(c) + q) == CarrySeq(c) + Paragraphs(q)
  {
    if c == "" {
      assert "" + q == q;
    } else {
      ParagraphsConcat(c, q);
      ParagraphsOfUnbroken(c);
      StripFacts(c);
    }
  }

  lemma ParagraphsOfFull(g: ParaGroup)
    requires g.carry != "" ==> Clean(g.carry)
    requires g.items != [] && AllClean(g.items)
    ensures Paragraphs(Full(g)) == CarrySeq(g.carry) + g.items
    ensures Full(g) != "" && !IsSpace(Full(g)[0])
  {
    ParagraphsOfJoin(g.items);
    ParagraphsAfterCarry(g.carry, Join(BLANK_LINE, g.items));
  }

  /** What clipping leaves of the last paragraph of a group. */
  function Survivor(lim: ChunkLimits, g: ParaGroup): string
    requires GoodGroup(lim, g)
  {
    var p := g.items[|g.items| - 1];
    if |Full(g)| <= lim.maxChars then p else Strip(p[..|p| - (|Full(g)| - lim.maxChars)])
  }

  lemma CleanPrefix(p: string, n: nat)
    requires Clean(p) && 0 < n <= |p|
    ensures Paragraphs(p[..n]) == [Strip(p[..n])] && Clean(Strip(p[..n])) && |Strip(p[..n])| <= n
  {
    forall i | 0 <= i < n ensures !BreakAt(p[..n], i) { assert !BreakAt(p, i); }
    StripFacts(p[..n]);
    assert p[..n][0] == p[0];
    NonblankClean(p[..n]);
    ParagraphsOfUnbroken(p[..n]);
    assert Clean(Nonblank(p[..n])[0]);
  }

  lemma RenderClipped(lim: ChunkLimits, g: ParaGroup)
    requires |g.items| == 1 && |g.carry| <= lim.overlap && |Full(g)| > lim.maxChars
    ensures var n := |g.items[0]| - (|Full(g)| - lim.maxChars);
            && lim.maxChars - lim.overlap - 2 <= n < |g.items[0]|
            && Render(lim, g) == CarryHead(g.carry) + g.items[0][..n]
  {
    var p := g.items[0];
    assert Join(BLANK_LINE, g.items) == p;
  }

  lemma SurvivorOfClipped(lim: ChunkLimits, g: ParaGroup)
    requires GoodGroup(lim, g) && |Full(g)| > lim.maxChars
    ensures var n := |g.items[0]| - (|Full(g)| - lim.maxChars);
            0 < n < |g.items[0]| && Survivor(lim, g) == Strip(g.items[0][..n])
  {
    RenderClipped(lim, g);
  }

  lemma PrefixAfterCarry(c: string, p: string, n: nat, text: string, v: string)
    requires (c != "" ==> Clean(c)) && Clean(p) && 0 < n < |p|
    requires text == CarryHead(c) + p[..n] && v == Strip(p[..n])
    ensures Paragraphs(text) == CarrySeq(c) + [v] && Clean(v) && |v| < |p|
  {
    CleanPrefix(p, n);
    assert p[..n][0] == p[0];
    ParagraphsAfterCarry(c, p[..n]);
  }

  lemma ParagraphsOfClipped(lim: ChunkLimits, g: ParaGroup, text: string, v: string)
    requires GoodGroup(lim, g) && |Full(g)| > lim.maxChars
    requires text == Render(lim, g) && v == Survivor(lim, g)
    ensures Paragraphs(text) == CarrySeq(g.carry) + [v] && Clean(v) && |v| < |g.items[0]|
  {
    RenderClipped(lim, g);
    SurvivorOfClipped(lim, g);
    PrefixAfterCarry(g.carry, g.items[0], |g.items[0]| - (|Full(g)| - lim.maxChars), text, v);
  }

  /** The paragraphs of a group when `v` is what is left of the last one. */
  function Own(g: ParaGroup, v: string): seq<string>
    requires g.items != []
  {
    g.items[..|g.items| - 1] + [v]
  }

  lemma OwnFacts(g: ParaGroup, v: string)
    requires g.items != []
    ensures Own(g, v) == g.items <==> v == g.items[|g.items| - 1]
    ensures |g.items| == 1 ==> Own(g, v) == [v]
  {
    assert Own(g, v)[|g.items| - 1] == v;
  }

  lemma SurvivorIntact(lim: ChunkLimits, g: ParaGroup, v: string)
    requires GoodGroup(lim, g) && v == Survivor(lim, g)
    ensures v == g.items[|g.items| - 1] <==> |Full(g)| <= lim.maxChars
    ensures Clean(v)
  {
    if |Full(g)| > lim.maxChars { ParagraphsOfClipped(lim, g, Render(lim, g), v); }
  }

  /** Splitting a chunk again gives its carry, its own paragraphs, and what survived of the last one. */
  lemma ParagraphsOfRender(lim: ChunkLimits, g: ParaGroup, text: string, v: string)
    requires GoodGroup(lim, g) && text == Render(lim, g) && v == Survivor(lim, g)
    ensures Paragraphs(text) == CarrySeq(g.carry) + Own(g, v)
  {
    OwnFacts(g, v);
    if |Full(g)| <= lim.maxChars {
      ParagraphsOfFull(g);
    } else {
      ParagraphsOfClipped(lim, g, text, v);
    }
  }

  /** `c` is the last `n` characters of `s`, or all of it, without the white space they start with. */
  predicate IsTail(c: string, s: string, n: nat) {
    && 0 < |c| <= n && |c| <= |s| && c == s[|s| - |c|..] && !IsSpace(c[0])
    && forall i :: 0 <= i < |s| - |c| && |s| - n <= i ==> IsSpace(s[i])
  }

  lemma TailOfClean(lim: ChunkLimits, s: string)
    requires Clean(s)
    ensures var c := StripLeft(Tail(lim, s)); Clean(c) && IsTail(c, s, lim.overlap) && (|s| <= lim.overlap ==> c == s)
  {
    var t := Tail(lim, s);
    SkipSpaceFacts(t, 0);
    assert t[|t| - 1] == s[|s| - 1];
    var c := StripLeft(t);
    assert c == s[|s| - |c|..];
    forall i | 0 <= i < |c| ensures !BreakAt(c, i) { assert !BreakAt(s, |s| - |c| + i); }
  }

  lemma CarryIs(lim: ChunkLimits, g: ParaGroup)
    requires GoodGroup(lim, g)
    ensures CarryText(lim, Render(lim, g)) == Tail(lim, Survivor(lim, g))
    ensures Clean(Survivor(lim, g))
  {
    var v := Survivor(lim, g);
    ParagraphsOfRender(lim, g, Render(lim, g), v);
    SurvivorIntact(lim, g, v);
    LastOfAppend(CarrySeq(g.carry), Own(g, v));
  }

  lemma LastOfAppend<T>(a: seq<T>, b: seq<T>)
    requires b != []
    ensures a + b != [] && (a + b)[|a + b| - 1] == b[|b| - 1]
  {}

  /** The carry is a tail, of at most OVERLAP characters, of what the chunk before it kept last. */
  lemma CarryIsTail(lim: ChunkLimits, g: ParaGroup)
    requires GoodGroup(lim, g)
    ensures Clean(Carry(lim)(g)) && IsTail(Carry(lim)(g), Survivor(lim, g), lim.overlap)
    ensures |Survivor(lim, g)| <= lim.overlap ==> Carry(lim)(g) == Survivor(lim, g)
  {
    CarryIs(lim, g);
    TailOfClean(lim, Survivor(lim, g));
  }

  // ---- All groups ----------------------------------------------------------

  lemma RoomyIsBounded(lim: ChunkLimits, g: ParaGroup)
    requires Roomy(Room(lim), g) && |g.items| > 1
    ensures |Full(g)| <= lim.maxChars
  {
    FullSnoc(Shorter(g), g.items[|g.items| - 1]);
    assert g == Group(g.carry, Shorter(g).items + [g.items[|g.items| - 1]]);
  }

  /** What each group of a greedy grouping of clean paragraphs looks like. */
  ghost predicate ShapeAt(lim: ChunkLimits, gs: seq<ParaGroup>, i: nat)
    requires i < |gs|
  {
    && GoodGroup(lim, gs[i])
    && (i == 0 ==> gs[i].carry == "")
    && (i > 0 ==> GoodGroup(lim, gs[i - 1]) && Linked(lim, gs[i - 1], gs[i]))
  }

  /** `next` starts with a tail of what `g` kept last, and `g` had no room for its first paragraph. */
  ghost predicate Linked(lim: ChunkLimits, g: ParaGroup, next: ParaGroup)
    requires GoodGroup(lim, g) && GoodGroup(lim, next)
  {
    && IsTail(next.carry, Survivor(lim, g), lim.overlap)
    && !Fits(lim, Render(lim, g), next.items[0])
  }

  ghost predicate Shape(lim: ChunkLimits, gs: seq<ParaGroup>) {
    forall i :: 0 <= i < |gs| ==> ShapeAt(lim, gs, i)
  }

  /** `GreedyAt` and `RoomyIsBounded`, in terms of the chunk texts. */
  lemma GroupAt(lim: ChunkLimits, gs: seq<ParaGroup>, ps: seq<string>, i: nat)
    requires GreedyGroups(lim, gs, ps) && i < |gs|
    ensures gs[i].items != [] && (|gs[i].items| > 1 ==> |Full(gs[i])| <= lim.maxChars)
    ensures i == 0 ==> gs[i].carry == ""
    ensures i > 0 ==> gs[i].carry == Carry(lim)(gs[i - 1]) && !Fits(lim, Render(lim, gs[i - 1]), gs[i].items[0])
  {
    GreedyAt(Room(lim), Carry(lim), "", gs, ps, i);
    if |gs[i].items| > 1 { RoomyIsBounded(lim, gs[i]); }
  }

  lemma ItemsClean(gs: seq<ParaGroup>, ps: seq<string>, i: nat)
    requires Parts(gs, ps) && AllClean(ps) && i < |gs|
    ensures AllClean(gs[i].items)
  {
    forall k | 0 <= k < |gs[i].items| ensures Clean(gs[i].items[k]) {
      var j := ItemOfParts(gs, ps, i, k);
    }
  }

  lemma LinkHolds(lim: ChunkLimits, g: ParaGroup, h: ParaGroup)
    requires GoodGroup(lim, g) && h.carry == Carry(lim)(g)
    requires h.items != [] && AllClean(h.items) && (|h.items| > 1 ==> |Full(h)| <= lim.maxChars)
    requires !Fits(lim, Render(lim, g), h.items[0])
    ensures GoodGroup(lim, h) && Linked(lim, g, h)
  {
    CarryIsTail(lim, g);
  }

  /** What `GreedyAt` says about one group, its paragraphs being clean. */
  ghost predicate RawGroup(lim: ChunkLimits, g: ParaGroup) {
    g.items != [] && AllClean(g.items) && (|g.items| > 1 ==> |Full(g)| <= lim.maxChars)
  }

  ghost predicate RawLink(lim: ChunkLimits, g: ParaGroup, h: ParaGroup) {
    h.items != [] && h.carry == Carry(lim)(g) && !Fits(lim, Render(lim, g), h.items[0])
  }

  lemma {:induction false} ShapeFromRaw(lim: ChunkLimits, gs: seq<ParaGroup>, i: nat)
    requires i < |gs| && gs[0].carry == ""
    requires forall k :: 0 <= k < |gs| ==> RawGroup(lim, gs[k])
    requires forall k :: 0 < k < |gs| ==> RawLink(lim, gs[k - 1], gs[k])
    ensures ShapeAt(lim, gs, i)
  {
    assert RawGroup(lim, gs[i]);
    if i > 0 {
      ShapeFromRaw(lim, gs, i - 1);
      assert RawLink(lim, gs[i - 1], gs[i]);
      LinkHolds(lim, gs[i - 1], gs[i]);
    }
  }

  lemma GroupsShape(lim: ChunkLimits, gs: seq<ParaGroup>, ps: seq<string>)
    requires GreedyGroups(lim, gs, ps) && AllClean(ps)
    ensures Shape(lim, gs) && Parts(gs, ps)
  {
    GreedyParts(Room(lim), Carry(lim), "", gs, ps);
    forall k | 0 <= k < |gs| ensures RawGroup(lim, gs[k]) { GroupAt(lim, gs, ps, k); ItemsClean(gs, ps, k); }
    forall k | 0 < k < |gs| ensures RawLink(lim, gs[k - 1], gs[k]) { GroupAt(lim, gs, ps, k); }
    forall i | 0 <= i < |gs| ensures ShapeAt(lim, gs, i) { GroupAt(lim, gs, ps, 0); ShapeFromRaw(lim, gs, i); }
  }

  // ---- Main results ----------------------------------------------------------

  lemma RenderStart(lim: ChunkLimits, g: ParaGroup)
    requires GoodGroup(lim, g)
    ensures 0 < |Render(lim, g)| <= lim.maxChars && !IsSpace(Render(lim, g)[0])
  {
    ParagraphsOfFull(g);
  }

  lemma ShapeBounds(lim: ChunkLimits, gs: seq<ParaGroup>, i: nat)
    requires Shape(lim, gs) && i < |gs|
    ensures 0 < |Render(lim, gs[i])| <= lim.maxChars && !IsSpace(Render(lim, gs[i])[0])
  {
    assert ShapeAt(lim, gs, i);
    RenderStart(lim, gs[i]);
  }

  /** The paragraphs of the chunk texts, without the overlap paragraph at the start of all but the first. */
  function Unlapped(texts: seq<string>): seq<string> {
    if texts == [] then []
    else
      var ps := Paragraphs(texts[|texts| - 1]);
      Unlapped(texts[..|texts| - 1]) + if |texts| == 1 || ps == [] then ps else ps[1..]
  }

  ghost predicate NothingClipped(lim: ChunkLimits, gs: seq<ParaGroup>) {
    forall i :: 0 <= i < |gs| ==> |Full(gs[i])| <= lim.maxChars
  }

  lemma RendersSnoc(lim: ChunkLimits, init: seq<ParaGroup>, g: ParaGroup)
    ensures Renders(lim, init + [g]) == Renders(lim, init) + [Render(lim, g)]
  {}

  /** What one chunk adds to `Unlapped`. */
  lemma UnlappedSnoc(lim: ChunkLimits, init: seq<ParaGroup>, g: ParaGroup)
    requires GoodGroup(lim, g) && (init == [] <==> g.carry == "")
    ensures Unlapped(Renders(lim, init + [g])) == Unlapped(Renders(lim, init)) + Own(g, Survivor(lim, g))
  {
    RendersSnoc(lim, init, g);
    var ts, t := Renders(lim, init), Render(lim, g);
    assert (ts + [t])[..|ts|] == ts;
    ParagraphsOfRender(lim, g, t, Survivor(lim, g));
    assert g.carry != "" ==> Paragraphs(t)[1..] == Own(g, Survivor(lim, g));
    assert |ts| == |init|;
  }

  lemma UnlapStep(lim: ChunkLimits, init: seq<ParaGroup>, g: ParaGroup, qs: seq<string>)
    requires GoodGroup(lim, g) && (init == [] <==> g.carry == "")
    requires |Unlapped(Renders(lim, init))| == |qs|
    requires Unlapped(Renders(lim, init)) == qs <==> NothingClipped(lim, init)
    ensures |Unlapped(Renders(lim, init + [g]))| == |qs + g.items|
    ensures Unlapped(Renders(lim, init + [g])) == qs + g.items <==> NothingClipped(lim, init + [g])
  {
    UnlappedSnoc(lim, init, g);
    OwnIntact(lim, g);
    AppendInjective(Unlapped(Renders(lim, init)), Own(g, Survivor(lim, g)), qs, g.items);
    NothingClippedSnoc(lim, init, g);
  }

  /** Stripping the overlaps gives the paragraphs back, in full exactly when no group was clipped. */
  lemma {:induction false} UnlapGroups(lim: ChunkLimits, gs: seq<ParaGroup>, ps: seq<string>)
    requires Parts(gs, ps) && Shape(lim, gs)
    ensures |Unlapped(Renders(lim, gs))| == |ps|
    ensures Unlapped(Renders(lim, gs)) == ps <==> NothingClipped(lim, gs)
  {
    if gs != [] {
      var init, g, qs := UnsnocParts(gs, ps);
      assert ShapeAt(lim, gs, |gs| - 1);
      ShapePrefix(lim, init, g);
      UnlapGroups(lim, init, qs);
      UnlapStep(lim, init, g, qs);
    }
  }

  lemma UnsnocParts(gs: seq<ParaGroup>, ps: seq<string>) returns (init: seq<ParaGroup>, g: ParaGroup, qs: seq<string>)
    requires Parts(gs, ps) && gs != []
    ensures gs == init + [g] && ps == qs + g.items && Parts(init, qs)
  {
    init, g := gs[..|gs| - 1], gs[|gs| - 1];
    qs := ps[..|ps| - |g.items|];
  }

  lemma ShapePrefix(lim: ChunkLimits, init: seq<ParaGroup>, g: ParaGroup)
    requires Shape(lim, init + [g])
    ensures Shape(lim, init)
  {
    forall i | 0 <= i < |init| ensures ShapeAt(lim, init, i) { assert ShapeAt(lim, init + [g], i); }
  }

  lemma OwnIntact(lim: ChunkLimits, g: ParaGroup)
    requires GoodGroup(lim, g)
    ensures Own(g, Survivor(lim, g)) == g.items <==> |Full(g)| <= lim.maxChars
  {
    SurvivorIntact(lim, g, Survivor(lim, g));
    OwnFacts(g, Survivor(lim, g));
  }

  lemma NothingClippedSnoc(lim: ChunkLimits, init: seq<ParaGroup>, g: ParaGroup)
    ensures NothingClipped(lim, init + [g]) <==> NothingClipped(lim, init) && |Full(g)| <= lim.maxChars
  {
    assert forall i :: 0 <= i < |init| ==> (init + [g])[i] == init[i];
    assert (init + [g])[|init|] == g;
  }

  lemma AppendInjective<T>(a: seq<T>, b: seq<T>, c: seq<T>, d: seq<T>)
    requires |a| == |c| && |b| == |d|
    ensures a + b == c + d <==> a == c && b == d
  {
    assert (a + b)[..|a|] == a && (a + b)[|a|..] == b;
    assert (c + d)[..|c|] == c && (c + d)[|c|..] == d;
  }

  /** Splitting, filling and clipping, characterised: the chunk texts are the one greedy grouping of the paragraphs. */
  lemma PiecesAreGreedy(lim: ChunkLimits, content: string, gs: seq<ParaGroup>)
    ensures GreedyGroups(lim, gs, Paragraphs(content)) <==> gs == Groups(lim, Paragraphs(content))
    ensures GreedyGroups(lim, gs, Paragraphs(content)) ==>
              Pieces(lim, content) == Renders(lim, gs) && Shape(lim, gs) && Parts(gs, Paragraphs(content))
  {
    GreedyIffFill(Room(lim), Carry(lim), "", gs, Paragraphs(content));
    if GreedyGroups(lim, gs, Paragraphs(content)) {
      ParagraphsClean(content);
      GroupsShape(lim, gs, Paragraphs(content));
    }
  }

  /** The overlap-free text is recovered exactly when the truncation branch never fires. */
  lemma PiecesLosslessIff(lim: ChunkLimits, content: string)
    ensures Unlapped(Pieces(lim, content)) == Paragraphs(content)
       <==> NothingClipped(lim, Groups(lim, Paragraphs(content)))
  {
    var gs := Groups(lim, Paragraphs(content));
    PiecesAreGreedy(lim, content, gs);
    UnlapGroups(lim, gs, Paragraphs(content));
  }

  predicate AtMost(ps: seq<string>, n: nat) {
    forall i :: 0 <= i < |ps| ==> |ps[i]| <= n
  }

  /** A paragraph of `n` characters fits a chunk even behind the overlap that another one of that length leaves. */
  predicate SafeLength(lim: ChunkLimits, n: nat) {
    n + (if n <= lim.overlap then n else lim.overlap) + 2 <= lim.maxChars
  }

  lemma SurvivorIsShorter(lim: ChunkLimits, g: ParaGroup)
    requires GoodGroup(lim, g)
    ensures |Survivor(lim, g)| <= |g.items[|g.items| - 1]|
  {
    if |Full(g)| > lim.maxChars { ParagraphsOfClipped(lim, g, Render(lim, g), Survivor(lim, g)); }
  }

  lemma CarryBound(lim: ChunkLimits, gs: seq<ParaGroup>, ps: seq<string>, i: nat, n: nat)
    requires Parts(gs, ps) && Shape(lim, gs) && AtMost(ps, n) && i < |gs|
    ensures |gs[i].carry| <= n && |gs[i].carry| <= lim.overlap
  {
    assert ShapeAt(lim, gs, i);
    if i > 0 {
      var g := gs[i - 1];
      SurvivorIsShorter(lim, g);
      var j := ItemOfParts(gs, ps, i - 1, |g.items| - 1);
    }
  }

  lemma SingleFits(lim: ChunkLimits, g: ParaGroup, n: nat)
    requires |g.items| == 1 && |g.items[0]| <= n && SafeLength(lim, n)
    requires |g.carry| <= n && |g.carry| <= lim.overlap
    ensures |Full(g)| <= lim.maxChars
  {
    assert Join(BLANK_LINE, g.items) == g.items[0];
  }

  lemma SafeNeverClips(lim: ChunkLimits, gs: seq<ParaGroup>, ps: seq<string>, n: nat)
    requires Parts(gs, ps) && Shape(lim, gs) && AtMost(ps, n) && SafeLength(lim, n)
    ensures NothingClipped(lim, gs)
  {
    forall i | 0 <= i < |gs| ensures |Full(gs[i])| <= lim.maxChars {
      assert ShapeAt(lim, gs, i);
      if |gs[i].items| == 1 {
        var j := ItemOfParts(gs, ps, i, 0);
        CarryBound(lim, gs, ps, i, n);
        SingleFits(lim, gs[i], n);
      }
    }
  }

  lemma SafeParagraphsLossless(lim: ChunkLimits, content: string, n: nat)
    requires AtMost(Paragraphs(content), n) && SafeLength(lim, n)
    ensures Unlapped(Pieces(lim, content)) == Paragraphs(content)
  {
    var gs := Groups(lim, Paragraphs(content));
    PiecesAreGreedy(lim, content, gs);
    PiecesLosslessIff(lim, content);
    SafeNeverClips(lim, gs, Paragraphs(content), n);
  }

  predicate Small(lim: ChunkLimits, ps: seq<string>) {
    AtMost(ps, lim.maxChars - lim.overlap - 2)
  }

  /** Paragraphs of at most MAX_CHARS - OVERLAP - 2 characters all come back once the overlaps are stripped. */
  lemma SmallParagraphsLossless(lim: ChunkLimits, content: string)
    requires Small(lim, Paragraphs(content))
    ensures Unlapped(Pieces(lim, content)) == Paragraphs(content)
  {
    SafeParagraphsLossless(lim, content, lim.maxChars - lim.overlap - 2);
  }

  lemma CarryOfWord(lim: ChunkLimits, p: string)
    requires Clean(p) && NoSpace(p)
    ensures CarryFrom(lim, p) == Tail(lim, p)
  {
    ParagraphsOfUnbroken(p);
    StripFacts(p);
    var t := Tail(lim, p);
    assert t[0] == p[|p| - |t|];
  }

  lemma SecondOverflows(lim: ChunkLimits, p: string, q: string, n: nat)
    requires Clean(p) && NoSpace(p) && |p| == |q| == n && !SafeLength(lim, n) && n <= lim.maxChars
    ensures Render(lim, Group("", [p])) == p && !Fits(lim, p, q)
    ensures |Full(Group(CarryFrom(lim, p), [q]))| > lim.maxChars
  {
    assert Full(Group("", [p])) == p;
    CarryOfWord(lim, p);
    assert Join(BLANK_LINE, [q]) == q;
  }

  lemma GroupsOfTwo(lim: ChunkLimits, p: string, q: string)
    requires !Fits(lim, Render(lim, Group("", [p])), q)
    ensures Groups(lim, [p, q]) == [Group("", [p]), Group(CarryFrom(lim, Render(lim, Group("", [p]))), [q])]
  {
    var g, ps := Group("", [p]), [p, q];
    GroupsSnoc(lim, ps, 0);
    GroupsSnoc(lim, ps, 1);
    assert Groups(lim, ps[..1]) == [g];
    assert ps[..2] == ps && [g][..0] == [];
    assert !Room(lim)(g, q) && Carry(lim)(g) == CarryFrom(lim, Render(lim, g));
  }

  /** Two words of an unsafe length do not both come back. */
  lemma UnsafeLengthLoses(lim: ChunkLimits, content: string, p: string, q: string, n: nat)
    requires Paragraphs(content) == [p, q] && NoSpace(p) && |p| == |q| == n && !SafeLength(lim, n)
    ensures Unlapped(Pieces(lim, content)) != Paragraphs(content)
  {
    ParagraphsClean(content);
    assert Clean([p, q][0]);
    var g := Group("", [p]);
    assert Full(g) == p;
    if n <= lim.maxChars { SecondOverflows(lim, p, q, n); }
    GroupsOfTwo(lim, p, q);
    var gs := Groups(lim, [p, q]);
    assert !NothingClipped(lim, gs) by {
      if n > lim.maxChars { assert |Full(gs[0])| > lim.maxChars; } else { assert |Full(gs[1])| > lim.maxChars; }
    }
    PiecesLosslessIff(lim, content);
  }

  /** The greatest length up to which paragraphs are sure to come back, for any limits. */
  lemma LosslessLengthIff(lim: ChunkLimits, n: nat)
    ensures (forall content :: AtMost(Paragraphs(content), n) ==> Unlapped(Pieces(lim, content)) == Paragraphs(content))
       <==> SafeLength(lim, n)
  {
    if SafeLength(lim, n) {
      forall content | AtMost(Paragraphs(content), n) ensures Unlapped(Pieces(lim, content)) == Paragraphs(content) {
        SafeParagraphsLossless(lim, content, n);
      }
    } else {
      var content := TwoWords(n);
      UnsafeLengthLoses(lim, content, Paragraphs(content)[0], Paragraphs(content)[1], n);
    }
  }

  lemma TwoWords(n: nat) returns (content: string)
    requires n > 0
    ensures |Paragraphs(content)| == 2 && AtMost(Paragraphs(content), n)
    ensures var ps := Paragraphs(content); NoSpace(ps[0]) && |ps[0]| == |ps[1]| == n && ps == [ps[0], ps[1]]
  {
    var p := seq(n, _ => 'a');
    assert Clean(p) by {
      forall i | 0 <= i < |p| ensures !BreakAt(p, i) { assert p[i] == 'a'; }
    }
    content := Join(BLANK_LINE, [p, p]);
    ParagraphsOfJoin([p, p]);
  }

  /** Unless overlaps take half of a chunk, the bound of `SmallParagraphsLossless` is tight: one more character can be lost. */
  lemma OneMoreCharacterIsLost(lim: ChunkLimits, content: string, p: string, q: string)
    requires 2 * lim.overlap < lim.maxChars && Paragraphs(content) == [p, q] && NoSpace(p)
    requires |p| == |q| == lim.maxChars - lim.overlap - 1
    ensures Unlapped(Pieces(lim, content)) != Paragraphs(content)
  {
    UnsafeLengthLoses(lim, content, p, q, |p|);
  }

  lemma {:induction false} JoinContains(ps: seq<string>, k: nat) returns (off: nat)
    requires k < |ps|
    ensures OccursAt(Join(BLANK_LINE, ps), ps[k], off)
  {
    var j := Join(BLANK_LINE, ps);
    if |ps| == 1 || k == 0 {
      off := 0;
      assert j[..|ps[0]|] == ps[0];
    } else {
      var o := JoinContains(ps[1..], k - 1);
      var head := ps[0] + BLANK_LINE;
      off := |head| + o;
      var rest := Join(BLANK_LINE, ps[1..]);
      assert j == head + rest;
      assert j[off..off + |ps[k]|] == rest[o..o + |ps[k]|];
    }
  }

  /** How much of a paragraph is sure to be kept. */
  function SureLength(lim: ChunkLimits, p: string): nat {
    if |p| <= lim.maxChars - lim.overlap - 2 then |p| else lim.maxChars - lim.overlap - 2
  }

  lemma SlicePrefix(s: string, off: nat, p: string, n: nat)
    requires OccursAt(s, p, off) && n <= |p|
    ensures OccursAt(s, p[..n], off)
  {
    assert s[off..off + n] == s[off..off + |p|][..n];
  }

  lemma OccursAfter(head: string, s: string, p: string, off: nat)
    requires OccursAt(s, p, off)
    ensures OccursAt(head + s, p, |head| + off)
  {
    assert (head + s)[|head| + off..|head| + off + |p|] == s[off..off + |p|];
  }

  lemma FullKeeps(g: ParaGroup, k: nat, n: nat)
    requires k < |g.items| && n <= |g.items[k]|
    ensures Occurs(Full(g), g.items[k][..n])
  {
    var head := CarryHead(g.carry);
    var off := JoinContains(g.items, k);
    OccursAfter(head, Join(BLANK_LINE, g.items), g.items[k], off);
    SlicePrefix(Full(g), |head| + off, g.items[k], n);
  }

  lemma ClippedKeeps(head: string, q: string, n: nat)
    requires n <= |q|
    ensures Occurs(head + q, q[..n])
  {
    assert OccursAt(q, q, 0);
    OccursAfter(head, q, q, 0);
    SlicePrefix(head + q, |head|, q, n);
  }

  lemma RenderKeeps(lim: ChunkLimits, g: ParaGroup, k: nat)
    requires GoodGroup(lim, g) && k < |g.items|
    ensures Occurs(Render(lim, g), g.items[k][..SureLength(lim, g.items[k])])
  {
    var p := g.items[k];
    if |Full(g)| <= lim.maxChars {
      FullKeeps(g, k, SureLength(lim, p));
    } else {
      RenderClipped(lim, g);
      var q := p[..|p| - (|Full(g)| - lim.maxChars)];
      ClippedKeeps(CarryHead(g.carry), q, SureLength(lim, p));
      assert q[..SureLength(lim, p)] == p[..SureLength(lim, p)];
    }
  }

  /** Every paragraph keeps at least its first min(length, MAX_CHARS - OVERLAP - 2) characters in some chunk. */
  lemma ParagraphStartsKept(lim: ChunkLimits, content: string, j: nat)
    requires j < |Paragraphs(content)|
    ensures var p := Paragraphs(content)[j];
            exists i :: 0 <= i < |Pieces(lim, content)| && Occurs(Pieces(lim, content)[i], p[..SureLength(lim, p)])
  {
    var gs := Groups(lim, Paragraphs(content));
    PiecesAreGreedy(lim, content, gs);
    var i, k := GroupOfItem(gs, Paragraphs(content), j);
    assert ShapeAt(lim, gs, i);
    RenderKeeps(lim, gs[i], k);
    assert Pieces(lim, content)[i] == Render(lim, gs[i]);
  }

  lemma StartOfRender(lim: ChunkLimits, g: ParaGroup, text: string)
    requires GoodGroup(lim, g) && g.carry != "" && text == g.carry + "\n\n" + g.items[0]
    ensures Clip(lim, text) <= Render(lim, g)
  {
    var more := Full(g)[|text|..];
    assert Join(BLANK_LINE, g.items)[..|g.items[0]|] == g.items[0];
    assert Full(g)[..|text|] == text;
  }

  lemma NextStarts(lim: ChunkLimits, gs: seq<ParaGroup>, ps: seq<string>, texts: seq<string>, i: nat)
    returns (carry: string, p: string)
    requires Shape(lim, gs) && Parts(gs, ps) && texts == Renders(lim, gs) && i + 1 < |gs|
    ensures p in ps && |texts[i]| + 2 + |p| > lim.maxChars
    ensures IsTailOfLast(carry, texts[i], lim.overlap)
    ensures Clip(lim, carry + "\n\n" + p) <= texts[i + 1]
  {
    assert ShapeAt(lim, gs, i + 1);
    carry, p := gs[i + 1].carry, gs[i + 1].items[0];
    var j := ItemOfParts(gs, ps, i + 1, 0);
    StartOfRender(lim, gs[i + 1], carry + "\n\n" + p);
    LastParagraph(lim, gs[i]);
  }

  /** `c` is the tail of the last paragraph of `text`. */
  ghost predicate IsTailOfLast(c: string, text: string, n: nat) {
    var ps := Paragraphs(text);
    ps != [] && IsTail(c, ps[|ps| - 1], n)
  }

  lemma LastParagraph(lim: ChunkLimits, g: ParaGroup)
    requires GoodGroup(lim, g)
    ensures var ps := Paragraphs(Render(lim, g)); ps != [] && ps[|ps| - 1] == Survivor(lim, g)
  {
    ParagraphsOfRender(lim, g, Render(lim, g), Survivor(lim, g));
    LastOfAppend(CarrySeq(g.carry), Own(g, Survivor(lim, g)));
  }

  /**
   * Every chunk but the first starts with the last OVERLAP characters of the last paragraph of the one before it,
   * and a paragraph that the one before it had no room for.
   */
  lemma ChunksAreFull(lim: ChunkLimits, content: string, i: nat) returns (carry: string, p: string)
    requires i + 1 < |Pieces(lim, content)|
    ensures p in Paragraphs(content) && IsTailOfLast(carry, Pieces(lim, content)[i], lim.overlap)
    ensures |Pieces(lim, content)[i]| + 2 + |p| > lim.maxChars
    ensures Clip(lim, carry + "\n\n" + p) <= Pieces(lim, content)[i + 1]
  {
    var gs := Groups(lim, Paragraphs(content));
    PiecesAreGreedy(lim, content, gs);
    carry, p := NextStarts(lim, gs, Paragraphs(content), Pieces(lim, content), i);
  }

  /** Every chunk text is non-blank and at most MAX_CHARS long, and only blank text has none. */
  lemma PiecesBounds(lim: ChunkLimits, content: string)
    ensures forall i :: 0 <= i < |Pieces(lim, content)| ==>
              0 < |Pieces(lim, content)[i]| <= lim.maxChars && !Blank(Pieces(lim, content)[i])
    ensures Pieces(lim, content) == [] <==> Blank(content)
  {
    var gs := Groups(lim, Paragraphs(content));
    PiecesAreGreedy(lim, content, gs);
    forall i | 0 <= i < |gs| ensures 0 < |Render(lim, gs[i])| <= lim.maxChars && !Blank(Render(lim, gs[i])) {
      ShapeBounds(lim, gs, i);
    }
    NonblankHasParagraph(content);
  }

  // ---- The loop --------------------------------------------------------------

  lemma StripUptoHead(s: string)
    requires s != "" && !IsSpace(s[|s| - 1])
    ensures Strip(s) == StripLeft(s)
  {
    SkipSpaceFacts(s, 0);
  }

  /** `(head + "\n\n" + p).strip()` only strips the left end of `head`. */
  lemma StripHead(head: string, p: string)
    requires Clean(p)
    requires head == "" || !IsSpace(head[|head| - 1])
    ensures Strip(head + BLANK_LINE + p) == (if head == "" then p else StripLeft(head) + BLANK_LINE + p)
  {
    var s := head + BLANK_LINE + p;
    assert s[|s| - 1] == p[|p| - 1];
    StripUptoHead(s);
    SkipSpaceFacts(s, 0);
    SkipSpaceFacts(head, 0);
    assert forall i :: 0 <= i < |head| ==> s[i] == head[i];
    if head == "" {
      assert s[0] == '\n' && s[1] == '\n' && s[2] == p[0];
      assert SkipSpace(s, 0) == 2;
    } else {
      assert SkipSpace(s, 0) == SkipSpace(head, 0);
    }
  }

  lemma GroupsSnoc(lim: ChunkLimits, ps: seq<string>, k: nat)
    requires k < |ps|
    ensures Groups(lim, ps[..k + 1]) == Add(Room(lim), Carry(lim), "", Groups(lim, ps[..k]), ps[k])
    ensures Groups(lim, ps[..k]) == [] <==> k == 0
  {
    assert ps[..k + 1][..k] == ps[..k];
  }

  /** The text in the loop's buffer. */
  function Buffer(lim: ChunkLimits, gs: seq<ParaGroup>): string {
    if gs == [] then "" else Render(lim, gs[|gs| - 1])
  }

  /** The chunk texts the loop has already emitted. */
  function Emitted(lim: ChunkLimits, gs: seq<ParaGroup>): seq<string> {
    if gs == [] then [] else Renders(lim, gs[..|gs| - 1])
  }

  lemma ExtendBuffer(lim: ChunkLimits, g: ParaGroup, p: string)
    requires GoodGroup(lim, g) && Clean(p) && Fits(lim, Render(lim, g), p)
    ensures Render(lim, Group(g.carry, g.items + [p])) == Strip(Render(lim, g) + BLANK_LINE + p)
  {
    var s := Full(g) + BLANK_LINE + p;
    ParagraphsOfFull(g);
    FullSnoc(g, p);
    assert s[0] == Full(g)[0] && s[|s| - 1] == p[|p| - 1];
    StripFacts(s);
  }

  /** The branch that extends the buffer. */
  lemma ExtendStep(lim: ChunkLimits, gs: seq<ParaGroup>, p: string)
    requires gs != [] && GoodGroup(lim, gs[|gs| - 1]) && Clean(p)
    requires Fits(lim, Buffer(lim, gs), p)
    ensures var gs' := Add(Room(lim), Carry(lim), "", gs, p);
            && Buffer(lim, gs') == Strip(Buffer(lim, gs) + BLANK_LINE + p)
            && Emitted(lim, gs') == Emitted(lim, gs)
  {
    var init, g := gs[..|gs| - 1], gs[|gs| - 1];
    ExtendBuffer(lim, g, p);
    assert (init + [Group(g.carry, g.items + [p])])[..|init|] == init;
  }

  lemma FirstStep(lim: ChunkLimits, p: string)
    requires Clean(p) && Fits(lim, "", p)
    ensures var gs' := Add(Room(lim), Carry(lim), "", [], p);
            Buffer(lim, gs') == Strip("" + BLANK_LINE + p) && Emitted(lim, gs') == []
  {
    StripHead("", p);
    assert Full(Group("", [p])) == p;
  }

  lemma OpenedBuffer(lim: ChunkLimits, t: string, p: string)
    requires t != "" && !IsSpace(t[|t| - 1]) && StripLeft(t) != "" && Clean(p)
    ensures Render(lim, Group(StripLeft(t), [p])) == Clip(lim, Strip(t + BLANK_LINE + p))
  {
    StripHead(t, p);
    assert Join(BLANK_LINE, [p]) == p;
  }

  lemma TailEnd(lim: ChunkLimits, s: string)
    requires Clean(s)
    ensures Tail(lim, s) != "" && !IsSpace(Tail(lim, s)[|Tail(lim, s)| - 1]) && StripLeft(Tail(lim, s)) != ""
  {
    TailOfClean(lim, s);
    assert Tail(lim, s)[|Tail(lim, s)| - 1] == s[|s| - 1];
  }

  lemma EmitSnoc(lim: ChunkLimits, gs: seq<ParaGroup>, h: ParaGroup)
    requires gs != []
    ensures Emitted(lim, gs + [h]) == Emitted(lim, gs) + [Buffer(lim, gs)]
    ensures Buffer(lim, gs + [h]) == Render(lim, h)
  {
    var init, g := gs[..|gs| - 1], gs[|gs| - 1];
    assert gs == init + [g];
    RendersSnoc(lim, init, g);
    assert (gs + [h])[..|gs|] == gs;
  }

  /** The branch that emits the buffer and starts a new one. */
  lemma EmitStep(lim: ChunkLimits, gs: seq<ParaGroup>, p: string)
    requires gs != [] && GoodGroup(lim, gs[|gs| - 1]) && Clean(p)
    requires !Fits(lim, Buffer(lim, gs), p)
    ensures var gs' := Add(Room(lim), Carry(lim), "", gs, p);
            var t := CarryText(lim, Buffer(lim, gs));
            && t != "" && Buffer(lim, gs') == Clip(lim, Strip(t + BLANK_LINE + p))
            && Emitted(lim, gs') == Emitted(lim, gs) + [Buffer(lim, gs)]
  {
    var g := gs[|gs| - 1];
    var h := Group(Carry(lim)(g), [p]);
    CarryIs(lim, g);
    TailEnd(lim, Survivor(lim, g));
    OpenedBuffer(lim, Tail(lim, Survivor(lim, g)), p);
    EmitSnoc(lim, gs, h);
  }

  lemma CarryOfNothing(lim: ChunkLimits)
    ensures CarryText(lim, "") == ""
  {
    NonblankHasParagraph("");
  }

  lemma StartStep(lim: ChunkLimits, p: string)
    ensures var gs' := Add(Room(lim), Carry(lim), "", [], p);
            Buffer(lim, gs') == Clip(lim, p) && Emitted(lim, gs') == []
  {
    assert Full(Group("", [p])) == p;
  }

  /** What a new buffer starts as, before it is clipped. */
  function Opened(carry: string, p: string): string {
    if carry == "" then p else Strip(carry + BLANK_LINE + p)
  }

  /** One round of the loop, in terms of the groups. */
  lemma LoopStep(lim: ChunkLimits, paras: seq<string>, k: nat, buf: string, done: seq<string>)
    requires AllClean(paras) && k < |paras|
    requires buf == Buffer(lim, Groups(lim, paras[..k])) && done == Emitted(lim, Groups(lim, paras[..k]))
    ensures var gs' := Groups(lim, paras[..k + 1]);
            if Fits(lim, buf, paras[k]) then
              Buffer(lim, gs') == Strip(buf + BLANK_LINE + paras[k]) && Emitted(lim, gs') == done
            else
              && Buffer(lim, gs') == Clip(lim, Opened(CarryText(lim, buf), paras[k]))
              && Emitted(lim, gs') == if buf == "" then done else done + [buf]
  {
    var gs := Groups(lim, paras[..k]);
    FillIsGreedy(Room(lim), Carry(lim), "", paras[..k]);
    GroupsShape(lim, gs, paras[..k]);
    GroupsSnoc(lim, paras, k);
    if gs == [] {
      CarryOfNothing(lim);
      if Fits(lim, buf, paras[k]) { FirstStep(lim, paras[k]); } else { StartStep(lim, paras[k]); }
    } else {
      assert ShapeAt(lim, gs, |gs| - 1);
      RenderStart(lim, gs[|gs| - 1]);
      if Fits(lim, buf, paras[k]) { ExtendStep(lim, gs, paras[k]); } else { EmitStep(lim, gs, paras[k]); }
    }
  }

  lemma RendersSplit(lim: ChunkLimits, gs: seq<ParaGroup>)
    requires gs != []
    ensures Renders(lim, gs) == Emitted(lim, gs) + [Buffer(lim, gs)]
  {
    var init, g := gs[..|gs| - 1], gs[|gs| - 1];
    assert gs == init + [g];
    RendersSnoc(lim, init, g);
  }

  lemma LoopEnd(lim: ChunkLimits, content: string, buf: string, done: seq<string>)
    requires buf == Buffer(lim, Groups(lim, Paragraphs(content)))
    requires done == Emitted(lim, Groups(lim, Paragraphs(content)))
    ensures Pieces(lim, content) == done + if Strip(buf) != "" then [buf] else []
  {
    var gs := Groups(lim, Paragraphs(content));
    PiecesAreGreedy(lim, content, gs);
    StripFacts(buf);
    if gs != [] {
      ShapeBounds(lim, gs, |gs| - 1);
      RendersSplit(lim, gs);
    }
  }

  lemma NumberedSnoc(docId: string, start: nat, path: string, texts: seq<string>, t: string, idx: nat)
    requires idx == start + |texts|
    ensures Numbered(docId, start, path, texts) + [Chunk(docId, idx, t, path)]
         == Numbered(docId, start, path, texts + [t])
  {
    assert (texts + [t])[..|texts|] == texts;
  }

  /** `_para_chunks`. */
  method ParaChunks(lim: ChunkLimits, content: string, docId: string, startIdx: nat, path: string)
    returns (chunks: seq<Chunk>, idx: nat)
    ensures chunks == Numbered(docId, startIdx, path, Pieces(lim, content))
    ensures idx == startIdx + |chunks|
  {
    var paras := Paragraphs(content);
    ParagraphsClean(content);
    chunks, idx := [], startIdx;
    var buf := "";
    ghost var done := [];  // the texts of `chunks`
    for k := 0 to |paras|
      invariant buf == Buffer(lim, Groups(lim, paras[..k]))
      invariant done == Emitted(lim, Groups(lim, paras[..k]))
      invariant chunks == Numbered(docId, startIdx, path, done)
      invariant idx == startIdx + |done|
    {
      var para := paras[k];
      LoopStep(lim, paras, k, buf, done);
      if |buf| + |para| + 2 <= lim.maxChars {
        buf := Strip(buf + BLANK_LINE + para);
      } else {
        var carry := CarryText(lim, buf);
        if buf != "" {
          NumberedSnoc(docId, startIdx, path, done, buf, idx);
          chunks, idx := chunks + [Chunk(docId, idx, buf, path)], idx + 1;
          done := done + [buf];
        }
        buf := Clip(lim, Opened(carry, para));
      }
    }
    assert paras[..|paras|] == paras;
    LoopEnd(lim, content, buf, done);
    if Strip(buf) != "" {
      NumberedSnoc(docId, startIdx, path, done, buf, idx);
      chunks, idx := chunks + [Chunk(docId, idx, buf, path)], idx + 1;
      done := done + [buf];
    }
    assert done == Pieces(lim, content);
  }
}
