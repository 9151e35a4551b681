/** `chunk_text`: markdown sections by heading, article sections by located anchors. */
module Chunker {
  import opened Text
  import opened Sorting
  import opened ParagraphFiller
  import opened Breadcrumbs

  /** A section the classifier proposes: its label and the text it starts with. */
  datatype Anchor = Anchor(name: string, anchor: string)

  datatype Boundary = Boundary(pos: nat, name: string)

  datatype Section = Section(path: string, content: string)

  const MIN_GAP: nat := 80

  /** What the matches of `^#{1,4}\s+(.+)$` look like. */
  ghost predicate ValidHeadings(text: string, hs: seq<Heading>) {
    && (forall i :: 0 <= i < |hs| ==> hs[i].pos < |text| && text[hs[i].pos] == '#' && 1 <= hs[i].level <= 4)
    && (forall i, j :: 0 <= i < j < |hs| ==> hs[i].pos < hs[j].pos)
  }

  // ---- Cutting a text into sections ------------------------------------------

  ghost predicate Ascending(cuts: seq<nat>, n: nat) {
    && (forall i, j :: 0 <= i < j < |cuts| ==> cuts[i] <= cuts[j])
    && (forall i :: 0 <= i < |cuts| ==> cuts[i] <= n)
  }

  function CutPiece(text: string, cuts: seq<nat>, i: nat): string
    requires i < |cuts| && Ascending(cuts, |text|)
  {
    text[cuts[i]..if i + 1 < |cuts| then cuts[i + 1] else |text|]
  }

  /** The parts of `text` from each cut to the next. */
  function CutFrom(text: string, cuts: seq<nat>, i: nat): seq<string>
    requires i <= |cuts| && Ascending(cuts, |text|)
    decreases |cuts| - i
  {
    if i == |cuts| then [] else [CutPiece(text, cuts, i)] + CutFrom(text, cuts, i + 1)
  }

  function Flatten(ss: seq<string>): string {
    if ss == [] then "" else ss[0] + Flatten(ss[1..])
  }

  /** The parts tile the text from the first cut to the end. */
  lemma {:induction false} CutsTile(text: string, cuts: seq<nat>, i: nat)
    requires i < |cuts| && Ascending(cuts, |text|)
    ensures Flatten(CutFrom(text, cuts, i)) == text[cuts[i]..]
    decreases |cuts| - i
  {
    if i + 1 < |cuts| {
      CutsTile(text, cuts, i + 1);
      assert text[cuts[i]..] == text[cuts[i]..cuts[i + 1]] + text[cuts[i + 1]..];
    } else {
      assert CutFrom(text, cuts, i + 1) == [];
    }
    assert CutFrom(text, cuts, i)[1..] == CutFrom(text, cuts, i + 1);
  }

  /** The parts, stripped, without the blank ones. */
  function StripAll(ss: seq<string>): seq<string> {
    if ss == [] then [] else Nonblank(ss[0]) + StripAll(ss[1..])
  }

  function Contents(secs: seq<Section>): seq<string> {
    seq(|secs|, i requires 0 <= i < |secs| => secs[i].content)
  }

  // ---- The markdown path ------------------------------------------------------

  function Positions(hs: seq<Heading>): seq<nat> {
    seq(|hs|, i requires 0 <= i < |hs| => hs[i].pos)
  }

  function Titles(hs: seq<Heading>, c: seq<nat>): seq<string>
    requires forall k :: 0 <= k < |c| ==> c[k] < |hs|
  {
    seq(|c|, k requires 0 <= k < |c| => hs[c[k]].title)
  }

  function Path(hs: seq<Heading>, i: nat): string
    requires i < |hs| && HasLevels(hs)
  {
    Join(" > ", Titles(hs, Crumb(hs, i)))
  }

  /** `text[pos:end]` for the heading `i`. */
  function HeadingText(text: string, hs: seq<Heading>, i: nat): string
    requires ValidHeadings(text, hs) && i < |hs|
  {
    CutPiece(text, Positions(hs), i)
  }

  function MarkdownSection(text: string, hs: seq<Heading>, i: nat): Section
    requires ValidHeadings(text, hs) && i < |hs|
  {
    Section(Path(hs, i), Strip(HeadingText(text, hs, i)))
  }

  function MarkdownSections(text: string, hs: seq<Heading>): seq<Section>
    requires ValidHeadings(text, hs)
  {
    seq(|hs|, i requires 0 <= i < |hs| => MarkdownSection(text, hs, i))
  }

  /** A short section is one chunk; a long one is filled paragraph by paragraph. */
  function MarkdownTexts(lim: ChunkLimits, content: string): seq<string> {
    if |content| <= lim.maxChars then [content] else Pieces(lim, content)
  }

  // ---- The article path ---------------------------------------------------------

  function FirstFive(ws: seq<string>): seq<string> {
    if |ws| <= 5 then ws else ws[..5]
  }

  /** `_find_anchor`: the anchor itself, or else its first five words. */
  function FindAnchor(text: string, anchor: string): (r: int)
    ensures -1 <= r <= |text|
  {
    if anchor == "" then -1 else
      var pos := FindFrom(text, anchor, 0);
      if pos != -1 then pos else
        var ws := FirstFive(WordsFrom(anchor, 0));
        if |ws| >= 3 then FindFrom(text, Join(" ", ws), 0) else -1
  }

  /** The boundaries of the anchors that were found, in the order of the anchors. */
  function Located(text: string, anchors: seq<Anchor>): seq<Boundary> {
    if anchors == [] then []
    else
      var a := anchors[|anchors| - 1];
      var pos := FindAnchor(text, Strip(a.anchor));
      Located(text, anchors[..|anchors| - 1]) + if pos == -1 then [] else [Boundary(pos, Strip(a.name))]
  }

  function PosKey(): Boundary -> real {
    (b: Boundary) => b.pos as real
  }

  function Sorted(text: string, anchors: seq<Anchor>): seq<Boundary> {
    StableSort(PosKey(), Located(text, anchors))
  }

  /** Only boundaries more than 80 characters after the last one kept. */
  function Kept(bs: seq<Boundary>): seq<Boundary> {
    if bs == [] then []
    else
      var ks, b := Kept(bs[..|bs| - 1]), bs[|bs| - 1];
      if ks == [] || b.pos - ks[|ks| - 1].pos > MIN_GAP then ks + [b] else ks
  }

  function Starts(ks: seq<Boundary>): seq<nat> {
    seq(|ks|, i requires 0 <= i < |ks| => ks[i].pos)
  }

  function Titled(path: string, raw: string): seq<Section> {
    if Strip(raw) == "" then [] else [Section(path, Strip(raw))]
  }

  function LabelledSections(text: string, ks: seq<Boundary>, i: nat): seq<Section>
    requires i <= |ks| && Ascending(Starts(ks), |text|)
    decreases |ks| - i
  {
    if i == |ks| then [] else
      Titled(ks[i].name, CutPiece(text, Starts(ks), i)) + LabelledSections(text, ks, i + 1)
  }

  /** The kept boundaries, after one for the preamble if that is longer than 80 characters. */
  function Plan(ks: seq<Boundary>, fallback: string): seq<Boundary>
    requires ks != []
  {
    (if ks[0].pos > MIN_GAP then [Boundary(0, fallback)] else []) + ks
  }

  function FallbackLabel(anchors: seq<Anchor>): string {
    if anchors == [] then "Overview" else anchors[0].name
  }

  // ---- The chunks of a text --------------------------------------------------------

  /** The chunks of the sections one after the other, numbered through. */
  function Lay(docId: string, secs: seq<Section>, texts: string -> seq<string>): (cs: seq<Chunk>)
    ensures forall i :: 0 <= i < |cs| ==> cs[i].docId == docId && cs[i].chunkId == i
  {
    if secs == [] then []
    else
      var done := Lay(docId, secs[..|secs| - 1], texts);
      var sec := secs[|secs| - 1];
      done + Numbered(docId, |done|, sec.path, texts(sec.content))
  }

  function OrWhole(cs: seq<Chunk>, docId: string, text: string, path: string): seq<Chunk> {
    if cs == [] then [Chunk(docId, 0, Strip(text), path)] else cs
  }

  function KeptIn(text: string, anchors: seq<Anchor>): seq<Boundary> {
    Kept(Sorted(text, anchors))
  }

  function Filler(lim: ChunkLimits): string -> seq<string> {
    (c: string) => Pieces(lim, c)
  }

  function MarkdownFiller(lim: ChunkLimits): string -> seq<string> {
    (c: string) => MarkdownTexts(lim, c)
  }

  // ---- Facts about the boundaries ------------------------------------------------

  lemma {:induction false} FindFromIsFirst(text: string, sub: string, i: nat)
    requires i <= |text|
    ensures var r := FindFrom(text, sub, i);
            forall j :: i <= j <= |text| && (r == -1 || j < r) ==> !OccursAt(text, sub, j)
    decreases |text| - i
  {
    if !OccursAt(text, sub, i) && i < |text| { FindFromIsFirst(text, sub, i + 1); }
  }

  ghost predicate FirstOccurrence(text: string, sub: string, r: int) {
    OccursAt(text, sub, r) && forall j :: 0 <= j < r ==> !OccursAt(text, sub, j)
  }

  /** Where an anchor is found: its first occurrence, or else that of its first five words, or else nowhere. */
  lemma FindAnchorMeans(text: string, anchor: string)
    requires Trimmed(anchor)
    ensures var r, words := FindAnchor(text, anchor), WordsFrom(anchor, 0);
            var ws := if |words| <= 5 then words else words[..5];
            if anchor != "" && Occurs(text, anchor) then FirstOccurrence(text, anchor, r)
            else if anchor != "" && |ws| >= 3 && Occurs(text, Join(" ", ws)) then FirstOccurrence(text, Join(" ", ws), r)
            else r == -1
    ensures FindAnchor(text, anchor) != -1 ==>
              FindAnchor(text, anchor) < |text| && !IsSpace(text[FindAnchor(text, anchor)])
  {
    FindFromIsFirst(text, anchor, 0);
    var ws := FirstFive(WordsFrom(anchor, 0));
    FindFromIsFirst(text, Join(" ", ws), 0);
    var r := FindAnchor(text, anchor);
    if r != -1 {
      FirstWordStarts(anchor);
      if OccursAt(text, anchor, r) {
        assert text[r] == text[r..r + |anchor|][0];
      } else {
        var phrase := Join(" ", ws);
        assert text[r] == text[r..r + |phrase|][0];
      }
    }
  }

  lemma FirstWordStarts(anchor: string)
    requires anchor != ""
    ensures var ws := FirstFive(WordsFrom(anchor, 0));
            |ws| >= 3 ==> Join(" ", ws) != "" && !IsSpace(Join(" ", ws)[0])
  {
    SkipSpaceFacts(anchor, 0);
  }

  ghost predicate AllFound(text: string, bs: seq<Boundary>) {
    forall i :: 0 <= i < |bs| ==> bs[i].pos < |text| && !IsSpace(text[bs[i].pos])
  }

  lemma {:induction false} LocatedFound(text: string, anchors: seq<Anchor>)
    ensures AllFound(text, Located(text, anchors))
  {
    if anchors != [] {
      LocatedFound(text, anchors[..|anchors| - 1]);
      var a := anchors[|anchors| - 1];
      StripFacts(a.anchor);
      FindAnchorMeans(text, Strip(a.anchor));
    }
  }

  ghost predicate PosSorted(bs: seq<Boundary>) {
    forall i, j :: 0 <= i <= j < |bs| ==> bs[i].pos <= bs[j].pos
  }

  lemma SortedFound(text: string, anchors: seq<Anchor>)
    ensures PosSorted(Sorted(text, anchors)) && AllFound(text, Sorted(text, anchors))
    ensures multiset(Sorted(text, anchors)) == multiset(Located(text, anchors))
  {
    var ls := Located(text, anchors);
    LocatedFound(text, anchors);
    SortFacts(PosKey(), ls);
    var bs := Sorted(text, anchors);
    forall i, j | 0 <= i <= j < |bs| ensures bs[i].pos <= bs[j].pos {
      assert PosKey()(bs[i]) <= PosKey()(bs[j]);
    }
    forall i | 0 <= i < |bs| ensures bs[i].pos < |text| && !IsSpace(text[bs[i].pos]) {
      assert bs[i] in multiset(bs);
      assert bs[i] in ls;
    }
  }

  /** The kept boundaries lie more than 80 characters apart. */
  ghost predicate Spaced(ks: seq<Boundary>) {
    forall i, j :: 0 <= i < j < |ks| ==> ks[j].pos - ks[i].pos > MIN_GAP
  }

  /** `b` lies within 80 characters after one of `ks`. */
  ghost predicate Near(b: Boundary, ks: seq<Boundary>) {
    exists k :: 0 <= k < |ks| && 0 <= b.pos - ks[k].pos <= MIN_GAP
  }

  lemma NearSnoc(b: Boundary, ks: seq<Boundary>, x: Boundary)
    requires Near(b, ks)
    ensures Near(b, ks + [x])
  {
    var k :| 0 <= k < |ks| && 0 <= b.pos - ks[k].pos <= MIN_GAP;
    assert (ks + [x])[k] == ks[k];
  }

  lemma {:induction false} KeptFromBounds(bs: seq<Boundary>)
    ensures forall k :: 0 <= k < |Kept(bs)| ==> Kept(bs)[k] in bs
    ensures Spaced(Kept(bs))
    ensures bs != [] ==> Kept(bs) != [] && Kept(bs)[0] == bs[0]
  {
    if bs != [] {
      var init := bs[..|bs| - 1];
      KeptFromBounds(init);
      assert forall b :: b in init ==> b in bs;
    }
  }

  lemma {:induction false} KeptNear(bs: seq<Boundary>, i: nat)
    requires PosSorted(bs) && i < |bs|
    ensures Near(bs[i], Kept(bs))
  {
    var init, b := bs[..|bs| - 1], bs[|bs| - 1];
    if i < |init| {
      KeptNear(init, i);
      if Kept(bs) != Kept(init) { NearSnoc(init[i], Kept(init), b); }
    } else {
      LastIsNear(bs);
    }
  }

  /** Kept boundaries are found ones, spaced out, and every found one is near a kept one. */
  lemma KeptFacts(bs: seq<Boundary>)
    requires PosSorted(bs)
    ensures forall k :: 0 <= k < |Kept(bs)| ==> Kept(bs)[k] in bs
    ensures Spaced(Kept(bs))
    ensures forall i :: 0 <= i < |bs| ==> Near(bs[i], Kept(bs))
    ensures bs != [] ==> Kept(bs) != [] && Kept(bs)[0] == bs[0]
  {
    KeptFromBounds(bs);
    forall i | 0 <= i < |bs| ensures Near(bs[i], Kept(bs)) { KeptNear(bs, i); }
  }

  lemma LastIsNear(bs: seq<Boundary>)
    requires PosSorted(bs) && bs != []
    ensures Near(bs[|bs| - 1], Kept(bs))
  {
    var init, b := bs[..|bs| - 1], bs[|bs| - 1];
    var ls, ks := Kept(init), Kept(bs);
    KeptFromBounds(init);
    if ks == ls {
      EarlierIsLower(bs, ls[|ls| - 1]);
      assert 0 <= b.pos - ls[|ls| - 1].pos <= MIN_GAP;
    } else {
      assert ks[|ls|] == b;
    }
  }

  lemma EarlierIsLower(bs: seq<Boundary>, x: Boundary)
    requires PosSorted(bs) && bs != [] && x in bs[..|bs| - 1]
    ensures x.pos <= bs[|bs| - 1].pos
  {
    var m :| 0 <= m < |bs| - 1 && bs[m] == x;
  }

  // ---- Main results ------------------------------------------------------------------

  lemma FoundAmong(text: string, ks: seq<Boundary>, bs: seq<Boundary>)
    requires AllFound(text, bs) && forall k :: 0 <= k < |ks| ==> ks[k] in bs
    ensures AllFound(text, ks)
  {
    forall k | 0 <= k < |ks| ensures ks[k].pos < |text| && !IsSpace(text[ks[k].pos]) {
      var i :| 0 <= i < |bs| && bs[i] == ks[k];
    }
  }

  lemma StartsAscend(text: string, ks: seq<Boundary>)
    requires AllFound(text, ks) && Spaced(ks)
    ensures Ascending(Starts(ks), |text|)
  {
    forall i, j | 0 <= i < j < |ks| ensures Starts(ks)[i] <= Starts(ks)[j] { assert ks[j].pos - ks[i].pos > MIN_GAP; }
  }

  lemma KeptStarts(text: string, anchors: seq<Anchor>)
    ensures var ks := KeptIn(text, anchors);
            && AllFound(text, ks) && Spaced(ks) && Ascending(Starts(ks), |text|)
            && (ks == [] <==> Located(text, anchors) == [])
  {
    var bs := Sorted(text, anchors);
    SortedFound(text, anchors);
    KeptFromBounds(bs);
    FoundAmong(text, Kept(bs), bs);
    StartsAscend(text, Kept(bs));
    SortFacts(PosKey(), Located(text, anchors));
  }

  /** Every anchor that was found starts within 80 characters after a kept boundary. */
  lemma FoundAnchorsAreNear(text: string, anchors: seq<Anchor>, i: nat)
    requires i < |Located(text, anchors)|
    ensures Near(Located(text, anchors)[i], KeptIn(text, anchors))
  {
    var b := Located(text, anchors)[i];
    SortedFound(text, anchors);
    KeptFacts(Sorted(text, anchors));
    assert b in multiset(Located(text, anchors));
    assert b in Sorted(text, anchors);
    var m :| 0 <= m < |Sorted(text, anchors)| && Sorted(text, anchors)[m] == b;
    assert Near(Sorted(text, anchors)[m], KeptIn(text, anchors));
  }

  lemma ContentsAppend(a: seq<Section>, b: seq<Section>)
    ensures Contents(a + b) == Contents(a) + Contents(b)
  {}

  lemma TitledContents(path: string, raw: string)
    ensures Contents(Titled(path, raw)) == Nonblank(raw)
  {}

  lemma RawStep(text: string, cuts: seq<nat>, j: nat)
    requires j < |cuts| && Ascending(cuts, |text|)
    ensures StripAll(CutFrom(text, cuts, j)) == Nonblank(CutPiece(text, cuts, j)) + StripAll(CutFrom(text, cuts, j + 1))
  {
    assert CutFrom(text, cuts, j)[1..] == CutFrom(text, cuts, j + 1);
  }

  lemma LabelledStep(text: string, ks: seq<Boundary>, i: nat)
    requires i < |ks| && Ascending(Starts(ks), |text|)
    ensures Contents(LabelledSections(text, ks, i))
         == Nonblank(CutPiece(text, Starts(ks), i)) + Contents(LabelledSections(text, ks, i + 1))
  {
    TitledContents(ks[i].name, CutPiece(text, Starts(ks), i));
    ContentsAppend(Titled(ks[i].name, CutPiece(text, Starts(ks), i)), LabelledSections(text, ks, i + 1));
  }

  lemma {:induction false} LabelledAreRaw(text: string, ks: seq<Boundary>, i: nat)
    requires i <= |ks| && Ascending(Starts(ks), |text|)
    ensures Contents(LabelledSections(text, ks, i)) == StripAll(CutFrom(text, Starts(ks), i))
    decreases |ks| - i
  {
    if i < |ks| {
      LabelledAreRaw(text, ks, i + 1);
      RawStep(text, Starts(ks), i);
      LabelledStep(text, ks, i);
    }
  }

  lemma PlanFacts(text: string, ks: seq<Boundary>, fallback: string)
    requires ks != [] && Ascending(Starts(ks), |text|)
    ensures var plan := Plan(ks, fallback);
            Ascending(Starts(plan), |text|) && plan != [] && Starts(plan)[0] == plan[0].pos <= MIN_GAP
  {
    var plan := Plan(ks, fallback);
    var d := |plan| - |ks|;
    assert forall i :: 0 <= i < |ks| ==> Starts(plan)[i + d] == Starts(ks)[i];
    forall i, j | 0 <= i < j < |plan| ensures Starts(plan)[i] <= Starts(plan)[j] {
      if i >= d { assert Starts(ks)[i - d] <= Starts(ks)[j - d]; }
    }
    forall i | 0 <= i < |plan| ensures Starts(plan)[i] <= |text| {
      if i >= d { assert Starts(ks)[i - d] <= |text|; }
    }
  }

  /**
   * The article sections are the stripped, non-blank parts of a tiling of the text that starts at
   * most 80 characters in.
   */
  lemma ArticleSectionsTile(text: string, anchors: seq<Anchor>, fallback: string)
    requires KeptIn(text, anchors) != []
    ensures var plan := Plan(KeptIn(text, anchors), fallback);
            var cuts := Starts(plan);
            && Ascending(cuts, |text|) && cuts != [] && cuts[0] <= MIN_GAP
            && Flatten(CutFrom(text, cuts, 0)) == text[cuts[0]..]
            && Contents(LabelledSections(text, plan, 0)) == StripAll(CutFrom(text, cuts, 0))
  {
    var plan := Plan(KeptIn(text, anchors), fallback);
    KeptStarts(text, anchors);
    PlanFacts(text, KeptIn(text, anchors), fallback);
    CutsTile(text, Starts(plan), 0);
    LabelledAreRaw(text, plan, 0);
  }

  lemma HeadingPiece(text: string, hs: seq<Heading>, i: nat)
    requires ValidHeadings(text, hs) && i < |hs|
    ensures var raw := CutPiece(text, Positions(hs), i);
            !Blank(Strip(raw)) && Nonblank(raw) == [Strip(raw)]
  {
    var raw := CutPiece(text, Positions(hs), i);
    assert raw[0] == text[hs[i].pos] == '#';
    StripFacts(raw);
    assert !IsSpace(Strip(raw)[0]);
  }

  lemma FromHere<T>(xs: seq<T>, i: nat)
    requires i < |xs|
    ensures xs[i..] == [xs[i]] + xs[i + 1..]
  {}

  /** One heading: the section is the one non-blank part that its piece of the text comes to. */
  lemma MarkdownRawStep(text: string, hs: seq<Heading>, cs: seq<string>, i: nat)
    requires ValidHeadings(text, hs) && i < |hs| && cs == Contents(MarkdownSections(text, hs))
    requires cs[i + 1..] == StripAll(CutFrom(text, Positions(hs), i + 1))
    ensures cs[i..] == StripAll(CutFrom(text, Positions(hs), i))
  {
    HeadingPiece(text, hs, i);
    RawStep(text, Positions(hs), i);
    FromHere(cs, i);
  }

  lemma {:induction false} MarkdownAreRaw(text: string, hs: seq<Heading>, i: nat)
    requires ValidHeadings(text, hs) && i <= |hs|
    ensures Contents(MarkdownSections(text, hs))[i..] == StripAll(CutFrom(text, Positions(hs), i))
    decreases |hs| - i
  {
    if i < |hs| {
      MarkdownAreRaw(text, hs, i + 1);
      MarkdownRawStep(text, hs, Contents(MarkdownSections(text, hs)), i);
    }
  }

  /** The markdown sections are the stripped parts of a tiling of the text from its first heading on. */
  lemma MarkdownSectionsTile(text: string, hs: seq<Heading>)
    requires ValidHeadings(text, hs) && hs != []
    ensures Flatten(CutFrom(text, Positions(hs), 0)) == text[hs[0].pos..]
    ensures Contents(MarkdownSections(text, hs)) == StripAll(CutFrom(text, Positions(hs), 0))
  {
    CutsTile(text, Positions(hs), 0);
    MarkdownAreRaw(text, hs, 0);
    assert Contents(MarkdownSections(text, hs))[0..] == Contents(MarkdownSections(text, hs));
  }

  // ---- The chunks -----------------------------------------------------------------------

  /** Texts that may become chunks: at least one, none blank, none over MAX_CHARS. */
  ghost predicate GoodTexts(lim: ChunkLimits, ts: seq<string>) {
    ts != [] && forall i :: 0 <= i < |ts| ==> |ts[i]| <= lim.maxChars && !Blank(ts[i])
  }

  ghost predicate GoodFiller(lim: ChunkLimits, texts: string -> seq<string>) {
    forall c :: !Blank(c) ==> GoodTexts(lim, texts(c))
  }

  lemma FillersAreGood(lim: ChunkLimits)
    ensures GoodFiller(lim, Filler(lim)) && GoodFiller(lim, MarkdownFiller(lim))
  {
    forall c | !Blank(c) ensures GoodTexts(lim, Pieces(lim, c)) && GoodTexts(lim, MarkdownTexts(lim, c)) {
      PiecesBounds(lim, c);
    }
  }

  ghost predicate GoodChunks(lim: ChunkLimits, cs: seq<Chunk>) {
    forall i :: 0 <= i < |cs| ==> |cs[i].content| <= lim.maxChars && !Blank(cs[i].content)
  }

  lemma {:induction false} LayIsGood(lim: ChunkLimits, docId: string, secs: seq<Section>, texts: string -> seq<string>)
    requires GoodFiller(lim, texts)
    requires forall i :: 0 <= i < |secs| ==> !Blank(secs[i].content)
    ensures GoodChunks(lim, Lay(docId, secs, texts))
    ensures Lay(docId, secs, texts) == [] <==> secs == []
  {
    if secs != [] {
      LayIsGood(lim, docId, secs[..|secs| - 1], texts);
      assert GoodTexts(lim, texts(secs[|secs| - 1].content));
    }
  }

  lemma {:induction false} LabelledNonblank(text: string, ks: seq<Boundary>, i: nat)
    requires i <= |ks| && Ascending(Starts(ks), |text|)
    ensures forall k :: 0 <= k < |LabelledSections(text, ks, i)| ==> !Blank(LabelledSections(text, ks, i)[k].content)
    decreases |ks| - i
  {
    if i < |ks| {
      LabelledNonblank(text, ks, i + 1);
      TitledNonblank(ks[i].name, CutPiece(text, Starts(ks), i));
    }
  }

  lemma TitledNonblank(path: string, raw: string)
    ensures forall k :: 0 <= k < |Titled(path, raw)| ==> !Blank(Titled(path, raw)[k].content)
    ensures Titled(path, raw) == [] <==> Blank(raw)
  {
    StripFacts(raw);
    StripFacts(Strip(raw));
  }

  lemma {:induction false} LabelledNonempty(text: string, ks: seq<Boundary>, i: nat, k: nat)
    requires i <= k < |ks| && Ascending(Starts(ks), |text|) && !Blank(CutPiece(text, Starts(ks), k))
    ensures LabelledSections(text, ks, i) != []
    decreases k - i
  {
    var first, rest := Titled(ks[i].name, CutPiece(text, Starts(ks), i)), LabelledSections(text, ks, i + 1);
    assert LabelledSections(text, ks, i) == first + rest;
    if i < k {
      LabelledNonempty(text, ks, i + 1, k);
    } else {
      TitledNonblank(ks[i].name, CutPiece(text, Starts(ks), i));
    }
  }

  lemma ArticleSectionsNonempty(text: string, ks: seq<Boundary>, fallback: string)
    requires ks != [] && AllFound(text, ks) && Ascending(Starts(ks), |text|)
    requires Ascending(Starts(Plan(ks, fallback)), |text|) && Spaced(ks)
    ensures LabelledSections(text, Plan(ks, fallback), 0) != []
  {
    var plan := Plan(ks, fallback);
    var d := |plan| - |ks|;
    var piece := CutPiece(text, Starts(plan), d);
    assert plan[d] == ks[0] && (|ks| > 1 ==> plan[d + 1] == ks[1]);
    assert piece[0] == text[ks[0].pos];
    LabelledNonempty(text, plan, 0, d);
  }

  /** The chunks of a text as the sections lay them out. */
  function ChunkSpec(lim: ChunkLimits, text: string, docId: string, anchors: seq<Anchor>, hs: seq<Heading>): seq<Chunk>
    requires ValidHeadings(text, hs)
  {
    var ks, fallback := KeptIn(text, anchors), FallbackLabel(anchors);
    if hs != [] then
      OrWhole(Lay(docId, MarkdownSections(text, hs), MarkdownFiller(lim)), docId, text, "")
    else if ks == [] then
      OrWhole(Numbered(docId, 0, fallback, Pieces(lim, text)), docId, text, fallback)
    else
      KeptStarts(text, anchors);
      PlanFacts(text, ks, fallback);
      OrWhole(Lay(docId, LabelledSections(text, Plan(ks, fallback), 0), Filler(lim)), docId, text, fallback)
  }

  /** Chunks of one document, numbered from 0 without gaps. */
  ghost predicate NumberedThrough(docId: string, cs: seq<Chunk>) {
    forall i :: 0 <= i < |cs| ==> cs[i].docId == docId && cs[i].chunkId == i
  }

  /** What every caller of `chunk_text` may rely on. */
  ghost predicate ChunksOf(lim: ChunkLimits, text: string, docId: string, cs: seq<Chunk>) {
    && cs != [] && NumberedThrough(docId, cs)
    && (if Blank(text) then |cs| == 1 && cs[0].content == "" else GoodChunks(lim, cs))
  }

  lemma MarkdownChunks(lim: ChunkLimits, text: string, docId: string, hs: seq<Heading>)
    requires ValidHeadings(text, hs) && hs != []
    ensures ChunksOf(lim, text, docId, Lay(docId, MarkdownSections(text, hs), MarkdownFiller(lim)))
  {
    FillersAreGood(lim);
    forall i | 0 <= i < |hs| ensures !Blank(MarkdownSections(text, hs)[i].content) { HeadingPiece(text, hs, i); }
    LayIsGood(lim, docId, MarkdownSections(text, hs), MarkdownFiller(lim));
    assert !IsSpace(text[hs[0].pos]);
  }

  lemma ArticleChunks(lim: ChunkLimits, text: string, docId: string, ks: seq<Boundary>, fallback: string)
    requires ks != [] && AllFound(text, ks) && Spaced(ks) && Ascending(Starts(ks), |text|)
    requires Ascending(Starts(Plan(ks, fallback)), |text|)
    ensures ChunksOf(lim, text, docId, Lay(docId, LabelledSections(text, Plan(ks, fallback), 0), Filler(lim)))
  {
    var secs := LabelledSections(text, Plan(ks, fallback), 0);
    FillersAreGood(lim);
    LabelledNonblank(text, Plan(ks, fallback), 0);
    ArticleSectionsNonempty(text, ks, fallback);
    LayIsGood(lim, docId, secs, Filler(lim));
    assert !IsSpace(text[ks[0].pos]);
  }

  lemma WholeChunks(lim: ChunkLimits, text: string, docId: string, path: string)
    ensures ChunksOf(lim, text, docId, OrWhole(Numbered(docId, 0, path, Pieces(lim, text)), docId, text, path))
  {
    PiecesBounds(lim, text);
    StripFacts(text);
  }

  /**
   * Whatever the anchors and headings, there is at least one chunk, the ids are 0..n-1, and no
   * chunk exceeds MAX_CHARS. Blank text gives one empty chunk; other text gives none that is blank.
   */
  lemma ChunkTextFacts(lim: ChunkLimits, text: string, docId: string, anchors: seq<Anchor>, hs: seq<Heading>)
    requires ValidHeadings(text, hs)
    ensures ChunksOf(lim, text, docId, ChunkSpec(lim, text, docId, anchors, hs))
  {
    var ks, fallback := KeptIn(text, anchors), FallbackLabel(anchors);
    KeptStarts(text, anchors);
    if hs != [] {
      MarkdownChunks(lim, text, docId, hs);
    } else if ks == [] {
      WholeChunks(lim, text, docId, fallback);
    } else {
      PlanFacts(text, ks, fallback);
      ArticleChunks(lim, text, docId, ks, fallback);
    }
  }

  // ---- From chunks back to sections ---------------------------------------------------------

  /** The chunks of all sections, a run for each section. */
  function Runs(docId: string, secs: seq<Section>, texts: string -> seq<string>): (runs: seq<seq<Chunk>>)
    ensures |runs| == |secs|
  {
    if secs == [] then []
    else
      var init, sec := secs[..|secs| - 1], secs[|secs| - 1];
      Runs(docId, init, texts) + [Numbered(docId, |Lay(docId, init, texts)|, sec.path, texts(sec.content))]
  }

  /** Run after run. */
  function Chained(runs: seq<seq<Chunk>>): seq<Chunk> {
    if runs == [] then [] else Chained(runs[..|runs| - 1]) + runs[|runs| - 1]
  }

  lemma {:induction false} RunsMakeLay(docId: string, secs: seq<Section>, texts: string -> seq<string>)
    ensures Chained(Runs(docId, secs, texts)) == Lay(docId, secs, texts)
  {
    if secs != [] {
      var init, runs := secs[..|secs| - 1], Runs(docId, secs, texts);
      RunsMakeLay(docId, init, texts);
      assert runs[..|runs| - 1] == Runs(docId, init, texts);
    }
  }

  lemma {:induction false} RunAt(docId: string, secs: seq<Section>, texts: string -> seq<string>, i: nat)
    requires i < |secs|
    ensures var run := Runs(docId, secs, texts)[i];
            && ChunkTexts(run) == texts(secs[i].content)
            && forall k :: 0 <= k < |run| ==> run[k].sectionPath == secs[i].path
  {
    if i < |secs| - 1 { RunAt(docId, secs[..|secs| - 1], texts, i); }
  }

  /** A text of which nothing is lost: short markdown, or all its paragraphs are small. */
  predicate Spared(lim: ChunkLimits, markdown: bool, content: string) {
    Small(lim, Paragraphs(content)) || (markdown && |content| <= lim.maxChars)
  }

  function FillerFor(lim: ChunkLimits, markdown: bool): string -> seq<string> {
    if markdown then MarkdownFiller(lim) else Filler(lim)
  }

  lemma SparedTexts(lim: ChunkLimits, markdown: bool, content: string)
    requires Spared(lim, markdown, content)
    ensures Unlapped(FillerFor(lim, markdown)(content)) == Paragraphs(content)
  {
    if markdown && |content| <= lim.maxChars {
      assert [content][..0] == [];
    } else {
      SmallParagraphsLossless(lim, content);
    }
  }

  /**
   * What a section says survives chunking: the chunks come in a run per section, under its own path,
   * and without their overlaps they are its paragraphs.
   */
  lemma SectionLossless(lim: ChunkLimits, docId: string, secs: seq<Section>, markdown: bool, i: nat)
    requires i < |secs| && Spared(lim, markdown, secs[i].content)
    ensures var runs := Runs(docId, secs, FillerFor(lim, markdown));
            && Chained(runs) == Lay(docId, secs, FillerFor(lim, markdown))
            && (forall k :: 0 <= k < |runs[i]| ==> runs[i][k].sectionPath == secs[i].path)
            && Unlapped(ChunkTexts(runs[i])) == Paragraphs(secs[i].content)
  {
    RunsMakeLay(docId, secs, FillerFor(lim, markdown));
    RunAt(docId, secs, FillerFor(lim, markdown), i);
    SparedTexts(lim, markdown, secs[i].content);
  }

  // ---- The method -------------------------------------------------------------------------

  lemma LayNext(docId: string, secs: seq<Section>, i: nat, texts: string -> seq<string>)
    requires i < |secs|
    ensures var done := Lay(docId, secs[..i], texts);
            Lay(docId, secs[..i + 1], texts) == done + Numbered(docId, |done|, secs[i].path, texts(secs[i].content))
  {
    assert secs[..i + 1][..i] == secs[..i];
  }

  /** `breadcrumb[:level - 1] + [heading]`. */
  function Crumbed(b: seq<string>, h: Heading): seq<string>
    requires 1 <= h.level
  {
    (if |b| <= h.level - 1 then b else b[..h.level - 1]) + [h.title]
  }

  /** The loop's breadcrumb before heading `i`. */
  function Trail(hs: seq<Heading>, i: nat): seq<string>
    requires i <= |hs| && HasLevels(hs)
  {
    if i == 0 then [] else Titles(hs, Crumb(hs, i - 1))
  }

  lemma TrailStep(hs: seq<Heading>, i: nat)
    requires i < |hs| && HasLevels(hs)
    ensures Trail(hs, i + 1) == Crumbed(Trail(hs, i), hs[i])
    ensures Path(hs, i) == Join(" > ", Trail(hs, i + 1))
  {}

  /** The chunks of the first `i` markdown sections. */
  function LaidMarkdown(lim: ChunkLimits, text: string, docId: string, hs: seq<Heading>, i: nat): seq<Chunk>
    requires ValidHeadings(text, hs) && i <= |hs|
  {
    Lay(docId, MarkdownSections(text, hs)[..i], MarkdownFiller(lim))
  }

  lemma MarkdownStep(lim: ChunkLimits, text: string, docId: string, hs: seq<Heading>, i: nat)
    requires ValidHeadings(text, hs) && i < |hs|
    ensures var content, done := Strip(HeadingText(text, hs, i)), LaidMarkdown(lim, text, docId, hs, i);
            && content != ""
            && LaidMarkdown(lim, text, docId, hs, i + 1)
                 == done + Numbered(docId, |done|, Path(hs, i), MarkdownTexts(lim, content))
  {
    HeadingPiece(text, hs, i);
    LayNext(docId, MarkdownSections(text, hs), i, MarkdownFiller(lim));
  }

  lemma LaidAll(lim: ChunkLimits, text: string, docId: string, hs: seq<Heading>)
    requires ValidHeadings(text, hs)
    ensures LaidMarkdown(lim, text, docId, hs, 0) == []
    ensures LaidMarkdown(lim, text, docId, hs, |hs|) == Lay(docId, MarkdownSections(text, hs), MarkdownFiller(lim))
  {
    assert MarkdownSections(text, hs)[..|hs|] == MarkdownSections(text, hs);
  }

  lemma NumberedOne(docId: string, idx: nat, path: string, content: string)
    ensures Numbered(docId, idx, path, [content]) == [Chunk(docId, idx, content, path)]
  {}

  /** The chunks of one markdown section. */
  method SectionChunks(lim: ChunkLimits, content: string, docId: string, startIdx: nat, path: string)
    returns (chunks: seq<Chunk>, idx: nat)
    ensures chunks == Numbered(docId, startIdx, path, MarkdownTexts(lim, content))
    ensures idx == startIdx + |chunks|
  {
    if |content| <= lim.maxChars {
      NumberedOne(docId, startIdx, path, content);
      chunks, idx := [Chunk(docId, startIdx, content, path)], startIdx + 1;
    } else {
      chunks, idx := ParaChunks(lim, content, docId, startIdx, path);
    }
  }

  /** The markdown path of `chunk_text`. */
  method ChunkMarkdown(lim: ChunkLimits, text: string, docId: string, hs: seq<Heading>) returns (chunks: seq<Chunk>)
    requires ValidHeadings(text, hs)
    ensures chunks == Lay(docId, MarkdownSections(text, hs), MarkdownFiller(lim))
  {
    LaidAll(lim, text, docId, hs);
    chunks := [];
    var breadcrumb: seq<string> := [];
    var idx := 0;
    for i := 0 to |hs|
      invariant breadcrumb == Trail(hs, i)
      invariant chunks == LaidMarkdown(lim, text, docId, hs, i)
      invariant idx == |chunks|
    {
      TrailStep(hs, i);
      MarkdownStep(lim, text, docId, hs, i);
      var content := Strip(HeadingText(text, hs, i));
      if content != "" {
        breadcrumb := Crumbed(breadcrumb, hs[i]);
        var newChunks;
        newChunks, idx := SectionChunks(lim, content, docId, idx, Join(" > ", breadcrumb));
        chunks := chunks + newChunks;
      }
    }
  }

  /** The boundaries in order of position, without those too close to the last one kept. */
  method SpaceOut(boundaries: seq<Boundary>) returns (kept: seq<Boundary>)
    ensures kept == Kept(boundaries)
  {
    kept := [];
    for i := 0 to |boundaries|
      invariant kept == Kept(boundaries[..i])
    {
      assert boundaries[..i + 1][..i] == boundaries[..i];
      if kept == [] || boundaries[i].pos - kept[|kept| - 1].pos > MIN_GAP {
        kept := kept + [boundaries[i]];
      }
    }
    assert boundaries[..|boundaries|] == boundaries;
  }

  /** The boundaries of the article path: located, sorted, and spaced out. */
  method FindBoundaries(text: string, anchors: seq<Anchor>) returns (kept: seq<Boundary>)
    ensures kept == KeptIn(text, anchors)
  {
    var boundaries: seq<Boundary> := [];
    for i := 0 to |anchors|
      invariant boundaries == Located(text, anchors[..i])
    {
      assert anchors[..i + 1][..i] == anchors[..i];
      var pos := FindAnchor(text, Strip(anchors[i].anchor));
      if pos != -1 {
        boundaries := boundaries + [Boundary(pos, Strip(anchors[i].name))];
      }
    }
    assert anchors[..|anchors|] == anchors;
    kept := SpaceOut(StableSort(PosKey(), boundaries));
  }

  lemma PlanNext(text: string, ks: seq<Boundary>, fallback: string, i: nat, end: nat, done: seq<Section>)
    requires i < |ks| && Ascending(Starts(ks), |text|) && Ascending(Starts(Plan(ks, fallback)), |text|)
    requires end == if i + 1 < |ks| then ks[i + 1].pos else |text|
    ensures ks[i].pos <= end <= |text|
    ensures var plan := Plan(ks, fallback);
            var d := |plan| - |ks|;
            var added := done + Titled(ks[i].name, text[ks[i].pos..end]);
            done + LabelledSections(text, plan, i + d) == added + LabelledSections(text, plan, i + d + 1)
  {
    var plan := Plan(ks, fallback);
    var d := |plan| - |ks|;
    assert plan[i + d] == ks[i] && (i + 1 < |ks| ==> plan[i + d + 1] == ks[i + 1]);
    assert Starts(plan)[i + d] == ks[i].pos;
    assert i + 1 < |ks| ==> Starts(plan)[i + d + 1] == ks[i + 1].pos;
    Assoc(done, Titled(ks[i].name, text[ks[i].pos..end]), LabelledSections(text, plan, i + d + 1));
  }

  lemma PlanPreamble(text: string, ks: seq<Boundary>, fallback: string)
    requires ks != [] && Ascending(Starts(Plan(ks, fallback)), |text|) && ks[0].pos > MIN_GAP
    ensures ks[0].pos <= |text|
    ensures LabelledSections(text, Plan(ks, fallback), 0)
         == Titled(fallback, text[..ks[0].pos]) + LabelledSections(text, Plan(ks, fallback), 1)
  {
    var plan := Plan(ks, fallback);
    assert plan[0] == Boundary(0, fallback) && plan[1] == ks[0];
    assert Starts(plan)[0] == 0 && Starts(plan)[1] == ks[0].pos;
  }

  /** The sections of the article path, in a list. */
  method CollectSections(text: string, kept: seq<Boundary>, fallback: string) returns (sections: seq<Section>)
    requires kept != [] && Ascending(Starts(kept), |text|) && Ascending(Starts(Plan(kept, fallback)), |text|)
    ensures sections == LabelledSections(text, Plan(kept, fallback), 0)
  {
    ghost var plan := Plan(kept, fallback);
    ghost var d := |plan| - |kept|;
    sections := [];
    if kept[0].pos > MIN_GAP {
      PlanPreamble(text, kept, fallback);
      sections := Titled(fallback, text[..kept[0].pos]);
    }
    for i := 0 to |kept|
      invariant sections + LabelledSections(text, plan, i + d) == LabelledSections(text, plan, 0)
    {
      var end := if i + 1 < |kept| then kept[i + 1].pos else |text|;
      PlanNext(text, kept, fallback, i, end, sections);
      sections := sections + Titled(kept[i].name, text[kept[i].pos..end]);
    }
  }

  /** The article path of `chunk_text` once boundaries were found. */
  method ChunkArticle(lim: ChunkLimits, text: string, docId: string, kept: seq<Boundary>, fallback: string)
    returns (chunks: seq<Chunk>)
    requires kept != [] && Ascending(Starts(kept), |text|) && Ascending(Starts(Plan(kept, fallback)), |text|)
    ensures chunks == Lay(docId, LabelledSections(text, Plan(kept, fallback), 0), Filler(lim))
  {
    var sections := CollectSections(text, kept, fallback);
    chunks := [];
    var idx := 0;
    for i := 0 to |sections|
      invariant chunks == Lay(docId, sections[..i], Filler(lim)) && idx == |chunks|
    {
      LayNext(docId, sections, i, Filler(lim));
      var newChunks;
      newChunks, idx := ParaChunks(lim, sections[i].content, docId, idx, sections[i].path);
      chunks := chunks + newChunks;
    }
    assert sections[..|sections|] == sections;
  }

  /** `chunk_text`. */
  method ChunkText(lim: ChunkLimits, text: string, docId: string, anchors: seq<Anchor>, hs: seq<Heading>)
    returns (chunks: seq<Chunk>)
    requires ValidHeadings(text, hs)
    ensures chunks == ChunkSpec(lim, text, docId, anchors, hs)
    ensures ChunksOf(lim, text, docId, chunks)
  {
    var fallback := "";
    if hs != [] {
      chunks := ChunkMarkdown(lim, text, docId, hs);
    } else {
      fallback := FallbackLabel(anchors);
      var kept := FindBoundaries(text, anchors);
      KeptStarts(text, anchors);
      if kept == [] {
        var idx;
        chunks, idx := ParaChunks(lim, text, docId, 0, fallback);
      } else {
        PlanFacts(text, kept, fallback);
        chunks := ChunkArticle(lim, text, docId, kept, fallback);
      }
    }
    if chunks == [] {
      chunks := [Chunk(docId, 0, Strip(text), fallback)];
    }
    ChunkTextFacts(lim, text, docId, anchors, hs);
  }
}
