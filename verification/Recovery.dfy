/** What the chunks of a whole text give back of it. */
module Recovery {
  import opened Text
  import opened ParagraphFiller
  import opened Breadcrumbs
  import opened Chunker

  // ---- White space at the ends of a text makes no difference to its paragraphs --------------

  lemma {:induction false} SkipSpaceShift(s: string, j: nat)
    requires 1 <= j <= |s|
    ensures SkipSpace(s[1..], j - 1) == SkipSpace(s, j) - 1
    decreases |s| - j
  {
    if j < |s| && IsSpace(s[j]) { SkipSpaceShift(s, j + 1); }
  }

  lemma {:induction false} TrimEndShift(s: string, lo: nat, hi: nat)
    requires 1 <= lo <= hi <= |s|
    ensures TrimEnd(s[1..], lo - 1, hi - 1) == TrimEnd(s, lo, hi) - 1
  {
    if lo < hi && IsSpace(s[hi - 1]) { TrimEndShift(s, lo, hi - 1); }
  }

  lemma {:induction false} NextBreakShift(s: string, j: nat)
    requires 1 <= j <= |s|
    ensures NextBreak(s[1..], j - 1) == NextBreak(s, j) - 1
    decreases |s| - j
  {
    assert BreakAt(s[1..], j - 1) <==> BreakAt(s, j);
    if j < |s| && !BreakAt(s, j) { NextBreakShift(s, j + 1); }
  }

  lemma {:induction false} RunEndShift(s: string, j: nat)
    requires 1 <= j <= |s|
    ensures RunEnd(s[1..], j - 1) == RunEnd(s, j) - 1
    decreases |s| - j
  {
    if j < |s| && s[j] == '\n' { RunEndShift(s, j + 1); }
  }

  lemma StripSpaceCons(s: string)
    requires s != "" && IsSpace(s[0])
    ensures Strip(s[1..]) == Strip(s) && Nonblank(s[1..]) == Nonblank(s)
  {
    SkipSpaceShift(s, 1);
    var lo := SkipSpace(s, 1);
    TrimEndShift(s, lo, |s|);
    assert s[1..][lo - 1..TrimEnd(s, lo, |s|) - 1] == s[lo..TrimEnd(s, lo, |s|)];
  }

  /** Newlines at the start only lengthen a break. */
  lemma DoubleNewline(s: string)
    requires BreakAt(s, 0)
    ensures Paragraphs(s) == Paragraphs(s[RunEnd(s, 2)..])
  {
    StripFacts("");
    assert NextBreak(s, 0) == 0;
    assert s[..0] == "";
  }

  lemma {:induction false} LeadingSpace(s: string)
    requires s != "" && IsSpace(s[0])
    ensures Paragraphs(s[1..]) == Paragraphs(s)
    decreases |s|
  {
    var t := s[1..];
    if BreakAt(s, 0) {
      DoubleNewline(s);
      RunEndShift(s, 2);
      if BreakAt(t, 0) {
        DoubleNewline(t);
        assert t[RunEnd(t, 2)..] == s[RunEnd(s, 2)..] by { RunEndShift(s, 3); }
      } else {
        LeadingSpace(t);
        assert RunEnd(s, 2) == 2 && t[1..] == s[2..];
      }
    } else {
      NextBreakShift(s, 1);
      var i := NextBreak(s, 1);
      assert NextBreak(s, 0) == i;
      if i == |s| {
        StripSpaceCons(s);
      } else {
        LeadingHead(s, i);
      }
    }
  }

  /** The parts around the first break are the same for both, up to the white space. */
  lemma LeadingParts(s: string, i: nat)
    requires s != "" && IsSpace(s[0]) && 1 <= i && i + 2 <= |s|
    ensures RunEnd(s[1..], i + 1) + 1 == RunEnd(s, i + 2)
    ensures s[1..][RunEnd(s[1..], i + 1)..] == s[RunEnd(s, i + 2)..]
    ensures Nonblank(s[1..][..i - 1]) == Nonblank(s[..i])
  {
    var h := s[..i];
    assert s[1..][..i - 1] == h[1..];
    StripSpaceCons(h);
    RunEndShift(s, i + 2);
  }

  lemma SameParagraphs(s: string, i: nat, t: string, j: nat)
    requires i == NextBreak(s, 0) < |s| && j == NextBreak(t, 0) < |t|
    requires Nonblank(t[..j]) == Nonblank(s[..i]) && t[RunEnd(t, j + 2)..] == s[RunEnd(s, i + 2)..]
    ensures Paragraphs(t) == Paragraphs(s)
  {
    var rest := s[RunEnd(s, i + 2)..];
    ParagraphsUnfold(s, i, s[..i], rest);
    ParagraphsUnfold(t, j, t[..j], rest);
  }

  lemma LeadingHead(s: string, i: nat)
    requires s != "" && IsSpace(s[0]) && 1 <= i < |s| && BreakAt(s, i)
    requires NextBreak(s, 0) == i && NextBreak(s[1..], 0) == i - 1
    ensures Paragraphs(s[1..]) == Paragraphs(s)
  {
    LeadingParts(s, i);
    SameParagraphs(s, i, s[1..], i - 1);
  }

  lemma {:induction false} NextBreakSnoc(s: string, c: char, i: nat)
    requires i <= |s| && NextBreak(s, i) < |s|
    ensures NextBreak(s + [c], i) == NextBreak(s, i)
    decreases |s| - i
  {
    assert BreakAt(s, i) ==> BreakAt(s + [c], i);
    if !BreakAt(s, i) {
      assert i + 1 < |s| && !BreakAt(s + [c], i);
      NextBreakSnoc(s, c, i + 1);
    }
  }

  lemma {:induction false} RunEndSnoc(s: string, c: char, i: nat)
    requires i <= |s|
    ensures RunEnd(s + [c], i) == if RunEnd(s, i) == |s| && c == '\n' then |s| + 1 else RunEnd(s, i)
    decreases |s| - i
  {
    if i < |s| && s[i] == '\n' { RunEndSnoc(s, c, i + 1); }
  }

  lemma NonblankSpaceSnoc(s: string, c: char)
    requires IsSpace(c)
    ensures Nonblank(s + [c]) == Nonblank(s)
  {
    StripSpaceSnoc(s, c);
  }

  /** White space at the end changes nothing up to the rest behind the first break. */
  lemma TrailingParts(s: string, c: char, i: nat)
    requires i == NextBreak(s, 0) < |s|
    ensures NextBreak(s + [c], 0) == i && (s + [c])[..i] == s[..i]
    ensures var rest, t := s[RunEnd(s, i + 2)..], s + [c];
            t[RunEnd(t, i + 2)..] == if rest != "" then rest + [c] else if c == '\n' then "" else [c]
  {
    NextBreakSnoc(s, c, 0);
    RunEndSnoc(s, c, i + 2);
  }

  lemma TrailingUnfold(s: string, c: char, i: nat, rest: string)
    requires i == NextBreak(s, 0) < |s| && rest == s[RunEnd(s, i + 2)..] && rest != ""
    ensures Paragraphs(s + [c]) == Nonblank(s[..i]) + Paragraphs(rest + [c])
  {
    TrailingParts(s, c, i);
    ParagraphsUnfold(s + [c], i, s[..i], rest + [c]);
  }

  lemma TrailingBreak(s: string, c: char, i: nat)
    requires IsSpace(c) && i == NextBreak(s, 0) < |s| && s[RunEnd(s, i + 2)..] == ""
    ensures Paragraphs(s + [c]) == Nonblank(s[..i])
  {
    TrailingParts(s, c, i);
    var r := if c == '\n' then "" else [c];
    ParagraphsUnfold(s + [c], i, s[..i], r);
    BlankRest(r);
  }

  lemma {:induction false} TrailingSpace(s: string, c: char)
    requires IsSpace(c)
    ensures Paragraphs(s + [c]) == Paragraphs(s)
    decreases |s|
  {
    var i := NextBreak(s, 0);
    if i < |s| {
      var rest := s[RunEnd(s, i + 2)..];
      ParagraphsUnfold(s, i, s[..i], rest);
      if rest != "" {
        TrailingUnfold(s, c, i, rest);
        TrailingSpace(rest, c);
      } else {
        TrailingBreak(s, c, i);
        BlankRest(rest);
      }
    } else {
      NextBreakIsFirst(s, 0);
      LastBreak(s, c);
    }
  }

  lemma BlankRest(r: string)
    requires Blank(r)
    ensures Paragraphs(r) == []
  {
    NonblankHasParagraph(r);
  }

  lemma NewlineTwice(h: string, s: string)
    requires Unbroken(s) && s == h + "\n"
    ensures Paragraphs(s + "\n") == Nonblank(s)
  {
    var t := s + "\n";
    NonblankSpaceSnoc(h, '\n');
    forall j | 0 <= j < |h| ensures !BreakAt(t, j) { assert !BreakAt(s, j); }
    BreakAtEnd(t, |h|);
    assert t[..|h|] == h;
    BlankRest("");
  }

  /** A text without breaks, and one character of white space: at most they make a break together. */
  lemma LastBreak(s: string, c: char)
    requires IsSpace(c) && Unbroken(s)
    ensures Paragraphs(s + [c]) == Paragraphs(s)
  {
    var t := s + [c];
    ParagraphsOfUnbroken(s);
    NonblankSpaceSnoc(s, c);
    if s != "" && s[|s| - 1] == '\n' && c == '\n' {
      NewlineTwice(s[..|s| - 1], s);
    } else {
      forall j | 0 <= j < |t| ensures !BreakAt(t, j) { assert !BreakAt(s, j); }
      ParagraphsOfUnbroken(t);
    }
  }

  lemma BreakAtEnd(t: string, n: nat)
    requires |t| == n + 2 && BreakAt(t, n) && forall j :: 0 <= j < n ==> !BreakAt(t, j)
    ensures Paragraphs(t) == Nonblank(t[..n]) + Paragraphs("")
  {
    NextBreakIsFirst(t, 0);
    assert t[RunEnd(t, n + 2)..] == "";
    ParagraphsUnfold(t, n, t[..n], "");
  }

  lemma {:induction false} DropLeading<T>(f: string -> T, w: string, s: string)
    requires Blank(w) && forall x :: x != "" && IsSpace(x[0]) ==> f(x[1..]) == f(x)
    ensures f(w + s) == f(s)
    decreases |w|
  {
    if w == "" {
      assert w + s == s;
    } else {
      assert f((w + s)[1..]) == f(w + s) && (w + s)[1..] == w[1..] + s;
      DropLeading(f, w[1..], s);
    }
  }

  lemma {:induction false} DropTrailing<T>(f: string -> T, s: string, w: string)
    requires Blank(w) && forall x, c :: IsSpace(c) ==> f(x + [c]) == f(x)
    ensures f(s + w) == f(s)
    decreases |w|
  {
    if w == "" {
      assert s + w == s;
    } else {
      DropTrailing(f, s + [w[0]], w[1..]);
      assert s + [w[0]] + w[1..] == s + w;
    }
  }

  lemma StripParts(s: string) returns (w: string, v: string)
    ensures Blank(w) && Blank(v) && s == w + Strip(s) + v
  {
    var lo := SkipSpace(s, 0);
    var hi := TrimEnd(s, lo, |s|);
    SkipSpaceFacts(s, 0);
    TrimEndFacts(s, lo, |s|);
    w, v := s[..lo], s[hi..];
  }

  /** Stripping a text keeps its paragraphs. */
  lemma ParagraphsOfStrip(s: string)
    ensures Paragraphs(Strip(s)) == Paragraphs(s)
  {
    var w, v := StripParts(s);
    forall x | x != "" && IsSpace(x[0]) ensures Paragraphs(x[1..]) == Paragraphs(x) { LeadingSpace(x); }
    forall x, c | IsSpace(c) ensures Paragraphs(x + [c]) == Paragraphs(x) { TrailingSpace(x, c); }
    DropTrailing(Paragraphs, w + Strip(s), v);
    DropLeading(Paragraphs, w, Strip(s));
  }

  // ---- Texts, parts, and runs of chunks ------------------------------------------------------

  function FlatMap<A, B>(f: A -> seq<B>, xs: seq<A>): seq<B> {
    if xs == [] then [] else FlatMap(f, xs[..|xs| - 1]) + f(xs[|xs| - 1])
  }

  lemma {:induction false} FlatMapAppend<A, B>(f: A -> seq<B>, xs: seq<A>, ys: seq<A>)
    ensures FlatMap(f, xs + ys) == FlatMap(f, xs) + FlatMap(f, ys)
  {
    if ys == [] {
      assert xs + ys == xs;
    } else {
      FlatMapAppend(f, xs, ys[..|ys| - 1]);
      assert (xs + ys)[..|xs + ys| - 1] == xs + ys[..|ys| - 1];
    }
  }

  lemma FlatMapOne<A, B>(f: A -> seq<B>, x: A)
    ensures FlatMap(f, [x]) == f(x)
  {
    assert [x][..0] == [];
  }

  /** Piecewise as long, the results are the same exactly if they are so piece by piece. */
  lemma {:induction false} FlatMapSameIff<A, B, C>(f: A -> seq<C>, xs: seq<A>, g: B -> seq<C>, ys: seq<B>)
    requires |xs| == |ys| && forall i :: 0 <= i < |xs| ==> |f(xs[i])| == |g(ys[i])|
    ensures |FlatMap(f, xs)| == |FlatMap(g, ys)|
    ensures FlatMap(f, xs) == FlatMap(g, ys) <==> forall i :: 0 <= i < |xs| ==> f(xs[i]) == g(ys[i])
  {
    if xs != [] {
      var n := |xs| - 1;
      FlatMapSameIff(f, xs[..n], g, ys[..n]);
      AppendInjective(FlatMap(f, xs[..n]), f(xs[n]), FlatMap(g, ys[..n]), g(ys[n]));
      assert (forall i :: 0 <= i < |xs| ==> f(xs[i]) == g(ys[i])) ==> forall i :: 0 <= i < n ==> f(xs[..n][i]) == g(ys[..n][i]);
    }
  }

  /** The paragraphs of several texts, one text after the other. */
  function AllParagraphs(ss: seq<string>): seq<string> {
    FlatMap(Paragraphs, ss)
  }

  function RunText(run: seq<Chunk>): seq<string> {
    Unlapped(ChunkTexts(run))
  }

  /** What runs of chunks give back, the overlaps within each run dropped. */
  function GivenBack(runs: seq<seq<Chunk>>): seq<string> {
    FlatMap(RunText, runs)
  }

  lemma ParagraphsOfNonblank(s: string)
    ensures AllParagraphs(Nonblank(s)) == Paragraphs(s)
  {
    ParagraphsOfStrip(s);
    NonblankIff(s);
    NonblankHasParagraph(s);
    FlatMapOne(Paragraphs, Strip(s));
  }

  lemma StripOneKeeps(s: string, stripped: seq<string>, ss: seq<string>)
    requires AllParagraphs(stripped) == AllParagraphs(ss)
    ensures AllParagraphs(Nonblank(s) + stripped) == AllParagraphs([s] + ss)
  {
    ParagraphsOfNonblank(s);
    FlatMapOne(Paragraphs, s);
    FlatMapAppend(Paragraphs, Nonblank(s), stripped);
    FlatMapAppend(Paragraphs, [s], ss);
  }

  /** Stripping parts and leaving out the blank ones keeps all paragraphs. */
  lemma {:induction false} StripAllKeeps(ss: seq<string>)
    ensures AllParagraphs(StripAll(ss)) == AllParagraphs(ss)
  {
    if ss != [] {
      StripAllKeeps(ss[1..]);
      StripOneKeeps(ss[0], StripAll(ss[1..]), ss[1..]);
      assert [ss[0]] + ss[1..] == ss;
    }
  }

  /** Filling a section cuts nothing off: it is short markdown, or no group of its paragraphs is truncated. */
  ghost predicate Unclipped(lim: ChunkLimits, markdown: bool, content: string) {
    (markdown && |content| <= lim.maxChars) || NothingClipped(lim, Groups(lim, Paragraphs(content)))
  }

  lemma UnlappedOne(s: string)
    ensures Unlapped([s]) == Paragraphs(s)
  {
    assert [s][..0] == [];
  }

  /** The chunks of a section have its paragraphs, as many, and whole exactly if nothing was cut off. */
  lemma UnclippedIff(lim: ChunkLimits, markdown: bool, content: string)
    ensures var back := Unlapped(FillerFor(lim, markdown)(content));
            |back| == |Paragraphs(content)| && (back == Paragraphs(content) <==> Unclipped(lim, markdown, content))
  {
    if markdown && |content| <= lim.maxChars {
      UnlappedOne(content);
    } else {
      var gs := Groups(lim, Paragraphs(content));
      PiecesAreGreedy(lim, content, gs);
      UnlapGroups(lim, gs, Paragraphs(content));
    }
  }

  ghost predicate SectionsUnclipped(lim: ChunkLimits, markdown: bool, secs: seq<Section>) {
    forall i :: 0 <= i < |secs| ==> Unclipped(lim, markdown, secs[i].content)
  }

  lemma RunsGiveBackIff(lim: ChunkLimits, docId: string, secs: seq<Section>, markdown: bool)
    ensures GivenBack(Runs(docId, secs, FillerFor(lim, markdown))) == AllParagraphs(Contents(secs))
       <==> SectionsUnclipped(lim, markdown, secs)
  {
    var runs, contents := Runs(docId, secs, FillerFor(lim, markdown)), Contents(secs);
    forall i | 0 <= i < |secs|
      ensures |RunText(runs[i])| == |Paragraphs(contents[i])|
      ensures RunText(runs[i]) == Paragraphs(contents[i]) <==> Unclipped(lim, markdown, secs[i].content)
    {
      RunAt(docId, secs, FillerFor(lim, markdown), i);
      UnclippedIff(lim, markdown, secs[i].content);
    }
    FlatMapSameIff(RunText, runs, Paragraphs, contents);
  }

  // ---- The whole text ----------------------------------------------------------------------------

  /** Where `chunk_text` cuts a text. */
  function Cuts(text: string, anchors: seq<Anchor>, hs: seq<Heading>): seq<nat> {
    if hs != [] then Positions(hs)
    else if KeptIn(text, anchors) == [] then [0]
    else Starts(Plan(KeptIn(text, anchors), FallbackLabel(anchors)))
  }

  /** The cuts leave out nothing but the text before the first heading, or at most 80 characters. */
  lemma CutsFacts(text: string, anchors: seq<Anchor>, hs: seq<Heading>)
    requires ValidHeadings(text, hs)
    ensures var cuts := Cuts(text, anchors, hs);
            && Ascending(cuts, |text|) && cuts != []
            && (if hs != [] then cuts[0] == hs[0].pos else cuts[0] <= MIN_GAP)
            && Flatten(CutFrom(text, cuts, 0)) == text[cuts[0]..]
  {
    var cuts := Cuts(text, anchors, hs);
    if hs == [] && KeptIn(text, anchors) != [] {
      KeptStarts(text, anchors);
      PlanFacts(text, KeptIn(text, anchors), FallbackLabel(anchors));
    }
    CutsTile(text, cuts, 0);
  }

  /** The parts that a text is cut into. */
  function TextParts(text: string, anchors: seq<Anchor>, hs: seq<Heading>): (parts: seq<string>)
    requires ValidHeadings(text, hs)
    ensures Ascending(Cuts(text, anchors, hs), |text|) && parts == CutFrom(text, Cuts(text, anchors, hs), 0)
  {
    CutsFacts(text, anchors, hs);
    CutFrom(text, Cuts(text, anchors, hs), 0)
  }

  /** The sections of a text that is cut, in whichever way. */
  function SectionsOf(text: string, anchors: seq<Anchor>, hs: seq<Heading>): seq<Section>
    requires ValidHeadings(text, hs) && (hs != [] || KeptIn(text, anchors) != [])
  {
    if hs != [] then MarkdownSections(text, hs)
    else
      KeptStarts(text, anchors);
      PlanFacts(text, KeptIn(text, anchors), FallbackLabel(anchors));
      LabelledSections(text, Plan(KeptIn(text, anchors), FallbackLabel(anchors)), 0)
  }

  lemma SectionsAreCuts(text: string, anchors: seq<Anchor>, hs: seq<Heading>)
    requires ValidHeadings(text, hs) && (hs != [] || KeptIn(text, anchors) != [])
    ensures Contents(SectionsOf(text, anchors, hs)) == StripAll(TextParts(text, anchors, hs))
  {
    if hs != [] {
      MarkdownSectionsTile(text, hs);
    } else {
      ArticleSectionsTile(text, anchors, FallbackLabel(anchors));
    }
  }

  lemma SectionsMakeChunks(lim: ChunkLimits, text: string, docId: string, anchors: seq<Anchor>, hs: seq<Heading>)
    requires ValidHeadings(text, hs) && (hs != [] || KeptIn(text, anchors) != [])
    ensures ChunkSpec(lim, text, docId, anchors, hs) == Lay(docId, SectionsOf(text, anchors, hs), FillerFor(lim, hs != []))
  {
    if hs != [] {
      MarkdownChunks(lim, text, docId, hs);
    } else {
      KeptStarts(text, anchors);
      PlanFacts(text, KeptIn(text, anchors), FallbackLabel(anchors));
      ArticleChunks(lim, text, docId, KeptIn(text, anchors), FallbackLabel(anchors));
    }
  }

  /** Filling cuts nothing off any of these parts. */
  ghost predicate AllUnclipped(lim: ChunkLimits, markdown: bool, ss: seq<string>) {
    forall i :: 0 <= i < |ss| ==> Unclipped(lim, markdown, Strip(ss[i]))
  }

  lemma {:induction false} StrippedPart(ss: seq<string>, i: nat) returns (j: nat)
    requires i < |StripAll(ss)|
    ensures j < |ss| && StripAll(ss)[i] == Strip(ss[j])
  {
    var head := Nonblank(ss[0]);
    if i < |head| {
      j := 0;
    } else {
      var k := StrippedPart(ss[1..], i - |head|);
      j := k + 1;
    }
  }

  lemma {:induction false} PartStripped(ss: seq<string>, j: nat) returns (i: nat)
    requires j < |ss| && Strip(ss[j]) != ""
    ensures i < |StripAll(ss)| && StripAll(ss)[i] == Strip(ss[j])
  {
    if j == 0 {
      i := 0;
    } else {
      var k := PartStripped(ss[1..], j - 1);
      i := |Nonblank(ss[0])| + k;
    }
  }

  lemma EmptyIsUnclipped(lim: ChunkLimits, markdown: bool)
    ensures Unclipped(lim, markdown, "")
  {
    NonblankHasParagraph("");
  }

  lemma PartsUnclippedIff(lim: ChunkLimits, markdown: bool, secs: seq<Section>, parts: seq<string>)
    requires Contents(secs) == StripAll(parts)
    ensures SectionsUnclipped(lim, markdown, secs) <==> AllUnclipped(lim, markdown, parts)
  {
    EmptyIsUnclipped(lim, markdown);
    if AllUnclipped(lim, markdown, parts) {
      forall i | 0 <= i < |secs| ensures Unclipped(lim, markdown, secs[i].content) {
        assert secs[i].content == Contents(secs)[i];
        var j := StrippedPart(parts, i);
      }
    }
    if SectionsUnclipped(lim, markdown, secs) {
      forall j | 0 <= j < |parts| ensures Unclipped(lim, markdown, Strip(parts[j])) {
        if Strip(parts[j]) != "" {
          var i := PartStripped(parts, j);
          assert secs[i].content == Contents(secs)[i];
        }
      }
    }
  }

  lemma WholeTexts(lim: ChunkLimits, text: string, docId: string, anchors: seq<Anchor>)
    requires KeptIn(text, anchors) == []
    ensures ChunkTexts(ChunkSpec(lim, text, docId, anchors, []))
         == if Pieces(lim, text) == [] then [Strip(text)] else Pieces(lim, text)
  {
    var path, ps := FallbackLabel(anchors), Pieces(lim, text);
    assert ChunkTexts(Numbered(docId, 0, path, ps)) == ps;
  }

  lemma WholeTextRunIff(lim: ChunkLimits, text: string, docId: string, anchors: seq<Anchor>)
    requires KeptIn(text, anchors) == []
    ensures RunText(ChunkSpec(lim, text, docId, anchors, [])) == Paragraphs(text) <==> Unclipped(lim, false, Strip(text))
  {
    WholeTexts(lim, text, docId, anchors);
    ParagraphsOfStrip(text);
    PiecesLosslessIff(lim, text);
    if Pieces(lim, text) == [] {
      PiecesBounds(lim, text);
      NonblankHasParagraph(text);
      UnlappedOne(Strip(text));
    }
  }

  lemma WholeCut(text: string)
    ensures Ascending([0], |text|) && CutFrom(text, [0], 0) == [text]
  {
    assert CutFrom(text, [0], 1) == [];
    assert CutPiece(text, [0], 0) == text;
  }

  lemma UncutIsGivenBackIff(lim: ChunkLimits, text: string, docId: string, anchors: seq<Anchor>)
    requires KeptIn(text, anchors) == []
    ensures GivenBack([ChunkSpec(lim, text, docId, anchors, [])]) == AllParagraphs([text])
       <==> AllUnclipped(lim, false, [text])
  {
    WholeTextRunIff(lim, text, docId, anchors);
    FlatMapOne(RunText, ChunkSpec(lim, text, docId, anchors, []));
    FlatMapOne(Paragraphs, text);
    assert AllUnclipped(lim, false, [text]) ==> Unclipped(lim, false, Strip([text][0]));
  }

  lemma CutIsGivenBackIff(lim: ChunkLimits, docId: string, secs: seq<Section>, markdown: bool, parts: seq<string>)
    requires Contents(secs) == StripAll(parts)
    ensures GivenBack(Runs(docId, secs, FillerFor(lim, markdown))) == AllParagraphs(parts) <==> AllUnclipped(lim, markdown, parts)
  {
    RunsGiveBackIff(lim, docId, secs, markdown);
    StripAllKeeps(parts);
    PartsUnclippedIff(lim, markdown, secs, parts);
  }

  /** The chunks of a text, a run per section. */
  function TextRuns(lim: ChunkLimits, text: string, docId: string, anchors: seq<Anchor>, hs: seq<Heading>): seq<seq<Chunk>>
    requires ValidHeadings(text, hs)
  {
    if hs == [] && KeptIn(text, anchors) == [] then [ChunkSpec(lim, text, docId, anchors, hs)]
    else Runs(docId, SectionsOf(text, anchors, hs), FillerFor(lim, hs != []))
  }

  /**
   * The chunks of a text, run after run, give back exactly the paragraphs of the parts the text is cut
   * into, in order, if and only if filling cuts nothing off any part. The parts tile the text from the
   * first cut on.
   */
  lemma TextIsGivenBackIff(lim: ChunkLimits, text: string, docId: string, anchors: seq<Anchor>, hs: seq<Heading>)
    requires ValidHeadings(text, hs)
    ensures Chained(TextRuns(lim, text, docId, anchors, hs)) == ChunkSpec(lim, text, docId, anchors, hs)
    ensures GivenBack(TextRuns(lim, text, docId, anchors, hs)) == AllParagraphs(TextParts(text, anchors, hs))
       <==> AllUnclipped(lim, hs != [], TextParts(text, anchors, hs))
  {
    if hs == [] && KeptIn(text, anchors) == [] {
      WholeCut(text);
      UncutIsGivenBackIff(lim, text, docId, anchors);
      assert TextRuns(lim, text, docId, anchors, hs)[..0] == [];
    } else {
      var secs := SectionsOf(text, anchors, hs);
      SectionsAreCuts(text, anchors, hs);
      SectionsMakeChunks(lim, text, docId, anchors, hs);
      CutIsGivenBackIff(lim, docId, secs, hs != [], TextParts(text, anchors, hs));
      RunsMakeLay(docId, secs, FillerFor(lim, hs != []));
    }
  }

  /** In particular if every part is short markdown or has small paragraphs. */
  lemma TextIsGivenBack(lim: ChunkLimits, text: string, docId: string, anchors: seq<Anchor>, hs: seq<Heading>)
    requires ValidHeadings(text, hs)
    requires forall i :: 0 <= i < |TextParts(text, anchors, hs)| ==> Spared(lim, hs != [], Strip(TextParts(text, anchors, hs)[i]))
    ensures GivenBack(TextRuns(lim, text, docId, anchors, hs)) == AllParagraphs(TextParts(text, anchors, hs))
  {
    var parts := TextParts(text, anchors, hs);
    TextIsGivenBackIff(lim, text, docId, anchors, hs);
    forall i | 0 <= i < |parts| ensures Unclipped(lim, hs != [], Strip(parts[i])) {
      SparedTexts(lim, hs != [], Strip(parts[i]));
      UnclippedIff(lim, hs != [], Strip(parts[i]));
    }
  }
}
