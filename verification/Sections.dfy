/** What the sections and the chunks of a text are, in terms of its headings and of the anchors found in it. */
module Sections {
  import opened Text
  import opened Sorting
  import opened ParagraphFiller
  import opened Breadcrumbs
  import opened Chunker

  // ---- Markdown sections -------------------------------------------------------------------

  /** A markdown section runs from its heading to the next, under the titles its breadcrumb stands for. */
  lemma MarkdownSectionMeans(text: string, hs: seq<Heading>, i: nat)
    requires ValidHeadings(text, hs) && i < |hs|
    ensures var end := if i + 1 < |hs| then hs[i + 1].pos else |text|;
            var crumb := Crumb(hs, i);
            && hs[i].pos < end <= |text|
            && MarkdownSections(text, hs)[i].content == Strip(text[hs[i].pos..end])
            && MarkdownSections(text, hs)[i].path
                 == Join(" > ", seq(|crumb|, k requires 0 <= k < |crumb| => hs[crumb[k]].title))
  {
    var crumb := Crumb(hs, i);
    assert Titles(hs, crumb) == seq(|crumb|, k requires 0 <= k < |crumb| => hs[crumb[k]].title);
    assert Positions(hs)[i] == hs[i].pos && (i + 1 < |hs| ==> Positions(hs)[i + 1] == hs[i + 1].pos);
  }

  /** Its chunks: a section of at most MAX_CHARS is one chunk, a longer one is filled by paragraphs. */
  lemma MarkdownChunksMean(lim: ChunkLimits, text: string, docId: string, anchors: seq<Anchor>, hs: seq<Heading>, i: nat)
    requires ValidHeadings(text, hs) && i < |hs|
    ensures var secs := MarkdownSections(text, hs);
            var runs, content := Runs(docId, secs, MarkdownFiller(lim)), secs[i].content;
            && Chained(runs) == ChunkSpec(lim, text, docId, anchors, hs)
            && ChunkTexts(runs[i]) == (if |content| <= lim.maxChars then [content] else Pieces(lim, content))
            && forall k :: 0 <= k < |runs[i]| ==> runs[i][k].sectionPath == secs[i].path
  {
    var secs := MarkdownSections(text, hs);
    RunsMakeLay(docId, secs, MarkdownFiller(lim));
    RunAt(docId, secs, MarkdownFiller(lim), i);
    MarkdownChunks(lim, text, docId, hs);
  }

  // ---- Boundaries are the anchors that were found -------------------------------------------

  /** Anchor `j` is found at `p`, and makes the boundary `b`. */
  predicate FoundAt(text: string, anchors: seq<Anchor>, j: int, b: Boundary) {
    0 <= j < |anchors| && FindAnchor(text, Strip(anchors[j].anchor)) == b.pos && b.name == Strip(anchors[j].name)
  }

  /** The boundaries of the anchors found at position `p`, in the order of the anchors. */
  function BoundariesAt(text: string, anchors: seq<Anchor>, p: nat): seq<Boundary> {
    if anchors == [] then []
    else
      var a := anchors[|anchors| - 1];
      BoundariesAt(text, anchors[..|anchors| - 1], p)
      + if FindAnchor(text, Strip(a.anchor)) == p then [Boundary(p, Strip(a.name))] else []
  }

  lemma WithPosition(bs: seq<Boundary>, b: Boundary, p: nat)
    ensures WithKey(PosKey(), p as real, bs + [b]) == WithKey(PosKey(), p as real, bs) + if b.pos == p then [b] else []
  {
    WithKeySnoc(PosKey(), p as real, bs, b);
    assert PosKey()(b) == b.pos as real;
  }

  lemma {:induction false} LocatedAt(text: string, anchors: seq<Anchor>, p: nat)
    ensures WithKey(PosKey(), p as real, Located(text, anchors)) == BoundariesAt(text, anchors, p)
  {
    if anchors != [] {
      var init, a := anchors[..|anchors| - 1], anchors[|anchors| - 1];
      var pos := FindAnchor(text, Strip(a.anchor));
      LocatedAt(text, init, p);
      if pos != -1 {
        var b := Boundary(pos, Strip(a.name));
        WithPosition(Located(text, init), b, p);
        assert Located(text, anchors) == Located(text, init) + [b];
      } else {
        assert Located(text, anchors) == Located(text, init);
      }
    }
  }

  /** The sorted boundaries at each position are those of all anchors found there, in the order of the anchors. */
  lemma SortedAt(text: string, anchors: seq<Anchor>, p: nat)
    ensures WithKey(PosKey(), p as real, Sorted(text, anchors)) == BoundariesAt(text, anchors, p)
  {
    SortStable(PosKey(), Located(text, anchors), p as real);
    LocatedAt(text, anchors, p);
  }

  lemma {:induction false} LocatedHas(text: string, anchors: seq<Anchor>, j: nat, b: Boundary)
    requires FoundAt(text, anchors, j, b)
    ensures b in Located(text, anchors)
  {
    if j < |anchors| - 1 { LocatedHas(text, anchors[..|anchors| - 1], j, b); }
  }

  lemma {:induction false} LocatedIsFound(text: string, anchors: seq<Anchor>, b: Boundary) returns (j: nat)
    requires b in Located(text, anchors)
    ensures FoundAt(text, anchors, j, b)
  {
    var init := anchors[..|anchors| - 1];
    if b in Located(text, init) { j := LocatedIsFound(text, init, b); } else { j := |anchors| - 1; }
  }

  lemma SortedSame(text: string, anchors: seq<Anchor>, b: Boundary)
    ensures b in Sorted(text, anchors) <==> b in Located(text, anchors)
  {
    SortedFound(text, anchors);
    assert b in Sorted(text, anchors) <==> b in multiset(Sorted(text, anchors));
    assert b in Located(text, anchors) <==> b in multiset(Located(text, anchors));
  }

  /** Every anchor that is found becomes a boundary, and lies at most 80 characters after one that is kept. */
  lemma AnchorIsNear(text: string, anchors: seq<Anchor>, j: nat)
    requires j < |anchors| && FindAnchor(text, Strip(anchors[j].anchor)) != -1
    ensures var p, ks := FindAnchor(text, Strip(anchors[j].anchor)), KeptIn(text, anchors);
            && Boundary(p, Strip(anchors[j].name)) in Sorted(text, anchors)
            && exists k :: 0 <= k < |ks| && ks[k].pos <= p <= ks[k].pos + 80
  {
    var b := Boundary(FindAnchor(text, Strip(anchors[j].anchor)), Strip(anchors[j].name));
    LocatedHas(text, anchors, j, b);
    SortedSame(text, anchors, b);
    LocatedIsNear(text, anchors, b);
  }

  lemma LocatedIsNear(text: string, anchors: seq<Anchor>, b: Boundary)
    requires b in Located(text, anchors)
    ensures Near(b, KeptIn(text, anchors))
  {
    var ls := Located(text, anchors);
    var i :| 0 <= i < |ls| && ls[i] == b;
    FoundAnchorsAreNear(text, anchors, i);
  }

  lemma KeptAreLocated(text: string, anchors: seq<Anchor>, k: nat)
    requires k < |KeptIn(text, anchors)|
    ensures KeptIn(text, anchors)[k] in Located(text, anchors)
  {
    KeptFromBounds(Sorted(text, anchors));
    SortedSame(text, anchors, KeptIn(text, anchors)[k]);
  }

  /** Every boundary that is kept has the position and the label of an anchor that was found. */
  lemma KeptIsAnchor(text: string, anchors: seq<Anchor>, k: nat) returns (j: nat)
    requires k < |KeptIn(text, anchors)|
    ensures j < |anchors| && FindAnchor(text, Strip(anchors[j].anchor)) == KeptIn(text, anchors)[k].pos
    ensures KeptIn(text, anchors)[k].name == Strip(anchors[j].name)
  {
    KeptAreLocated(text, anchors, k);
    j := LocatedIsFound(text, anchors, KeptIn(text, anchors)[k]);
  }

  /** They lie more than 80 characters apart, the first found anchor among them. */
  lemma KeptAreApart(text: string, anchors: seq<Anchor>)
    ensures var ks := KeptIn(text, anchors);
            && (forall i, k :: 0 <= i < k < |ks| ==> ks[k].pos > ks[i].pos + 80)
            && forall j :: 0 <= j < |anchors| && FindAnchor(text, Strip(anchors[j].anchor)) != -1 ==>
                 ks != [] && ks[0].pos <= FindAnchor(text, Strip(anchors[j].anchor))
  {
    var ks := KeptIn(text, anchors);
    KeptStarts(text, anchors);
    forall j | 0 <= j < |anchors| && FindAnchor(text, Strip(anchors[j].anchor)) != -1
      ensures ks != [] && ks[0].pos <= FindAnchor(text, Strip(anchors[j].anchor))
    {
      AnchorIsNear(text, anchors, j);
    }
  }

  // ---- Article sections ------------------------------------------------------------------------

  /** The section of the kept boundary `k`: the stripped text from it to the next, under its label. */
  predicate IsKeptSection(text: string, ks: seq<Boundary>, k: int, sec: Section) {
    && 0 <= k < |ks|
    && var end := if k + 1 < |ks| then ks[k + 1].pos else |text|;
       ks[k].pos <= end <= |text| && sec == Section(ks[k].name, Strip(text[ks[k].pos..end]))
  }

  lemma TitledIsKept(text: string, ks: seq<Boundary>, i: nat)
    requires i < |ks| && Ascending(Starts(ks), |text|)
    ensures IsKeptSection(text, ks, i, Section(ks[i].name, Strip(CutPiece(text, Starts(ks), i))))
  {
    assert Starts(ks)[i] == ks[i].pos && (i + 1 < |ks| ==> Starts(ks)[i + 1] == ks[i + 1].pos);
  }

  lemma {:induction false} LabelledIsKept(text: string, ks: seq<Boundary>, i: nat, n: nat) returns (k: nat)
    requires i <= |ks| && Ascending(Starts(ks), |text|) && n < |LabelledSections(text, ks, i)|
    ensures i <= k && IsKeptSection(text, ks, k, LabelledSections(text, ks, i)[n])
    decreases |ks| - i
  {
    var first := Titled(ks[i].name, CutPiece(text, Starts(ks), i));
    if n < |first| {
      k := i;
      TitledIsKept(text, ks, i);
    } else {
      k := LabelledIsKept(text, ks, i + 1, n - |first|);
    }
  }

  /** The label for text that belongs to no anchor. */
  predicate IsFallback(anchors: seq<Anchor>, path: string) {
    path == if anchors == [] then "Overview" else anchors[0].name
  }

  /** What a section of the plan is in terms of the kept boundaries, of which the preamble is none. */
  lemma PlanSection(text: string, anchors: seq<Anchor>, ks: seq<Boundary>, m: nat, sec: Section) returns (k: int)
    requires ks != [] && IsKeptSection(text, Plan(ks, FallbackLabel(anchors)), m, sec)
    ensures if k == -1 then IsFallback(anchors, sec.path) && 80 < ks[0].pos <= |text| && sec.content == Strip(text[..ks[0].pos])
            else IsKeptSection(text, ks, k, sec)
  {
    var plan := Plan(ks, FallbackLabel(anchors));
    if ks[0].pos <= 80 {
      assert plan == ks;
      k := m;
    } else {
      assert plan == [Boundary(0, FallbackLabel(anchors))] + ks;
      k := m - 1;
      if m == 0 {
        assert plan[1] == ks[0] && text[0..ks[0].pos] == text[..ks[0].pos];
      } else {
        assert plan[m] == ks[k] && (m + 1 < |plan| ==> plan[m + 1] == ks[k + 1]);
      }
    }
  }

  /** A section of an article has the label of an anchor found at its start, or is the preamble before all of them. */
  lemma ArticleSectionMeans(text: string, anchors: seq<Anchor>, secs: seq<Section>, n: nat) returns (k: int)
    requires KeptIn(text, anchors) != [] && Ascending(Starts(Plan(KeptIn(text, anchors), FallbackLabel(anchors))), |text|)
    requires secs == LabelledSections(text, Plan(KeptIn(text, anchors), FallbackLabel(anchors)), 0) && n < |secs|
    ensures var ks := KeptIn(text, anchors);
            if k == -1 then
              IsFallback(anchors, secs[n].path) && 80 < ks[0].pos <= |text| && secs[n].content == Strip(text[..ks[0].pos])
            else IsKeptSection(text, ks, k, secs[n])
  {
    var m := LabelledIsKept(text, Plan(KeptIn(text, anchors), FallbackLabel(anchors)), 0, n);
    k := PlanSection(text, anchors, KeptIn(text, anchors), m, secs[n]);
  }

  // ---- The section path of a chunk -------------------------------------------------------------

  lemma {:induction false} LayPath(docId: string, secs: seq<Section>, texts: string -> seq<string>, i: nat) returns (n: nat)
    requires i < |Lay(docId, secs, texts)|
    ensures n < |secs| && Lay(docId, secs, texts)[i].sectionPath == secs[n].path
  {
    var init := secs[..|secs| - 1];
    if i < |Lay(docId, init, texts)| { n := LayPath(docId, init, texts, i); } else { n := |secs| - 1; }
  }

  /** Without headings, each chunk is filed under the label of an anchor that was found, or under the fallback label. */
  lemma ChunkPathMeans(lim: ChunkLimits, text: string, docId: string, anchors: seq<Anchor>, i: nat)
    requires i < |ChunkSpec(lim, text, docId, anchors, [])|
    ensures var path := ChunkSpec(lim, text, docId, anchors, [])[i].sectionPath;
            || IsFallback(anchors, path)
            || exists j :: 0 <= j < |anchors| && FindAnchor(text, Strip(anchors[j].anchor)) != -1 && path == Strip(anchors[j].name)
  {
    var ks := KeptIn(text, anchors);
    if ks != [] {
      KeptStarts(text, anchors);
      PlanFacts(text, ks, FallbackLabel(anchors));
      ArticleChunks(lim, text, docId, ks, FallbackLabel(anchors));
      var secs := LabelledSections(text, Plan(ks, FallbackLabel(anchors)), 0);
      var n := LayPath(docId, secs, Filler(lim), i);
      var k := ArticleSectionMeans(text, anchors, secs, n);
      if k != -1 { var j := KeptIsAnchor(text, anchors, k); }
    }
  }
}
