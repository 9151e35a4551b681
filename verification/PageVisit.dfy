/** One page of a source: recognised, dropped, or chunked and written. */
module PageVisit {
  import opened ParagraphFiller
  import opened Breadcrumbs
  import opened Chunker
  import opened PointStore
  import opened VectorStore
  import opened WriteAttempts

  const MIN_TEXT: nat := 50

  /** What the classifier, or its fallback, says about a page. */
  datatype Verdict = Verdict(keep: bool, anchors: seq<Anchor>)

  /** The fetched text of a page, with its headings. */
  datatype Fetched = Fetched(docId: string, sourceId: string, text: string, headings: seq<Heading>)

  /** A version of the page as the store will know it. */
  function PageOf(lim: ChunkLimits, encode: string -> Vector, hash: string -> string, f: Fetched, v: Verdict, now: int): Page
    requires ValidHeadings(f.text, f.headings)
  {
    var cs := ChunkSpec(lim, f.text, f.docId, v.anchors, f.headings);
    Page(f.docId, f.sourceId, hash(f.text), now, cs, Encoded(encode, ChunkTexts(cs)))
  }

  /** SHA-256 in hexadecimal is never empty. */
  ghost predicate IsDigest(hash: string -> string) {
    forall t :: hash(t) != ""
  }

  ghost predicate Injective(hash: string -> string) {
    forall t, u :: hash(t) == hash(u) ==> t == u
  }

  lemma PageIsValid(lim: ChunkLimits, encode: string -> Vector, hash: string -> string, f: Fetched, v: Verdict, now: int)
    requires ValidHeadings(f.text, f.headings) && IsDigest(hash)
    ensures ValidPage(PageOf(lim, encode, hash, f, v, now))
  {
    ChunkTextFacts(lim, f.text, f.docId, v.anchors, f.headings);
  }

  /** While the chunk counts of a page never shrink, a text is skipped exactly when it is the text written last. */
  lemma RecognisedMeansSameText(ws: seq<Page>, texts: seq<string>, hash: string -> string, d: string, text: string)
    requires ValidHistory(ws) && Injective(hash) && |texts| == |ws|
    requires forall j :: 0 <= j < |ws| ==> ws[j].pageHash == hash(texts[j])
    requires NeverShrinks(ws, d) && LastOf(ws, |ws|, d) >= 0
    ensures Unchanged(Replay(ws), d, hash(text)) <==> text == texts[LastOf(ws, |ws|, d)]
  {
    GrowingRecognisesOnlyLatest(ws, d, hash(text));
  }

  datatype VisitEnd = TooShort | Recognised | Dropped | Written(outcome: Outcome)

  /**
   * `process_one` once the page is fetched; the store may be unreachable when it is asked for the page.
   * Whatever happens, the visit is an attempt to write the page, of which `written` points were written.
   */
  method ProcessPage(coll: Collection, lim: ChunkLimits, ghost encode: string -> Vector, hash: string -> string,
                     f: Fetched, v: Verdict, now: int, reachable: bool, embeds: EmbedCalls, writes: WriteCalls)
    returns (r: VisitEnd, ghost written: nat)
    requires ValidHeadings(f.text, f.headings) && IsDigest(hash)
    requires AnswersFor(encode, ChunkTexts(ChunkSpec(lim, f.text, f.docId, v.anchors, f.headings)), embeds)
    modifies coll
    ensures var w := PageOf(lim, encode, hash, f, v, now);
            match r
            case TooShort => coll.points == old(coll.points)
            case Recognised => coll.points == old(coll.points)
            case Dropped => coll.points == old(coll.points)
            case Written(Upserted(n)) => n == |w.chunks| && coll.points == Put(old(coll.points), w)
            case Written(EmbeddingFailed) => coll.points == old(coll.points)
            case Written(WriteFailed(i)) =>
              && i < |w.chunks| && i % 100 == 0
              && coll.points == WriteAll(old(coll.points), PointsOf(w)[..WrittenBy(writes, i, |w.chunks|)])
    ensures r.TooShort? <==> |f.text| < 50
    ensures r.Recognised? <==> !r.TooShort? && reachable && Unchanged(old(coll.points), f.docId, hash(f.text))
    ensures r.Dropped? <==> !r.TooShort? && !r.Recognised? && !v.keep
    ensures r.Written? && r.outcome.Upserted? ==>
              var chunks := ChunkSpec(lim, f.text, f.docId, v.anchors, f.headings);
              AllStored(encode, coll.points, f.docId, chunks, f.sourceId, hash(f.text), now)
    ensures ValidPage(PageOf(lim, encode, hash, f, v, now))
    ensures written <= |PageOf(lim, encode, hash, f, v, now).chunks|
    ensures coll.points == WritePart(old(coll.points), PageOf(lim, encode, hash, f, v, now), written)
    ensures reachable && (r.Recognised? || (r.Written? && r.outcome.Upserted?)) ==>
              coll.points == Visit(old(coll.points), PageOf(lim, encode, hash, f, v, now))
  {
    PageIsValid(lim, encode, hash, f, v, now);
    ghost var w := PageOf(lim, encode, hash, f, v, now);
    assert PointsOf(w)[..0] == [] && PointsOf(w)[..|w.chunks|] == PointsOf(w);
    if |f.text| < MIN_TEXT { return TooShort, 0; }
    var found := coll.IsPageUnchanged(f.docId, hash(f.text), reachable);
    if found { return Recognised, 0; }
    if !v.keep { return Dropped, 0; }
    var chunks := ChunkText(lim, f.text, f.docId, v.anchors, f.headings);
    var outcome := coll.UpsertChunks(encode, chunks, f.sourceId, hash(f.text), now, embeds, writes);
    ghost var n := match outcome
      case Upserted(_) => |w.chunks|
      case EmbeddingFailed => 0
      case WriteFailed(i) => WrittenBy(writes, i, |w.chunks|);
    return Written(outcome), n;
  }
}
