/** What the vector store holds after page upserts, as a map from point names to payloads. */
module PointStore {
  import opened ParagraphFiller
  import opened Chunker
  import opened PointNames

  datatype Payload = Payload(chunk: Chunk, sourceId: string, pageHash: string, fetchedAt: int, vector: seq<real>)

  datatype Point = Point(id: string, payload: Payload)

  type Points = map<string, Payload>

  /** The points written one at a time. */
  function WriteAll(m: Points, ps: seq<Point>): Points {
    if ps == [] then m
    else
      var p := ps[|ps| - 1];
      WriteAll(m, ps[..|ps| - 1])[p.id := p.payload]
  }

  lemma {:induction false} WriteAllAppend(m: Points, ps: seq<Point>, qs: seq<Point>)
    ensures WriteAll(m, ps + qs) == WriteAll(WriteAll(m, ps), qs)
  {
    if qs == [] {
      assert ps + qs == ps;
    } else {
      WriteAllAppend(m, ps, qs[..|qs| - 1]);
      assert (ps + qs)[..|ps + qs| - 1] == ps + qs[..|qs| - 1];
    }
  }

  /** One version of a page, chunked and embedded: what a call of `upsert_chunks` writes. */
  datatype Page = Page(docId: string, sourceId: string, pageHash: string, now: int,
                       chunks: seq<Chunk>, vectors: seq<seq<real>>)

  /** `chunk_text` gives at least one chunk and numbers them through; a hash is never empty. */
  ghost predicate ValidPage(w: Page) {
    w.chunks != [] && |w.vectors| == |w.chunks| && NumberedThrough(w.docId, w.chunks) && w.pageHash != ""
  }

  function PayloadAt(w: Page, i: nat): Payload
    requires i < |w.chunks| == |w.vectors|
  {
    Payload(w.chunks[i], w.sourceId, w.pageHash, w.now, w.vectors[i])
  }

  function PointsFor(chunks: seq<Chunk>, vectors: seq<seq<real>>, sourceId: string, pageHash: string, now: int): seq<Point>
    requires |chunks| == |vectors|
  {
    seq(|chunks|, i requires 0 <= i < |chunks| =>
      Point(PointName(chunks[i].docId, chunks[i].chunkId), Payload(chunks[i], sourceId, pageHash, now, vectors[i])))
  }

  function PointsOf(w: Page): seq<Point>
    requires |w.chunks| == |w.vectors|
  {
    PointsFor(w.chunks, w.vectors, w.sourceId, w.pageHash, w.now)
  }

  /** A payload holds this chunk with this vector, of this source and page version. */
  predicate Describes(p: Payload, chunk: Chunk, vector: seq<real>, sourceId: string, pageHash: string, now: int) {
    p.chunk == chunk && p.vector == vector && p.sourceId == sourceId && p.pageHash == pageHash && p.fetchedAt == now
  }

  /** After the first `n` points of a page: those are stored, everything else is as before. */
  lemma {:induction false} WrittenAt(m: Points, w: Page, n: nat, d: string, i: nat)
    requires |w.vectors| == |w.chunks| && NumberedThrough(w.docId, w.chunks) && n <= |w.chunks|
    ensures var m', k := WriteAll(m, PointsOf(w)[..n]), PointName(d, i);
            if d == w.docId && i < n then
              k in m' && m'[k] == PayloadAt(w, i) && Describes(m'[k], w.chunks[i], w.vectors[i], w.sourceId, w.pageHash, w.now)
            else (k in m' <==> k in m) && (k in m ==> m'[k] == m[k])
  {
    if n > 0 {
      var ps := PointsOf(w);
      assert ps[..n][..n - 1] == ps[..n - 1];
      WrittenAt(m, w, n - 1, d, i);
      if PointName(d, i) == PointName(w.docId, n - 1) { PointNameInjective(d, i, w.docId, n - 1); }
    }
  }

  /** Every point sits under the name of its own chunk. */
  ghost predicate Keyed(m: Points) {
    forall k :: k in m ==> k == PointName(m[k].chunk.docId, m[k].chunk.chunkId)
  }

  lemma {:induction false} WriteKeepsKeyed(m: Points, w: Page, n: nat)
    requires ValidPage(w) && n <= |w.chunks| && Keyed(m)
    ensures Keyed(WriteAll(m, PointsOf(w)[..n]))
  {
    if n > 0 {
      assert PointsOf(w)[..n][..n - 1] == PointsOf(w)[..n - 1];
      WriteKeepsKeyed(m, w, n - 1);
    }
  }

  function Put(m: Points, w: Page): Points
    requires |w.chunks| == |w.vectors|
  {
    WriteAll(m, PointsOf(w))
  }

  lemma {:induction false} PutAt(m: Points, w: Page, d: string, i: nat)
    requires ValidPage(w)
    ensures var m', k := Put(m, w), PointName(d, i);
            if d == w.docId && i < |w.chunks| then
              k in m' && m'[k] == PayloadAt(w, i) && Describes(m'[k], w.chunks[i], w.vectors[i], w.sourceId, w.pageHash, w.now)
            else (k in m' <==> k in m) && (k in m ==> m'[k] == m[k])
    ensures Keyed(m) ==> Keyed(Put(m, w))
  {
    assert PointsOf(w)[..|w.chunks|] == PointsOf(w);
    WrittenAt(m, w, |w.chunks|, d, i);
    if Keyed(m) { WriteKeepsKeyed(m, w, |w.chunks|); }
  }

  // ---- Histories of completed upserts ---------------------------------------------

  ghost predicate ValidHistory(ws: seq<Page>) {
    forall j :: 0 <= j < |ws| ==> ValidPage(ws[j])
  }

  ghost function Replay(ws: seq<Page>): Points
    requires ValidHistory(ws)
  {
    if ws == [] then map[] else Put(Replay(ws[..|ws| - 1]), ws[|ws| - 1])
  }

  /** The last of the first `n` writes of document `d` that had more than `i` chunks, or -1. */
  function Latest(ws: seq<Page>, n: nat, d: string, i: nat): (j: int)
    requires n <= |ws|
    ensures -1 <= j < n
    ensures j >= 0 ==> ws[j].docId == d && i < |ws[j].chunks|
    ensures forall k :: j < k < n && ws[k].docId == d ==> |ws[k].chunks| <= i
  {
    if n == 0 then -1
    else if ws[n - 1].docId == d && i < |ws[n - 1].chunks| then n - 1
    else Latest(ws, n - 1, d, i)
  }

  /** The largest chunk count ever written for document `d`. */
  function Largest(ws: seq<Page>, d: string): nat {
    if ws == [] then 0
    else
      var w, rest := ws[|ws| - 1], Largest(ws[..|ws| - 1], d);
      if w.docId == d && |w.chunks| > rest then |w.chunks| else rest
  }

  lemma {:induction false} LatestPrefix(ws: seq<Page>, n: nat, d: string, i: nat)
    requires n < |ws|
    ensures Latest(ws, n, d, i) == Latest(ws[..|ws| - 1], n, d, i)
  {
    if n > 0 { LatestPrefix(ws, n - 1, d, i); }
  }

  /**
   * The store is its history: point `i` of a document exists exactly while `i` is below the largest
   * chunk count ever written, and holds the latest version with more than `i` chunks.
   */
  lemma {:induction false} StoreIsHistory(ws: seq<Page>, d: string, i: nat)
    requires ValidHistory(ws)
    ensures var m, k, j := Replay(ws), PointName(d, i), Latest(ws, |ws|, d, i);
            && (k in m <==> i < Largest(ws, d))
            && (k in m <==> j >= 0)
            && (k in m ==> m[k] == PayloadAt(ws[j], i))
    ensures Keyed(Replay(ws))
  {
    if ws != [] {
      var init, w := ws[..|ws| - 1], ws[|ws| - 1];
      StoreIsHistory(init, d, i);
      PutAt(Replay(init), w, d, i);
      LatestPrefix(ws, |init|, d, i);
    }
  }

  // ---- Recognising a page ------------------------------------------------------------

  /** `is_page_unchanged` when the store answers. */
  ghost predicate Unchanged(m: Points, d: string, h: string) {
    h != "" && exists k :: k in m && m[k].chunk.docId == d && m[k].pageHash == h
  }

  /** Write `j` of document `d` has more chunks than every later write of it. */
  ghost predicate Exposed(ws: seq<Page>, d: string, j: nat) {
    && j < |ws| && ws[j].docId == d
    && forall k :: j < k < |ws| && ws[k].docId == d ==> |ws[k].chunks| < |ws[j].chunks|
  }

  /** `h` is the hash of a write of `d` that has more chunks than every later one. */
  ghost predicate ExposedHash(ws: seq<Page>, d: string, h: string) {
    exists j :: 0 <= j < |ws| && Exposed(ws, d, j) && ws[j].pageHash == h
  }

  lemma {:induction false} RecognisedIsExposed(ws: seq<Page>, d: string, h: string)
    requires ValidHistory(ws) && Unchanged(Replay(ws), d, h)
    ensures ExposedHash(ws, d, h)
  {
    var m := Replay(ws);
    StoreIsHistory(ws, d, 0);
    var k :| k in m && m[k].chunk.docId == d && m[k].pageHash == h;
    var i := m[k].chunk.chunkId;
    StoreIsHistory(ws, d, i);
    assert Exposed(ws, d, Latest(ws, |ws|, d, i));
  }

  lemma {:induction false} ExposedIsRecognised(ws: seq<Page>, d: string, j: nat)
    requires ValidHistory(ws) && Exposed(ws, d, j)
    ensures Unchanged(Replay(ws), d, ws[j].pageHash)
  {
    var i := |ws[j].chunks| - 1;
    StoreIsHistory(ws, d, i);
    assert Latest(ws, |ws|, d, i) == j;
    var m, k := Replay(ws), PointName(d, i);
    assert k in m && m[k] == PayloadAt(ws[j], i);
  }

  /** A hash is recognised exactly when some write with it has more chunks than every later one. */
  lemma {:induction false} RecognisedIff(ws: seq<Page>, d: string, h: string)
    requires ValidHistory(ws)
    ensures Unchanged(Replay(ws), d, h) <==> ExposedHash(ws, d, h)
  {
    if Unchanged(Replay(ws), d, h) { RecognisedIsExposed(ws, d, h); }
    if j :| 0 <= j < |ws| && Exposed(ws, d, j) && ws[j].pageHash == h { ExposedIsRecognised(ws, d, j); }
  }

  /** The last of the first `n` writes or visits of document `d`, or -1. */
  function LastOf(ws: seq<Page>, n: nat, d: string): (j: int)
    requires n <= |ws|
    ensures -1 <= j < n
    ensures j >= 0 ==> ws[j].docId == d
    ensures forall k :: j < k < n ==> ws[k].docId != d
  {
    if n == 0 then -1 else if ws[n - 1].docId == d then n - 1 else LastOf(ws, n - 1, d)
  }

  /** The version written last is always recognised. */
  lemma {:induction false} LatestIsRecognised(ws: seq<Page>, d: string)
    requires ValidHistory(ws) && LastOf(ws, |ws|, d) >= 0
    ensures Unchanged(Replay(ws), d, ws[LastOf(ws, |ws|, d)].pageHash)
  {
    assert Exposed(ws, d, LastOf(ws, |ws|, d));
    RecognisedIff(ws, d, ws[LastOf(ws, |ws|, d)].pageHash);
  }

  ghost predicate NeverShrinks(ws: seq<Page>, d: string) {
    forall j, k :: 0 <= j < k < |ws| && ws[j].docId == d && ws[k].docId == d ==> |ws[j].chunks| <= |ws[k].chunks|
  }

  /** If the chunk counts of a document never shrink, its last version is the only one recognised. */
  lemma {:induction false} GrowingRecognisesOnlyLatest(ws: seq<Page>, d: string, h: string)
    requires ValidHistory(ws) && NeverShrinks(ws, d) && LastOf(ws, |ws|, d) >= 0
    ensures Unchanged(Replay(ws), d, h) <==> h == ws[LastOf(ws, |ws|, d)].pageHash
  {
    LatestIsRecognised(ws, d);
    RecognisedIff(ws, d, h);
    var j := LastOf(ws, |ws|, d);
    forall l | 0 <= l < |ws| && Exposed(ws, d, l) ensures l == j {}
  }

  // ---- Visits: recognise, or else upsert ------------------------------------------------

  ghost function Visit(m: Points, w: Page): Points
    requires ValidPage(w)
  {
    if Unchanged(m, w.docId, w.pageHash) then m else Put(m, w)
  }

  ghost function VisitAll(ws: seq<Page>): Points
    requires ValidHistory(ws)
  {
    if ws == [] then map[] else Visit(VisitAll(ws[..|ws| - 1]), ws[|ws| - 1])
  }

  /** The points of document `d` are exactly the chunks of `w`. */
  ghost predicate Holds(m: Points, d: string, w: Page) {
    && w.docId == d && |w.vectors| == |w.chunks| && Keyed(m)
    && forall i: nat :: (PointName(d, i) in m <==> i < |w.chunks|)
                        && (i < |w.chunks| ==> m[PointName(d, i)] == PayloadAt(w, i))
  }

  lemma {:induction false} PutHolds(m: Points, w: Page)
    requires ValidPage(w) && Keyed(m)
    requires forall i: nat :: PointName(w.docId, i) in m ==> i < |w.chunks|
    ensures Holds(Put(m, w), w.docId, w)
  {
    PutAt(m, w, w.docId, 0);
    forall i: nat
      ensures (PointName(w.docId, i) in Put(m, w) <==> i < |w.chunks|)
           && (i < |w.chunks| ==> Put(m, w)[PointName(w.docId, i)] == PayloadAt(w, i))
    {
      PutAt(m, w, w.docId, i);
    }
  }

  lemma {:induction false} PutElsewhere(m: Points, w: Page, d: string, v: Page)
    requires ValidPage(w) && Holds(m, d, v) && w.docId != d
    ensures Holds(Put(m, w), d, v)
  {
    PutAt(m, w, d, 0);
    forall i: nat
      ensures (PointName(d, i) in Put(m, w) <==> i < |v.chunks|)
           && (i < |v.chunks| ==> Put(m, w)[PointName(d, i)] == PayloadAt(v, i))
    {
      PutAt(m, w, d, i);
    }
  }

  lemma {:induction false} HeldIsRecognised(m: Points, w: Page, h: string)
    requires ValidPage(w) && Holds(m, w.docId, w)
    ensures Unchanged(m, w.docId, h) <==> h == w.pageHash
  {
    var k := PointName(w.docId, 0);
    assert k in m && m[k] == PayloadAt(w, 0);
  }

  /** Visiting the same text again changes nothing, whatever the store holds. */
  lemma {:induction false} RevisitIsNoOp(m: Points, w: Page)
    requires ValidPage(w)
    ensures Visit(Visit(m, w), w) == Visit(m, w)
  {
    if !Unchanged(m, w.docId, w.pageHash) {
      PutAt(m, w, w.docId, 0);
      var k := PointName(w.docId, 0);
      assert k in Put(m, w) && Put(m, w)[k] == PayloadAt(w, 0);
    }
  }

  lemma {:induction false} LastOfPrefix(ws: seq<Page>, n: nat, d: string)
    requires n < |ws|
    ensures LastOf(ws, n, d) == LastOf(ws[..|ws| - 1], n, d)
  {
    if n > 0 { LastOfPrefix(ws, n - 1, d); }
  }

  lemma {:induction false} UnvisitedHasNoPoints(ws: seq<Page>, d: string, i: nat)
    requires ValidHistory(ws) && LastOf(ws, |ws|, d) == -1
    ensures PointName(d, i) !in VisitAll(ws) && Keyed(VisitAll(ws))
  {
    if ws != [] {
      var init := ws[..|ws| - 1];
      LastOfPrefix(ws, |init|, d);
      UnvisitedHasNoPoints(init, d, i);
      PutAt(VisitAll(init), ws[|ws| - 1], d, i);
    }
  }

  /** One visit of the document whose points are those of `v`. */
  lemma {:induction false} VisitStep(m: Points, v: Page, w: Page)
    requires ValidPage(v) && ValidPage(w) && Holds(m, w.docId, v) && |v.chunks| <= |w.chunks|
    ensures Holds(Visit(m, w), w.docId, if v.pageHash == w.pageHash then v else w)
  {
    HeldIsRecognised(m, v, w.pageHash);
    if v.pageHash != w.pageHash { PutHolds(m, w); }
  }

  lemma {:induction false} FirstVisit(ws: seq<Page>, w: Page)
    requires ValidHistory(ws) && ValidPage(w) && LastOf(ws, |ws|, w.docId) == -1
    ensures Holds(Visit(VisitAll(ws), w), w.docId, w)
  {
    var m := VisitAll(ws);
    forall i: nat ensures PointName(w.docId, i) !in m && Keyed(m) { UnvisitedHasNoPoints(ws, w.docId, i); }
    assert PointName(w.docId, 0) !in m;
    assert !Unchanged(m, w.docId, w.pageHash);
    PutHolds(m, w);
  }

  lemma {:induction false} LaterVisit(ws: seq<Page>, v: nat)
    requires ValidHistory(ws) && v < |ws| - 1 && NeverShrinks(ws, ws[v].docId) && ws[|ws| - 1].docId == ws[v].docId
    requires Holds(VisitAll(ws[..|ws| - 1]), ws[v].docId, ws[v])
    ensures var w := ws[|ws| - 1];
            Holds(VisitAll(ws), w.docId, if ws[v].pageHash == w.pageHash then ws[v] else w)
  {
    VisitStep(VisitAll(ws[..|ws| - 1]), ws[v], ws[|ws| - 1]);
  }

  /**
   * A skip never hides a change: in a run of visits in which the chunk counts of a document never
   * shrink, its points are, after every visit, exactly the chunks of a visited version with the
   * text (hash) that was seen last.
   */
  lemma {:induction false} StoreIsCurrent(ws: seq<Page>, d: string) returns (v: nat)
    requires ValidHistory(ws) && NeverShrinks(ws, d) && LastOf(ws, |ws|, d) >= 0
    ensures v <= LastOf(ws, |ws|, d) && ws[v].docId == d && ws[v].pageHash == ws[LastOf(ws, |ws|, d)].pageHash
    ensures Holds(VisitAll(ws), d, ws[v])
  {
    var init, w := ws[..|ws| - 1], ws[|ws| - 1];
    LastOfPrefix(ws, |init|, d);
    ShrinksNowhere(ws, d);
    if w.docId != d {
      v := StoreIsCurrent(init, d);
      PutElsewhere(VisitAll(init), w, d, init[v]);
    } else if LastOf(init, |init|, d) == -1 {
      FirstVisit(init, w);
      v := |ws| - 1;
    } else {
      var u := StoreIsCurrent(init, d);
      LaterVisit(ws, u);
      v := if init[u].pageHash == w.pageHash then u else |ws| - 1;
    }
  }

  lemma {:induction false} ShrinksNowhere(ws: seq<Page>, d: string)
    requires ws != [] && ValidHistory(ws) && NeverShrinks(ws, d)
    ensures ValidHistory(ws[..|ws| - 1]) && NeverShrinks(ws[..|ws| - 1], d)
  {}

  // ---- What goes wrong otherwise ----------------------------------------------------------

  ghost predicate AllCurrent(m: Points, d: string, h: string) {
    forall k :: k in m && m[k].chunk.docId == d ==> m[k].pageHash == h
  }

  /** A visit that writes leaves only points of the new text exactly when no stored index lies beyond its chunks. */
  lemma {:induction false} WriteIsCleanIff(m: Points, w: Page)
    requires ValidPage(w) && Keyed(m) && !Unchanged(m, w.docId, w.pageHash)
    ensures AllCurrent(Visit(m, w), w.docId, w.pageHash)
       <==> forall k :: k in m && m[k].chunk.docId == w.docId ==> m[k].chunk.chunkId < |w.chunks|
  {
    var m', d := Put(m, w), w.docId;
    PutAt(m, w, d, 0);
    if k :| k in m && m[k].chunk.docId == d && m[k].chunk.chunkId >= |w.chunks| {
      PutAt(m, w, d, m[k].chunk.chunkId);
      assert k in m' && m'[k] == m[k];
    } else {
      forall k | k in m' && m'[k].chunk.docId == d ensures m'[k].pageHash == w.pageHash {
        PutAt(m, w, d, m'[k].chunk.chunkId);
      }
    }
  }

  lemma {:induction false} VisitAllSnoc(ws: seq<Page>, w: Page)
    requires ValidHistory(ws) && ValidPage(w)
    ensures ValidHistory(ws + [w]) && VisitAll(ws + [w]) == Visit(VisitAll(ws), w)
  {
    assert (ws + [w])[..|ws|] == ws;
  }

  /** A shorter version written over a longer one leaves the longer one recognised. */
  lemma {:induction false} ShrinkLeavesTail(m: Points, v: Page, w: Page)
    requires ValidPage(v) && ValidPage(w) && Holds(m, w.docId, v)
    requires |w.chunks| < |v.chunks| && v.pageHash != w.pageHash
    ensures var m', k := Visit(m, w), PointName(w.docId, 0);
            k in m' && m'[k] == PayloadAt(w, 0) && Unchanged(m', w.docId, v.pageHash)
  {
    var d, i := w.docId, |v.chunks| - 1;
    HeldIsRecognised(m, v, w.pageHash);
    PutAt(m, w, d, 0);
    PutAt(m, w, d, i);
    assert Put(m, w)[PointName(d, i)] == PayloadAt(v, i);
  }

  /**
   * Reverting after a shrink: once a shorter version was written over a longer one, visiting the
   * longer one again is a skip, and the first chunk stays that of the shorter one.
   */
  lemma {:induction false} RevertAfterShrinkIsSkipped(v: Page, w: Page)
    requires ValidPage(v) && ValidPage(w) && v.docId == w.docId
    requires |w.chunks| < |v.chunks| && v.pageHash != w.pageHash
    ensures VisitAll([v, w, v]) == VisitAll([v, w])
    ensures PointName(v.docId, 0) in VisitAll([v, w]) && VisitAll([v, w])[PointName(v.docId, 0)] == PayloadAt(w, 0)
  {
    assert [] + [v] == [v] && [v] + [w] == [v, w] && [v, w] + [v] == [v, w, v];
    VisitAllSnoc([], v);
    VisitAllSnoc([v], w);
    VisitAllSnoc([v, w], v);
    PutHolds(map[], v);
    ShrinkLeavesTail(VisitAll([v]), v, w);
  }

  /**
   * A failure after some but not all points of a page were written: the page counts as unchanged
   * from then on, and the chunks that are missing stay as they were.
   */
  lemma {:induction false} PartialWriteSticks(m: Points, w: Page, n: nat, i: nat)
    requires ValidPage(w) && 0 < n <= i < |w.chunks|
    ensures var m' := WriteAll(m, PointsOf(w)[..n]);
            && Visit(m', w) == m'
            && (PointName(w.docId, i) in m' <==> PointName(w.docId, i) in m)
            && (PointName(w.docId, i) in m ==> m'[PointName(w.docId, i)] == m[PointName(w.docId, i)])
  {
    var m', k := WriteAll(m, PointsOf(w)[..n]), PointName(w.docId, 0);
    WrittenAt(m, w, n, w.docId, 0);
    WrittenAt(m, w, n, w.docId, i);
    assert k in m' && m'[k] == PayloadAt(w, 0);
  }
}
