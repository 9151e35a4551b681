/** The curated notes: each source is deleted and written again from its current note. */
module Curated {
  import opened Basics
  import opened Text
  import opened ParagraphFiller
  import opened Breadcrumbs
  import opened Chunker
  import opened PointNames
  import opened PointStore
  import opened VectorStore

  /** One note: its key, its text with the headings of the stripped text, and its hash. */
  datatype Note = Note(name: string, body: string, headings: seq<Heading>, hash: string)

  function SourceOf(n: Note): string {
    n.name + "_curated"
  }

  /** The keys of a dictionary are distinct; a digest is never empty. */
  ghost predicate ValidNotes(notes: seq<Note>) {
    && (forall i :: 0 <= i < |notes| ==> ValidHeadings(Strip(notes[i].body), notes[i].headings) && notes[i].hash != "")
    && (forall i, j :: 0 <= i < j < |notes| ==> notes[i].name != notes[j].name)
  }

  const OVERVIEW := [Anchor("Overview", "")]

  function NoteChunks(lim: ChunkLimits, n: Note): seq<Chunk>
    requires ValidHeadings(Strip(n.body), n.headings)
  {
    ChunkSpec(lim, Strip(n.body), SourceOf(n), OVERVIEW, n.headings)
  }

  /** The page version a note becomes when it is written at time `now`. */
  function NotePage(lim: ChunkLimits, encode: string -> Vector, n: Note, now: int): (w: Page)
    requires ValidHeadings(Strip(n.body), n.headings)
    ensures w.docId == w.sourceId == SourceOf(n)
  {
    var cs := NoteChunks(lim, n);
    Page(SourceOf(n), SourceOf(n), n.hash, now, cs, Encoded(encode, ChunkTexts(cs)))
  }

  /** Pages whose documents are their own, distinct sources. */
  ghost predicate CuratedPages(ws: seq<Page>) {
    && ValidHistory(ws)
    && (forall i :: 0 <= i < |ws| ==> ws[i].docId == ws[i].sourceId)
    && (forall i, j :: 0 <= i < j < |ws| ==> ws[i].docId != ws[j].docId)
  }

  /** The loop: delete by source, then upsert. */
  ghost function Curate(m: Points, ws: seq<Page>): Points
    requires ValidHistory(ws)
  {
    if ws == [] then m
    else
      var w := ws[|ws| - 1];
      Put(WithoutSource(Curate(m, ws[..|ws| - 1]), w.sourceId), w)
  }

  ghost predicate IsCurated(ws: seq<Page>, s: string) {
    exists j :: 0 <= j < |ws| && ws[j].sourceId == s
  }

  /** `k` names chunk `i` of page `j`. */
  ghost predicate Names(ws: seq<Page>, k: string, j: int, i: int) {
    0 <= j < |ws| && 0 <= i < |ws[j].chunks| && k == PointName(ws[j].docId, i)
  }

  /** What is stored under `k` afterwards: the chunk it names, or else what another source had there. */
  ghost predicate CuratedAt(m: Points, ws: seq<Page>, r: Points, k: string)
    requires ValidHistory(ws)
  {
    if exists j, i :: Names(ws, k, j, i) then
      k in r && forall j, i :: Names(ws, k, j, i) ==> r[k] == PayloadAt(ws[j], i)
    else
      (k in r <==> k in m && !IsCurated(ws, m[k].sourceId)) && (k in r ==> r[k] == m[k])
  }

  lemma PutNames(m: Points, w: Page, k: string)
    requires ValidPage(w)
    ensures forall i: nat :: i < |w.chunks| && k == PointName(w.docId, i) ==> k in Put(m, w) && Put(m, w)[k] == PayloadAt(w, i)
    ensures (forall i: nat :: i < |w.chunks| ==> k != PointName(w.docId, i)) ==>
              (k in Put(m, w) <==> k in m) && (k in m ==> Put(m, w)[k] == m[k])
  {
    forall i: nat | i < |w.chunks| && k == PointName(w.docId, i)
      ensures k in Put(m, w) && Put(m, w)[k] == PayloadAt(w, i)
    {
      PutAt(m, w, w.docId, i);
    }
    if forall i: nat :: i < |w.chunks| ==> k != PointName(w.docId, i) {
      assert PointsOf(w)[..|w.chunks|] == PointsOf(w);
      PutMisses(m, w, |w.chunks|, k);
    }
  }

  lemma {:induction false} PutMisses(m: Points, w: Page, n: nat, k: string)
    requires ValidPage(w) && n <= |w.chunks|
    requires forall i: nat :: i < |w.chunks| ==> k != PointName(w.docId, i)
    ensures var m' := WriteAll(m, PointsOf(w)[..n]); (k in m' <==> k in m) && (k in m ==> m'[k] == m[k])
  {
    if n > 0 {
      assert PointsOf(w)[..n][..n - 1] == PointsOf(w)[..n - 1];
      PutMisses(m, w, n - 1, k);
    }
  }

  lemma NamesOfInit(ws: seq<Page>, k: string, j: int, i: int)
    requires ws != []
    ensures Names(ws, k, j, i) <==>
              Names(ws[..|ws| - 1], k, j, i) || (j == |ws| - 1 && 0 <= i < |ws[j].chunks| && k == PointName(ws[j].docId, i))
  {}

  /** The store afterwards, point by point. */
  lemma {:induction false} CuratedStore(m: Points, ws: seq<Page>, k: string)
    requires CuratedPages(ws)
    ensures CuratedAt(m, ws, Curate(m, ws), k)
  {
    if ws != [] {
      var init, w := ws[..|ws| - 1], ws[|ws| - 1];
      var r := Curate(m, init);
      CuratedStore(m, init, k);
      PutNames(WithoutSource(r, w.sourceId), w, k);
      forall j, i ensures Names(ws, k, j, i) <==>
              Names(init, k, j, i) || (j == |init| && 0 <= i < |w.chunks| && k == PointName(w.docId, i)) {
        NamesOfInit(ws, k, j, i);
      }
      CuratedStep(m, ws, r, k);
    }
  }

  lemma IsCuratedSnoc(ws: seq<Page>, s: string)
    requires ws != []
    ensures IsCurated(ws, s) <==> IsCurated(ws[..|ws| - 1], s) || ws[|ws| - 1].sourceId == s
  {
    var init := ws[..|ws| - 1];
    if j :| 0 <= j < |ws| && ws[j].sourceId == s { assert j < |init| ==> init[j] == ws[j]; }
    if j :| 0 <= j < |init| && init[j].sourceId == s { assert ws[j] == init[j]; }
  }

  lemma CuratedStep(m: Points, ws: seq<Page>, r: Points, k: string)
    requires CuratedPages(ws) && ws != [] && CuratedAt(m, ws[..|ws| - 1], r, k)
    ensures CuratedAt(m, ws, Put(WithoutSource(r, ws[|ws| - 1].sourceId), ws[|ws| - 1]), k)
  {
    var init, w := ws[..|ws| - 1], ws[|ws| - 1];
    var before := WithoutSource(r, w.sourceId);
    var after := Put(before, w);
    PutNames(before, w, k);
    if i :| 0 <= i < |w.chunks| && k == PointName(w.docId, i) {
      assert Names(ws, k, |init|, i);
      forall j', i' | Names(ws, k, j', i') ensures j' == |init| && i' == i {
        PointNameInjective(ws[j'].docId, i', w.docId, i);
      }
    } else if j, i :| Names(init, k, j, i) {
      assert Names(ws, k, j, i);
      assert r[k].sourceId == init[j].sourceId != w.sourceId;
      forall j', i' | Names(ws, k, j', i') ensures Names(init, k, j', i') {}
    } else {
      forall j, i ensures !Names(ws, k, j, i) { NamesOfInit(ws, k, j, i); }
      if k in m { IsCuratedSnoc(ws, m[k].sourceId); }
    }
  }

  // ---- Main results ------------------------------------------------------------------

  /** The points of each curated source are exactly the chunks of its page: no stale tail, from any prior store. */
  lemma CuratedExactly(m: Points, ws: seq<Page>, j: nat, k: string)
    requires CuratedPages(ws) && j < |ws|
    ensures var r := Curate(m, ws);
            && (k in r && r[k].sourceId == ws[j].sourceId <==> exists i :: Names(ws, k, j, i))
            && forall i :: Names(ws, k, j, i) ==> k in r && r[k] == PayloadAt(ws[j], i)
  {
    var r := Curate(m, ws);
    CuratedStore(m, ws, k);
    if k in r && r[k].sourceId == ws[j].sourceId {
      if l, i :| Names(ws, k, l, i) {
        assert r[k] == PayloadAt(ws[l], i);
        assert l == j;
      } else {
        assert IsCurated(ws, ws[j].sourceId);
      }
    }
  }

  /** A point of another source stays exactly when no chunk of a note takes its name. */
  lemma OtherSourcesUntouchedIff(m: Points, ws: seq<Page>, k: string)
    requires CuratedPages(ws) && k in m && !IsCurated(ws, m[k].sourceId)
    ensures var r := Curate(m, ws);
            (k in r && r[k] == m[k]) <==> !exists j, i :: Names(ws, k, j, i)
  {
    CuratedStore(m, ws, k);
    if j, i :| Names(ws, k, j, i) {
      assert IsCurated(ws, PayloadAt(ws[j], i).sourceId);
    }
  }

  /** The same notes at other times. */
  ghost predicate SameButTime(ws: seq<Page>, vs: seq<Page>) {
    |ws| == |vs| && forall j :: 0 <= j < |ws| ==> vs[j] == ws[j].(now := vs[j].now)
  }

  ghost predicate SamePayload(p: Payload, q: Payload) {
    q == p.(fetchedAt := q.fetchedAt)
  }

  /** Ingesting the same notes again changes nothing but timestamps. */
  lemma CuratedTwice(m: Points, ws: seq<Page>, vs: seq<Page>, k: string)
    requires CuratedPages(ws) && CuratedPages(vs) && SameButTime(ws, vs)
    ensures var r := Curate(m, ws);
            var r' := Curate(r, vs);
            (k in r' <==> k in r) && (k in r ==> SamePayload(r[k], r'[k]))
  {
    var r := Curate(m, ws);
    CuratedStore(m, ws, k);
    CuratedStore(r, vs, k);
    if j, i :| Names(ws, k, j, i) {
      assert Names(vs, k, j, i);
      assert r[k] == PayloadAt(ws[j], i);
      assert Curate(r, vs)[k] == PayloadAt(vs[j], i);
    } else {
      forall j, i ensures !Names(vs, k, j, i) {
        assert !Names(ws, k, j, i);
      }
      if k in r {
        assert IsCurated(vs, r[k].sourceId) ==> IsCurated(ws, r[k].sourceId) by {
          if j :| 0 <= j < |vs| && vs[j].sourceId == r[k].sourceId { assert ws[j].sourceId == r[k].sourceId; }
        }
      }
    }
  }

  // ---- The loop over the notes ----------------------------------------------------------

  function Pages(lim: ChunkLimits, encode: string -> Vector, notes: seq<Note>, clock: nat -> int): seq<Page>
    requires forall i :: 0 <= i < |notes| ==> ValidHeadings(Strip(notes[i].body), notes[i].headings)
  {
    seq(|notes|, i requires 0 <= i < |notes| => NotePage(lim, encode, notes[i], clock(i)))
  }

  lemma NotePageIsValid(lim: ChunkLimits, encode: string -> Vector, n: Note, now: int)
    requires ValidHeadings(Strip(n.body), n.headings) && n.hash != ""
    ensures ValidPage(NotePage(lim, encode, n, now))
  {
    ChunkTextFacts(lim, Strip(n.body), SourceOf(n), OVERVIEW, n.headings);
  }

  lemma DistinctSources(a: Note, b: Note)
    requires a.name != b.name
    ensures SourceOf(a) != SourceOf(b)
  {
    assert SourceOf(a)[..|a.name|] == a.name && SourceOf(b)[..|b.name|] == b.name;
  }

  lemma PageAt(lim: ChunkLimits, encode: string -> Vector, notes: seq<Note>, clock: nat -> int, i: nat)
    requires ValidNotes(notes) && i < |notes|
    ensures var w := Pages(lim, encode, notes, clock)[i];
            w == NotePage(lim, encode, notes[i], clock(i)) && ValidPage(w) && w.docId == w.sourceId == SourceOf(notes[i])
  {
    NotePageIsValid(lim, encode, notes[i], clock(i));
  }

  lemma PagesAreCurated(lim: ChunkLimits, encode: string -> Vector, notes: seq<Note>, clock: nat -> int)
    requires ValidNotes(notes)
    ensures CuratedPages(Pages(lim, encode, notes, clock))
  {
    var ws := Pages(lim, encode, notes, clock);
    forall i | 0 <= i < |ws| ensures ValidPage(ws[i]) && ws[i].docId == ws[i].sourceId {
      PageAt(lim, encode, notes, clock, i);
    }
    forall i, j | 0 <= i < j < |ws| ensures ws[i].docId != ws[j].docId {
      PageAt(lim, encode, notes, clock, i);
      PageAt(lim, encode, notes, clock, j);
      DistinctSources(notes[i], notes[j]);
    }
  }

  /** Where a failing run stops: some notes done, and one not yet deleted, or deleted and written in part. */
  ghost predicate StoppedAt(m: Points, ws: seq<Page>, r: Points, j: nat, n: nat)
    requires ValidHistory(ws)
  {
    && j < |ws| && n <= |ws[j].chunks|
    && (r == Curate(m, ws[..j]) || r == WriteAll(WithoutSource(Curate(m, ws[..j]), ws[j].sourceId), PointsOf(ws[j])[..n]))
  }

  /** How many of its `n` points an upsert has left in the store. */
  ghost function Written(r: Outcome, writes: WriteCalls, n: nat): (k: nat)
    ensures k <= n
  {
    if r.WriteFailed? && r.batch <= n then WrittenBy(writes, r.batch, n) else if r.Upserted? then n else 0
  }

  /** The chunks of document `s` are stored, each with the vector of its own content, and source `s` has no other points. */
  ghost predicate ExactlyHeld(encode: string -> Vector, r: Points, s: string, chunks: seq<Chunk>, hash: string, now: int) {
    && AllStored(encode, r, s, chunks, s, hash, now)
    && forall k :: k in r && r[k].sourceId == s ==> exists i: nat :: i < |chunks| && k == PointName(s, i)
  }

  /** What is stored of a note: exactly its chunks, under a document and source named after it. */
  ghost predicate NoteHeld(lim: ChunkLimits, encode: string -> Vector, r: Points, n: Note, now: int)
    requires ValidHeadings(Strip(n.body), n.headings)
  {
    var s := n.name + "_curated";
    var chunks := ChunkSpec(lim, Strip(n.body), s, [Anchor("Overview", "")], n.headings);
    ExactlyHeld(encode, r, s, chunks, n.hash, now)
  }

  /** A point of another source stays, unless a chunk of the note has its name. */
  ghost predicate OthersKept(m: Points, r: Points, n: Note) {
    var s := n.name + "_curated";
    forall k :: k in m && m[k].sourceId != s && (forall i: nat :: k != PointName(s, i)) ==> k in r && r[k] == m[k]
  }

  lemma IngestedIsHeld(lim: ChunkLimits, encode: string -> Vector, m: Points, n: Note, now: int, w: Page, r: Points)
    requires ValidHeadings(Strip(n.body), n.headings) && w == NotePage(lim, encode, n, now) && ValidPage(w)
    requires r == Put(WithoutSource(m, w.sourceId), w)
    ensures NoteHeld(lim, encode, r, n, now) && OthersKept(m, r, n)
  {
    var s := n.name + "_curated";
    WrittenIsStored(encode, WithoutSource(m, s), s, w.chunks, s, n.hash, now);
    forall k | k in r && r[k].sourceId == s ensures exists i: nat :: i < |w.chunks| && k == PointName(s, i) {
      PutNames(WithoutSource(m, s), w, k);
    }
    forall k | k in m && m[k].sourceId != s && (forall i: nat :: k != PointName(s, i)) ensures k in r && r[k] == m[k] {
      PutNames(WithoutSource(m, s), w, k);
    }
  }

  lemma PageIsHeld(encode: string -> Vector, m: Points, ws: seq<Page>, w: Page, j: nat, r: Points)
    requires CuratedPages(ws) && j < |ws| && w == ws[j] && w.vectors == Encoded(encode, ChunkTexts(w.chunks))
    requires r == Curate(m, ws)
    ensures ExactlyHeld(encode, r, w.docId, w.chunks, w.pageHash, w.now)
  {
    forall i: nat | i < |w.chunks| ensures var k := PointName(w.docId, i); k in r && r[k] == PayloadAt(w, i) {
      assert Names(ws, PointName(w.docId, i), j, i);
      CuratedExactly(m, ws, j, PointName(w.docId, i));
    }
    forall k | k in r && r[k].sourceId == w.docId ensures exists i: nat :: i < |w.chunks| && k == PointName(w.docId, i) {
      CuratedExactly(m, ws, j, k);
      var i :| Names(ws, k, j, i);
    }
  }

  /** After the loop every note is held. */
  lemma CuratedIsHeld(lim: ChunkLimits, encode: string -> Vector, m: Points, notes: seq<Note>, clock: nat -> int, j: nat)
    requires ValidNotes(notes) && CuratedPages(Pages(lim, encode, notes, clock)) && j < |notes|
    ensures NoteHeld(lim, encode, Curate(m, Pages(lim, encode, notes, clock)), notes[j], clock(j))
  {
    var ws, w := Pages(lim, encode, notes, clock), NotePage(lim, encode, notes[j], clock(j));
    PageAt(lim, encode, notes, clock, j);
    assert w.vectors == Encoded(encode, ChunkTexts(w.chunks));
    PageIsHeld(encode, m, ws, w, j, Curate(m, ws));
  }

  /** The note is chunked and upserted. */
  method WriteNote(coll: Collection, lim: ChunkLimits, ghost encode: string -> Vector, n: Note, now: int,
                   embeds: EmbedCalls, writes: WriteCalls, ghost w: Page)
    returns (r: Outcome)
    requires ValidHeadings(Strip(n.body), n.headings)
    requires AnswersFor(encode, ChunkTexts(NoteChunks(lim, n)), embeds)
    requires w == NotePage(lim, encode, n, now)
    modifies coll
    ensures if r.Upserted? then coll.points == Put(old(coll.points), w)
            else coll.points == WriteAll(old(coll.points), PointsOf(w)[..Written(r, writes, |w.chunks|)])
  {
    assert PointsOf(w)[..0] == [];
    var chunks := ChunkText(lim, Strip(n.body), SourceOf(n), OVERVIEW, n.headings);
    r := coll.UpsertChunks(encode, chunks, SourceOf(n), n.hash, now, embeds, writes);
  }

  /** One round of the loop: delete the source, chunk the note, upsert. None is a delete that raised. */
  method IngestNote(coll: Collection, lim: ChunkLimits, ghost encode: string -> Vector, n: Note, now: int,
                    delete: Reply, embeds: EmbedCalls, writes: WriteCalls, ghost w: Page)
    returns (r: Option<Outcome>)
    requires ValidHeadings(Strip(n.body), n.headings)
    requires AnswersFor(encode, ChunkTexts(NoteChunks(lim, n)), embeds)
    requires w == NotePage(lim, encode, n, now)
    modifies coll
    ensures var before := WithoutSource(old(coll.points), w.sourceId);
            if r.None? then !delete.Accepted? && coll.points == if delete.Rejected? then old(coll.points) else before
            else
              && delete.Accepted?
              && if r.value.Upserted? then coll.points == Put(before, w)
                 else coll.points == WriteAll(before, PointsOf(w)[..Written(r.value, writes, |w.chunks|)])
    ensures n.hash != "" && r.Some? && r.value.Upserted? ==>
              NoteHeld(lim, encode, coll.points, n, now) && OthersKept(old(coll.points), coll.points, n)
  {
    if n.hash != "" {
      NotePageIsValid(lim, encode, n, now);
      IngestedIsHeld(lim, encode, coll.points, n, now, w, Put(WithoutSource(coll.points, w.sourceId), w));
    }
    var source := SourceOf(n);
    var deleted := coll.DeleteSource(source, delete);
    assert coll.points == if delete.Rejected? then old(coll.points) else WithoutSource(old(coll.points), source);
    if !deleted { return None; }
    var outcome := WriteNote(coll, lim, encode, n, now, embeds, writes, w);
    return Some(outcome);
  }

  lemma CurateNext(m: Points, ws: seq<Page>, j: nat)
    requires ValidHistory(ws) && j < |ws|
    ensures Curate(m, ws[..j + 1]) == Put(WithoutSource(Curate(m, ws[..j]), ws[j].sourceId), ws[j])
  {
    assert ws[..j + 1][..j] == ws[..j];
  }

  /** `main` of the curated notes. */
  method IngestNotes(coll: Collection, lim: ChunkLimits, ghost encode: string -> Vector, notes: seq<Note>,
                     clock: nat -> int, deletes: nat -> Reply, embeds: nat -> EmbedCalls, writes: nat -> WriteCalls)
    returns (ok: bool)
    requires ValidNotes(notes)
    requires forall j: nat :: j < |notes| ==> AnswersFor(encode, ChunkTexts(NoteChunks(lim, notes[j])), embeds(j))
    modifies coll
    ensures CuratedPages(Pages(lim, encode, notes, clock))
    ensures ok ==> coll.points == Curate(old(coll.points), Pages(lim, encode, notes, clock))
    ensures ok ==> forall j :: 0 <= j < |notes| ==> NoteHeld(lim, encode, coll.points, notes[j], clock(j))
    ensures !ok ==> exists j: nat, n: nat :: StoppedAt(old(coll.points), Pages(lim, encode, notes, clock), coll.points, j, n)
  {
    PagesAreCurated(lim, encode, notes, clock);
    ghost var ws := Pages(lim, encode, notes, clock);
    for j := 0 to |notes|
      invariant coll.points == Curate(old(coll.points), ws[..j])
    {
      CurateNext(old(coll.points), ws, j);
      var r := IngestNote(coll, lim, encode, notes[j], clock(j), deletes(j), embeds(j), writes(j), ws[j]);
      if r.None? || !r.value.Upserted? {
        ghost var n := if r.None? then 0 else Written(r.value, writes(j), |ws[j].chunks|);
        assert PointsOf(ws[j])[..0] == [];
        assert StoppedAt(old(coll.points), ws, coll.points, j, n);
        return false;
      }
    }
    assert ws[..|notes|] == ws;
    forall j | 0 <= j < |notes| ensures NoteHeld(lim, encode, coll.points, notes[j], clock(j)) {
      CuratedIsHeld(lim, encode, old(coll.points), notes, clock, j);
    }
    return true;
  }
}
