/** The vector store as an object, and the calls the crawler makes on it. */
module VectorStore {
  import opened Basics
  import opened Sorting
  import opened ParagraphFiller
  import opened Chunker
  import opened PointNames
  import opened PointStore

  const EMBED_BATCH: nat := 128
  const WRITE_BATCH: nat := 100

  type Vector = seq<real>

  /** One entry of an embedding response: the position of its text in the request, and its vector. */
  datatype Embedding = Embedding(index: nat, vector: Vector)

  function Ideal(encode: string -> Vector, texts: seq<string>): seq<Embedding> {
    seq(|texts|, i requires 0 <= i < |texts| => Embedding(i, encode(texts[i])))
  }

  /** A response holds one entry per text, in any order. */
  ghost predicate IsResponse(encode: string -> Vector, texts: seq<string>, data: seq<Embedding>) {
    multiset(data) == multiset(Ideal(encode, texts))
  }

  function IndexKey(): Embedding -> real {
    (e: Embedding) => e.index as real
  }

  function Vectors(data: seq<Embedding>): seq<Vector> {
    seq(|data|, i requires 0 <= i < |data| => data[i].vector)
  }

  function Encoded(encode: string -> Vector, texts: seq<string>): seq<Vector> {
    seq(|texts|, i requires 0 <= i < |texts| => encode(texts[i]))
  }

  /** Sorting a permuted response by index gives each text its own vector. */
  lemma SortedResponse(encode: string -> Vector, texts: seq<string>, data: seq<Embedding>)
    requires IsResponse(encode, texts, data)
    ensures Vectors(StableSort(IndexKey(), data)) == Encoded(encode, texts)
  {
    SortFacts(IndexKey(), data);
    SortedUnique(IndexKey(), StableSort(IndexKey(), data), Ideal(encode, texts));
  }

  function Batch<T>(xs: seq<T>, i: nat, size: nat): seq<T>
    requires i <= |xs|
  {
    if i + size <= |xs| then xs[i..i + size] else xs[i..]
  }

  /** The answers of the embedding service by batch start and attempt; None is an exception. */
  type EmbedCalls = (nat, nat) -> Option<seq<Embedding>>

  ghost predicate AnswersFor(encode: string -> Vector, texts: seq<string>, calls: EmbedCalls) {
    forall i: nat, a: nat :: i < |texts| && calls(i, a).Some? ==>
      IsResponse(encode, Batch(texts, i, EMBED_BATCH), calls(i, a).value)
  }

  /** Some one of the first `n` attempts at batch `i` gets through. */
  ghost predicate Embeds(calls: EmbedCalls, i: nat, n: nat) {
    exists a: nat :: a < n && calls(i, a).Some?
  }

  /** What became of a call that changes the store: done, done although an error came back, or not done. */
  datatype Reply = Accepted | Lost | Rejected

  type WriteCalls = (nat, nat) -> Reply

  ghost predicate Accepts(calls: WriteCalls, i: nat, n: nat) {
    exists a: nat :: a < n && calls(i, a).Accepted?
  }

  /** Some one of the first `n` attempts at the batch that starts at `i` reaches the store. */
  ghost predicate Lands(calls: WriteCalls, i: nat, n: nat) {
    exists a: nat :: a < n && !calls(i, a).Rejected?
  }

  /** How many of `n` points are in the store when the batch that starts at `i` is given up. */
  ghost function WrittenBy(calls: WriteCalls, i: nat, n: nat): (k: nat)
    requires i <= n
    ensures i <= k <= n
  {
    if !Lands(calls, i, 3) then i else if i + WRITE_BATCH <= n then i + WRITE_BATCH else n
  }

  lemma AcceptedLands(calls: WriteCalls, i: nat, n: nat)
    ensures Accepts(calls, i, n) ==> Lands(calls, i, n)
  {}

  datatype Outcome = Upserted(count: nat) | EmbeddingFailed | WriteFailed(batch: nat)

  /** Point ages are compared in milliseconds. */
  function FreqSeconds(freq: string): nat {
    match freq
    case "hourly" => 60 * 60
    case "daily" => 24 * 60 * 60
    case "monthly" => 30 * 24 * 60 * 60
    case _ => 7 * 24 * 60 * 60
  }

  /** `f` is the `fetched_at` of the freshest point of the source, if it has points. */
  ghost predicate IsFreshest(m: Points, sourceId: string, f: Option<int>) {
    match f
    case None => forall k :: k in m ==> m[k].sourceId != sourceId
    case Some(v) =>
      && (exists k :: k in m && m[k].sourceId == sourceId && m[k].fetchedAt == v)
      && (forall k :: k in m && m[k].sourceId == sourceId ==> m[k].fetchedAt <= v)
  }

  function WithoutSource(m: Points, sourceId: string): Points {
    map k | k in m && m[k].sourceId != sourceId :: m[k]
  }

  /** `embed_batch`: up to five attempts, the answer sorted by index. */
  method EmbedBatch(ghost encode: string -> Vector, ghost texts: seq<string>, calls: EmbedCalls, i: nat)
    returns (r: Option<seq<Vector>>)
    requires forall a: nat :: calls(i, a).Some? ==> IsResponse(encode, texts, calls(i, a).value)
    ensures r.Some? <==> Embeds(calls, i, 5)
    ensures r.Some? ==> r.value == Encoded(encode, texts)
  {
    for attempt := 0 to 5
      invariant !Embeds(calls, i, attempt)
    {
      var resp := calls(i, attempt);
      if resp.Some? {
        SortedResponse(encode, texts, resp.value);
        return Some(Vectors(StableSort(IndexKey(), resp.value)));
      }
    }
    return None;
  }

  /** The vectors of all texts, batch by batch. */
  method EmbedAll(ghost encode: string -> Vector, texts: seq<string>, calls: EmbedCalls) returns (r: Option<seq<Vector>>)
    requires AnswersFor(encode, texts, calls)
    ensures r.Some? ==> r.value == Encoded(encode, texts)
    ensures r.None? ==> exists i: nat :: i < |texts| && i % EMBED_BATCH == 0 && !Embeds(calls, i, 5)
    ensures r.Some? ==> forall i: nat :: i < |texts| && i % EMBED_BATCH == 0 ==> Embeds(calls, i, 5)
  {
    var all: seq<Vector> := [];
    var i: nat := 0;
    while i < |texts|
      invariant i % EMBED_BATCH == 0
      invariant all == Encoded(encode, texts[..if i <= |texts| then i else |texts|])
      invariant forall j: nat :: j < i && j % EMBED_BATCH == 0 ==> Embeds(calls, j, 5)
    {
      var vecs := EmbedBatch(encode, Batch(texts, i, EMBED_BATCH), calls, i);
      if vecs.None? { return None; }
      var end := if i + EMBED_BATCH <= |texts| then i + EMBED_BATCH else |texts|;
      assert texts[..end] == texts[..i] + Batch(texts, i, EMBED_BATCH);
      all := all + vecs.value;
      i := i + EMBED_BATCH;
    }
    assert texts[..|texts|] == texts;
    return Some(all);
  }

  predicate IsWritten(ps: seq<Point>, k: string) {
    exists i :: 0 <= i < |ps| && ps[i].id == k
  }

  lemma WrittenSnoc(ps: seq<Point>, k: string)
    requires ps != []
    ensures IsWritten(ps, k) <==> IsWritten(ps[..|ps| - 1], k) || ps[|ps| - 1].id == k
  {
    var init := ps[..|ps| - 1];
    if i :| 0 <= i < |init| && init[i].id == k { assert ps[i].id == k; }
  }

  /** Written points are the same whatever was there before; others stay. */
  lemma {:induction false} WriteAllKey(m: Points, m': Points, ps: seq<Point>, k: string)
    ensures var r, r' := WriteAll(m, ps), WriteAll(m', ps);
            if IsWritten(ps, k) then k in r && k in r' && r[k] == r'[k]
            else (k in r' <==> k in m') && (k in m' ==> r'[k] == m'[k])
  {
    if ps != [] {
      WrittenSnoc(ps, k);
      WriteAllKey(m, m', ps[..|ps| - 1], k);
    }
  }

  /** Writing a batch again changes nothing: a retry is harmless even if the store had taken the first attempt. */
  lemma WriteAllAgain(m: Points, ps: seq<Point>)
    ensures WriteAll(WriteAll(m, ps), ps) == WriteAll(m, ps)
  {
    var r := WriteAll(m, ps);
    forall k ensures k in WriteAll(r, ps) <==> k in r { WriteAllKey(m, r, ps, k); }
    forall k | k in r ensures WriteAll(r, ps)[k] == r[k] { WriteAllKey(m, r, ps, k); }
  }

  /** Every chunk is stored under its document and number, with the vector of its own content. */
  ghost predicate AllStored(encode: string -> Vector, m: Points, docId: string, chunks: seq<Chunk>,
                            sourceId: string, pageHash: string, now: int) {
    forall i: nat :: i < |chunks| ==>
      var k := PointName(docId, i);
      k in m && Describes(m[k], chunks[i], encode(chunks[i].content), sourceId, pageHash, now)
  }

  lemma WrittenIsStored(encode: string -> Vector, m: Points, docId: string, chunks: seq<Chunk>,
                        sourceId: string, pageHash: string, now: int)
    requires NumberedThrough(docId, chunks)
    ensures AllStored(encode, WriteAll(m, PointsFor(chunks, Encoded(encode, ChunkTexts(chunks)), sourceId, pageHash, now)),
                      docId, chunks, sourceId, pageHash, now)
  {
    var w := Page(docId, sourceId, pageHash, now, chunks, Encoded(encode, ChunkTexts(chunks)));
    assert PointsOf(w)[..|chunks|] == PointsOf(w);
    forall i: nat | i < |chunks|
      ensures PointName(docId, i) in WriteAll(m, PointsOf(w))
      ensures Describes(WriteAll(m, PointsOf(w))[PointName(docId, i)], chunks[i], encode(chunks[i].content), sourceId, pageHash, now)
    {
      WrittenAt(m, w, |chunks|, docId, i);
    }
  }

  /** The points written once the batch that starts at `i` has been taken. */
  ghost function Through(i: nat, n: nat): nat {
    if i + WRITE_BATCH <= n then i + WRITE_BATCH else n
  }

  lemma BatchWritten(m: Points, ps: seq<Point>, i: nat, calls: WriteCalls)
    requires i < |ps|
    ensures WriteAll(WriteAll(m, ps[..i]), Batch(ps, i, WRITE_BATCH)) == WriteAll(m, ps[..Through(i, |ps|)])
    ensures WrittenBy(calls, i, |ps|) == if Lands(calls, i, 3) then Through(i, |ps|) else i
  {
    WriteAllAppend(m, ps[..i], Batch(ps, i, WRITE_BATCH));
    assert ps[..Through(i, |ps|)] == ps[..i] + Batch(ps, i, WRITE_BATCH);
  }

  /** The intervals in seconds; a frequency without one is weekly. */
  lemma Intervals(freq: string)
    ensures FreqSeconds("hourly") == 3600 && FreqSeconds("daily") == 86400
    ensures FreqSeconds("weekly") == 604800 && FreqSeconds("monthly") == 2592000
    ensures freq !in {"hourly", "daily", "monthly"} ==> FreqSeconds(freq) == FreqSeconds("weekly")
  {}

  /** The Qdrant collection. */
  class Collection {
    var points: Points

    constructor ()
      ensures points == map[]
    {
      points := map[];
    }

    /** Qdrant's `upsert`: one point after the other, by id. */
    method Upsert(batch: seq<Point>)
      modifies this
      ensures points == WriteAll(old(points), batch)
    {
      for i := 0 to |batch|
        invariant points == WriteAll(old(points), batch[..i])
      {
        assert batch[..i + 1][..i] == batch[..i];
        points := points[batch[i].id := batch[i].payload];
      }
      assert batch[..|batch|] == batch;
    }

    /** Qdrant's `delete` by source; it may raise, whether or not the store has carried it out. */
    method DeleteSource(sourceId: string, reply: Reply) returns (ok: bool)
      modifies this
      ensures ok <==> reply.Accepted?
      ensures forall k :: k in points <==> k in old(points) && (reply.Rejected? || old(points)[k].sourceId != sourceId)
      ensures forall k :: k in points ==> points[k] == old(points)[k]
    {
      if !reply.Rejected? {
        var hits := set k | k in points && points[k].sourceId == sourceId;
        points := points - hits;
      }
      return reply.Accepted?;
    }

    /** `is_page_unchanged`; an unreachable store counts as changed. */
    method IsPageUnchanged(docId: string, pageHash: string, reachable: bool) returns (found: bool)
      ensures found <==> reachable && Unchanged(points, docId, pageHash)
    {
      if pageHash == "" || !reachable { return false; }
      var scroll := set k | k in points && points[k].chunk.docId == docId && points[k].pageHash == pageHash;
      assert forall k :: k in scroll <==> k in points && points[k].chunk.docId == docId && points[k].pageHash == pageHash;
      found := scroll != {};
    }

    /** `should_skip_source`: the freshest point of the source is younger than its interval. */
    method ShouldSkipSource(sourceId: string, freq: string, nowMs: int, reachable: bool) returns (skip: bool)
      ensures exists f :: IsFreshest(points, sourceId, f) &&
                (skip <==> reachable && f.Some? && nowMs - f.value < 1000 * FreqSeconds(freq))
    {
      var rest := set k | k in points && points[k].sourceId == sourceId;
      var freshest: Option<int> := None;
      ghost var seen: set<string> := {};
      while rest != {}
        invariant forall k :: k in points && points[k].sourceId == sourceId <==> k in rest + seen
        invariant freshest.None? <==> seen == {}
        invariant freshest.Some? ==> exists k :: k in seen && points[k].fetchedAt == freshest.value
        invariant forall k :: k in seen ==> freshest.Some? && points[k].fetchedAt <= freshest.value
        decreases rest
      {
        var k :| k in rest;
        rest, seen := rest - {k}, seen + {k};
        if freshest.None? || freshest.value < points[k].fetchedAt {
          freshest := Some(points[k].fetchedAt);
        }
      }
      assert IsFreshest(points, sourceId, freshest);
      skip := reachable && freshest.Some? && nowMs - freshest.value < 1000 * FreqSeconds(freq);
    }

    /** One batch of at most 100 points, with up to three attempts. */
    method WriteBatch(batch: seq<Point>, calls: WriteCalls, i: nat) returns (ok: bool)
      modifies this
      ensures ok <==> Accepts(calls, i, 3)
      ensures points == if Lands(calls, i, 3) then WriteAll(old(points), batch) else old(points)
    {
      for attempt := 0 to 3
        invariant !Accepts(calls, i, attempt)
        invariant points == if Lands(calls, i, attempt) then WriteAll(old(points), batch) else old(points)
      {
        WriteAllAgain(old(points), batch);
        if !calls(i, attempt).Rejected? { Upsert(batch); }
        if calls(i, attempt).Accepted? { return true; }
      }
      return false;
    }

    /** All batches of points; the result says where the first failing batch starts. */
    method WriteBatches(ps: seq<Point>, calls: WriteCalls) returns (failed: Option<nat>)
      modifies this
      ensures failed.None? ==> points == WriteAll(old(points), ps)
      ensures failed.Some? ==> failed.value < |ps| && failed.value % WRITE_BATCH == 0
                               && points == WriteAll(old(points), ps[..WrittenBy(calls, failed.value, |ps|)])
                               && !Accepts(calls, failed.value, 3)
      ensures failed.None? ==> forall j: nat :: j < |ps| && j % WRITE_BATCH == 0 ==> Accepts(calls, j, 3)
    {
      var i: nat := 0;
      while i < |ps|
        invariant i % WRITE_BATCH == 0
        invariant points == WriteAll(old(points), ps[..if i <= |ps| then i else |ps|])
        invariant forall j: nat :: j < i && j % WRITE_BATCH == 0 ==> Accepts(calls, j, 3)
      {
        BatchWritten(old(points), ps, i, calls);
        var ok := WriteBatch(Batch(ps, i, WRITE_BATCH), calls, i);
        if !ok { return Some(i); }
        AcceptedLands(calls, i, 3);
        i := i + WRITE_BATCH;
      }
      assert ps[..|ps|] == ps;
      return None;
    }

    /**
     * `upsert_chunks`: embeds in batches of 128 and writes in batches of 100. It writes each chunk
     * with its own vector, as if one at a time; a write that fails leaves whole batches behind.
     */
    method UpsertChunks(ghost encode: string -> Vector, chunks: seq<Chunk>, sourceId: string, pageHash: string, now: int,
                        embeds: EmbedCalls, writes: WriteCalls) returns (r: Outcome)
      requires AnswersFor(encode, ChunkTexts(chunks), embeds)
      modifies this
      ensures var ps := PointsFor(chunks, Encoded(encode, ChunkTexts(chunks)), sourceId, pageHash, now);
              match r
              case Upserted(n) => n == |chunks| && points == WriteAll(old(points), ps)
              case EmbeddingFailed => points == old(points)
              case WriteFailed(i) =>
                i < |chunks| && i % 100 == 0 && points == WriteAll(old(points), ps[..WrittenBy(writes, i, |ps|)])
      ensures r.EmbeddingFailed? ==> exists i: nat :: i < |chunks| && i % 128 == 0 && !Embeds(embeds, i, 5)
      ensures r.Upserted? ==>
                forall d :: NumberedThrough(d, chunks) ==> AllStored(encode, points, d, chunks, sourceId, pageHash, now)
      ensures r.WriteFailed? ==> !Accepts(writes, r.batch, 3)
      ensures r.Upserted? ==> forall i: nat :: i < |chunks| && i % 100 == 0 ==> Accepts(writes, i, 3)
    {
      forall d | NumberedThrough(d, chunks)
        ensures AllStored(encode, WriteAll(points, PointsFor(chunks, Encoded(encode, ChunkTexts(chunks)), sourceId, pageHash, now)),
                          d, chunks, sourceId, pageHash, now)
      {
        WrittenIsStored(encode, points, d, chunks, sourceId, pageHash, now);
      }
      if chunks == [] { return Upserted(0); }
      var vecs := EmbedAll(encode, ChunkTexts(chunks), embeds);
      if vecs.None? { return EmbeddingFailed; }
      var ps := PointsFor(chunks, vecs.value, sourceId, pageHash, now);
      var failed := WriteBatches(ps, writes);
      return if failed.None? then Upserted(|ps|) else WriteFailed(failed.value);
    }
  }
}
