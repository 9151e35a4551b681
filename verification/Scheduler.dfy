/** Scheduler runs: each tick crawls a source unless its freshest point is younger than its interval. */
module Scheduler {
  import opened Basics
  import opened PointStore
  import opened VectorStore

  /**
   * A tick at time `at` (milliseconds): whether the store answers, and the points that a crawl
   * writes if the tick crawls. Partial writes, and crawls that write nothing, are included.
   */
  datatype Tick = Tick(at: int, reachable: bool, writes: seq<Point>)

  /** A scheduled source and its clockwork: its interval, and how long after a tick a crawl may still stamp points. */
  datatype Plan = Plan(source: string, interval: nat, delay: nat)

  /** Some point of the source is younger than the interval. */
  ghost predicate Fresh(p: Plan, m: Points, at: int) {
    exists k :: k in m && m[k].sourceId == p.source && at - m[k].fetchedAt < p.interval
  }

  ghost predicate Skips(p: Plan, m: Points, t: Tick) {
    t.reachable && Fresh(p, m, t.at)
  }

  /** The one freshest point that `should_skip_source` looks up decides for all. */
  lemma FreshestDecides(p: Plan, m: Points, at: int, f: Option<int>)
    requires IsFreshest(m, p.source, f)
    ensures Fresh(p, m, at) <==> f.Some? && at - f.value < p.interval
  {}

  ghost function Ticked(p: Plan, m: Points, t: Tick): Points {
    if Skips(p, m, t) then m else WriteAll(m, t.writes)
  }

  /** The store before tick `n`. */
  ghost function StoreAt(p: Plan, m: Points, ts: seq<Tick>, n: nat): Points
    requires n <= |ts|
  {
    if n == 0 then m else Ticked(p, StoreAt(p, m, ts, n - 1), ts[n - 1])
  }

  ghost predicate Crawls(p: Plan, m: Points, ts: seq<Tick>, n: nat)
    requires n < |ts|
  {
    !Skips(p, StoreAt(p, m, ts, n), ts[n])
  }

  /** The points of a crawl are the source's own, stamped from the tick on, and never older than what they replace. */
  ghost predicate ValidWrites(p: Plan, m: Points, t: Tick) {
    && (forall i :: 0 <= i < |t.writes| ==>
          t.writes[i].payload.sourceId == p.source && t.at <= t.writes[i].payload.fetchedAt <= t.at + p.delay)
    && (forall i :: 0 <= i < |t.writes| ==> NotOlder(WriteAll(m, t.writes[..i]), t.writes[i]))
  }

  ghost predicate NotOlder(m: Points, w: Point) {
    w.id in m ==> m[w.id].fetchedAt <= w.payload.fetchedAt
  }

  ghost predicate ValidTick(p: Plan, m: Points, ts: seq<Tick>, n: nat)
    requires n < |ts|
  {
    ValidWrites(p, StoreAt(p, m, ts, n), ts[n])
  }

  /** Ticks in order of time, over a store whose stamps are not from the future. */
  ghost predicate ValidRun(p: Plan, m: Points, ts: seq<Tick>) {
    && (forall j, k :: 0 <= j < k < |ts| ==> ts[j].at <= ts[k].at)
    && (forall k, i :: k in m && m[k].sourceId == p.source && 0 <= i < |ts| ==> m[k].fetchedAt <= ts[i].at + p.delay)
    && (forall n :: 0 <= n < |ts| ==> ValidTick(p, m, ts, n))
  }

  // ---- What the writes of one crawl do to the stamps --------------------------------------

  /** The source has a point that is at least as fresh as `f`. */
  ghost predicate HasFrom(p: Plan, m: Points, f: int) {
    exists k :: k in m && m[k].sourceId == p.source && m[k].fetchedAt >= f
  }

  lemma {:induction false} WritesKeepFrom(p: Plan, m: Points, t: Tick, n: nat, f: int)
    requires ValidWrites(p, m, t) && n <= |t.writes|
    requires HasFrom(p, m, f) || exists i :: 0 <= i < n && t.writes[i].payload.fetchedAt >= f
    ensures HasFrom(p, WriteAll(m, t.writes[..n]), f)
  {
    if n == 0 {
      assert t.writes[..0] == [];
    } else {
      var w, before := t.writes[n - 1], WriteAll(m, t.writes[..n - 1]);
      assert t.writes[..n][..n - 1] == t.writes[..n - 1];
      var after := before[w.id := w.payload];
      assert WriteAll(m, t.writes[..n]) == after;
      assert NotOlder(before, w);
      if w.payload.fetchedAt >= f {
        assert w.id in after && after[w.id].sourceId == p.source;
      } else {
        WritesKeepFrom(p, m, t, n - 1, f);
        var k :| k in before && before[k].sourceId == p.source && before[k].fetchedAt >= f;
        assert k in after && after[k].fetchedAt >= f && after[k].sourceId == p.source;
      }
    }
  }

  ghost predicate UpTo(p: Plan, m: Points, f: int) {
    forall k :: k in m && m[k].sourceId == p.source ==> m[k].fetchedAt <= f
  }

  lemma {:induction false} WritesKeepUpTo(p: Plan, m: Points, t: Tick, n: nat, f: int)
    requires ValidWrites(p, m, t) && n <= |t.writes| && UpTo(p, m, f) && t.at + p.delay <= f
    ensures UpTo(p, WriteAll(m, t.writes[..n]), f)
  {
    if n == 0 {
      assert t.writes[..0] == [];
    } else {
      WritesKeepUpTo(p, m, t, n - 1, f);
      assert t.writes[..n][..n - 1] == t.writes[..n - 1];
    }
  }

  // ---- Over a run ----------------------------------------------------------------------------

  /** A point at least as fresh as `f` is there before tick `n0`, and stays so through all later ticks. */
  lemma {:induction false} StaysFrom(p: Plan, m: Points, ts: seq<Tick>, n0: nat, n: nat, f: int)
    requires ValidRun(p, m, ts) && n0 <= n <= |ts| && HasFrom(p, StoreAt(p, m, ts, n0), f)
    ensures HasFrom(p, StoreAt(p, m, ts, n), f)
  {
    if n0 < n {
      var t, before := ts[n - 1], StoreAt(p, m, ts, n - 1);
      assert t.writes[..|t.writes|] == t.writes && ValidTick(p, m, ts, n - 1);
      StaysFrom(p, m, ts, n0, n - 1, f);
      if !Skips(p, before, t) { WritesKeepFrom(p, before, t, |t.writes|, f); }
    }
  }

  /** The source keeps a point at least as fresh as any that a crawl has written, through all later ticks. */
  lemma StaysCovered(p: Plan, m: Points, ts: seq<Tick>, j: nat, i: nat, n: nat)
    requires ValidRun(p, m, ts) && j < n <= |ts| && Crawls(p, m, ts, j) && i < |ts[j].writes|
    ensures HasFrom(p, StoreAt(p, m, ts, n), ts[j].writes[i].payload.fetchedAt)
  {
    var t, f := ts[j], ts[j].writes[i].payload.fetchedAt;
    assert t.writes[..|t.writes|] == t.writes && ValidTick(p, m, ts, j);
    WritesKeepFrom(p, StoreAt(p, m, ts, j), t, |t.writes|, f);
    StaysFrom(p, m, ts, j + 1, n, f);
  }

  /** Nothing in the store is stamped later than the latest tick allows. */
  lemma {:induction false} StampsUpTo(p: Plan, m: Points, ts: seq<Tick>, n: nat, f: int)
    requires ValidRun(p, m, ts) && 0 < n <= |ts| && ts[n - 1].at + p.delay <= f
    ensures UpTo(p, StoreAt(p, m, ts, n), f)
  {
    var t, before := ts[n - 1], StoreAt(p, m, ts, n - 1);
    assert t.writes[..|t.writes|] == t.writes && ValidTick(p, m, ts, n - 1);
    if n > 1 { StampsUpTo(p, m, ts, n - 1, f); }
    if !Skips(p, before, t) { WritesKeepUpTo(p, before, t, |t.writes|, f); }
  }

  lemma {:induction false} SkippedTicksKeepStore(p: Plan, m: Points, ts: seq<Tick>, k: nat, n: nat)
    requires k < n <= |ts| && forall i: nat :: k < i < n ==> !Crawls(p, m, ts, i)
    ensures StoreAt(p, m, ts, n) == StoreAt(p, m, ts, k + 1)
  {
    if n > k + 1 {
      SkippedTicksKeepStore(p, m, ts, k, n - 1);
      assert !Crawls(p, m, ts, n - 1);
    }
  }

  // ---- Main results -------------------------------------------------------------------------------

  /** Before tick `k` a point of the source was stamped `f`, by an earlier crawl or before the run. */
  ghost predicate Stamped(p: Plan, m: Points, ts: seq<Tick>, k: nat, f: int)
    requires k <= |ts|
  {
    || (exists x :: x in m && m[x].sourceId == p.source && m[x].fetchedAt == f)
    || (exists j, i :: 0 <= j < k && Crawls(p, m, ts, j) && 0 <= i < |ts[j].writes| && ts[j].writes[i].payload.fetchedAt == f)
  }

  /** No source is crawled within its interval after any stamp one of its points ever had, unless the store is down. */
  lemma NeverCrawledEarly(p: Plan, m: Points, ts: seq<Tick>, k: nat, f: int)
    requires ValidRun(p, m, ts) && k < |ts| && Stamped(p, m, ts, k, f)
    requires Crawls(p, m, ts, k) && ts[k].reachable
    ensures ts[k].at >= f + p.interval
  {
    if x :| x in m && m[x].sourceId == p.source && m[x].fetchedAt == f {
      StaysFrom(p, m, ts, 0, k, f);
    } else {
      var j, i :| 0 <= j < k && Crawls(p, m, ts, j) && 0 <= i < |ts[j].writes| && ts[j].writes[i].payload.fetchedAt == f;
      StaysCovered(p, m, ts, j, i, k);
    }
    assert !Fresh(p, StoreAt(p, m, ts, k), ts[k].at);
  }

  /** Until a source has a point it is crawled at every tick. */
  lemma {:induction false} NoPointsNeverSkipped(p: Plan, m: Points, ts: seq<Tick>, k: nat)
    requires k < |ts| && (forall x :: x in m ==> m[x].sourceId != p.source)
    requires forall j :: 0 <= j < k ==> ts[j].writes == []
    ensures StoreAt(p, m, ts, k) == m && Crawls(p, m, ts, k)
  {
    if k > 0 { NoPointsNeverSkipped(p, m, ts, k - 1); }
  }

  /** A crawl that writes nothing is repeated at the next tick. */
  lemma EmptyCrawlIsRepeated(p: Plan, m: Points, ts: seq<Tick>, k: nat)
    requires ValidRun(p, m, ts) && k + 1 < |ts|
    requires Crawls(p, m, ts, k) && ts[k].reachable && ts[k].writes == []
    ensures Crawls(p, m, ts, k + 1)
  {
    assert StoreAt(p, m, ts, k + 1) == StoreAt(p, m, ts, k);
  }

  /** A tick that comes an interval and a write delay after a crawl is itself a crawl, unless one came in between. */
  lemma DueTickCrawls(p: Plan, m: Points, ts: seq<Tick>, k: nat, n: nat)
    requires ValidRun(p, m, ts) && k < n < |ts|
    requires forall i: nat :: k < i < n ==> !Crawls(p, m, ts, i)
    requires ts[n].at >= ts[k].at + p.delay + p.interval
    ensures Crawls(p, m, ts, n)
  {
    SkippedTicksKeepStore(p, m, ts, k, n);
    StampsUpTo(p, m, ts, k + 1, ts[k].at + p.delay);
  }

  /** Consecutive crawls are never further apart than the interval, the write delay and one tick. */
  lemma CrawlGapIsBounded(p: Plan, m: Points, ts: seq<Tick>, period: nat, k: nat, n: nat)
    requires ValidRun(p, m, ts) && k < n < |ts|
    requires forall i :: 0 <= i < |ts| - 1 ==> ts[i + 1].at <= ts[i].at + period
    requires forall i: nat :: k < i < n ==> !Crawls(p, m, ts, i)
    ensures ts[n].at <= ts[k].at + p.interval + p.delay + period
  {
    assert ts[n - 1 + 1].at <= ts[n - 1].at + period;
    if n > k + 1 {
      assert !Crawls(p, m, ts, n - 1);
      if ts[n - 1].at >= ts[k].at + p.delay + p.interval { DueTickCrawls(p, m, ts, k, n - 1); }
    }
  }

  /** `process_source` at a tick. */
  method ProcessSource(coll: Collection, source: string, freq: string, t: Tick) returns (crawled: bool)
    modifies coll
    ensures var p := Plan(source, 1000 * FreqSeconds(freq), 0);
            (crawled <==> !Skips(p, old(coll.points), t)) && coll.points == Ticked(p, old(coll.points), t)
  {
    ghost var p := Plan(source, 1000 * FreqSeconds(freq), 0);
    var skip := coll.ShouldSkipSource(source, freq, t.at, t.reachable);
    ghost var f :| IsFreshest(coll.points, source, f) && (skip <==> t.reachable && f.Some? && t.at - f.value < p.interval);
    FreshestDecides(p, coll.points, t.at, f);
    if skip { return false; }
    coll.Upsert(t.writes);
    return true;
  }
}
