/** `crawl_links`: breadth-first search over same-host links, up to a page limit. */
module LinkCrawl {
  import opened Basics

  /** The web as the crawler sees it: the links of a page, already absolute, or None; and the host of a URL. */
  datatype Site = Site(fetch: string -> Option<seq<string>>, host: string -> string)

  predicate SameHost(site: Site, seed: string, url: string) {
    site.host(url) == site.host(seed)
  }

  predicate Edge(site: Site, seed: string, u: string, v: string) {
    site.fetch(u).Some? && v in site.fetch(u).value && SameHost(site, seed, v)
  }

  /** `v` can be reached from the seed by `n` same-host links. */
  ghost predicate ReachIn(site: Site, seed: string, v: string, n: nat)
    decreases n
  {
    if n == 0 then v == seed else exists u :: ReachIn(site, seed, u, n - 1) && Edge(site, seed, u, v)
  }

  ghost predicate Reachable(site: Site, seed: string, v: string) {
    exists n: nat :: ReachIn(site, seed, v, n)
  }

  /** `n` is the least number of links from the seed to `v`. */
  ghost predicate Distance(site: Site, seed: string, v: string, n: nat) {
    ReachIn(site, seed, v, n) && forall m: nat :: ReachIn(site, seed, v, m) ==> n <= m
  }

  function NewLinks(site: Site, seed: string, links: seq<string>, visited: set<string>): seq<string> {
    if links == [] then []
    else
      var l := links[|links| - 1];
      NewLinks(site, seed, links[..|links| - 1], visited)
      + if SameHost(site, seed, l) && l !in visited then [l] else []
  }

  lemma {:induction false} NewLinksHas(site: Site, seed: string, links: seq<string>, visited: set<string>, v: string)
    ensures v in NewLinks(site, seed, links, visited) <==> v in links && SameHost(site, seed, v) && v !in visited
  {
    if links != [] {
      NewLinksHas(site, seed, links[..|links| - 1], visited, v);
      assert links == links[..|links| - 1] + [links[|links| - 1]];
    }
  }

  // ---- The search state, annotated with depths ------------------------------------

  /** The queue with the depth of each entry, the visited pages with their distances, and the fetches in order. */
  datatype Search = Search(queue: seq<string>, depths: seq<nat>, dist: map<string, nat>, fetched: seq<string>)

  /** The queue runs through at most two neighbouring depths, in order, and its entries are reachable. */
  ghost predicate QueueOk(site: Site, seed: string, s: Search) {
    && |s.depths| == |s.queue|
    && (forall i :: 0 <= i < |s.queue| ==> ReachIn(site, seed, s.queue[i], s.depths[i]))
    && (forall i, j :: 0 <= i < j < |s.queue| ==> s.depths[i] <= s.depths[j])
    && (forall i :: 0 <= i < |s.queue| ==> s.depths[i] <= s.depths[0] + 1)
  }

  /** Visited pages carry their distance, were fetched once each, nearest first, and none is farther than the queue. */
  ghost predicate VisitedOk(site: Site, seed: string, s: Search) {
    && (forall v :: v in s.dist ==> Distance(site, seed, v, s.dist[v]))
    && (forall i :: 0 <= i < |s.fetched| ==> s.fetched[i] in s.dist)
    && (forall v :: v in s.dist ==> v in s.fetched)
    && (forall i, j :: 0 <= i < j < |s.fetched| ==> s.fetched[i] != s.fetched[j] && s.dist[s.fetched[i]] <= s.dist[s.fetched[j]])
    && (s.queue != [] && |s.depths| == |s.queue| ==> forall v :: v in s.dist ==> s.dist[v] <= s.depths[0])
  }

  /** `v` was visited at distance at most `n`, or waits in the queue at depth at most `n`. */
  ghost predicate Within(s: Search, v: string, n: nat) {
    || (v in s.dist && s.dist[v] <= n)
    || (exists i :: 0 <= i < |s.queue| && i < |s.depths| && s.queue[i] == v && s.depths[i] <= n)
  }

  /** The seed, and every link of a visited page, was visited or is waiting. */
  ghost predicate FrontierOk(site: Site, seed: string, s: Search) {
    && Within(s, seed, 0)
    && forall u, v :: u in s.dist && Edge(site, seed, u, v) ==> Within(s, v, s.dist[u] + 1)
  }

  ghost predicate Ok(site: Site, seed: string, s: Search) {
    QueueOk(site, seed, s) && VisitedOk(site, seed, s) && FrontierOk(site, seed, s)
  }

  /** Whatever is reachable in `n` links was visited by then, or something waits at depth at most `n`. */
  lemma {:induction false} Frontier(site: Site, seed: string, s: Search, v: string, n: nat)
    requires FrontierOk(site, seed, s) && ReachIn(site, seed, v, n)
    ensures (v in s.dist && s.dist[v] <= n) || exists i :: 0 <= i < |s.queue| && i < |s.depths| && s.depths[i] <= n
    decreases n
  {
    if n > 0 {
      var u :| ReachIn(site, seed, u, n - 1) && Edge(site, seed, u, v);
      Frontier(site, seed, s, u, n - 1);
      if u in s.dist && s.dist[u] <= n - 1 {
        assert Within(s, v, s.dist[u] + 1);
      }
    }
  }

  lemma EdgeReach(site: Site, seed: string, u: string, v: string, n: nat)
    requires ReachIn(site, seed, u, n) && Edge(site, seed, u, v)
    ensures ReachIn(site, seed, v, n + 1)
  {}

  function Pop(s: Search): Search
    requires s.queue != [] && s.depths != []
  {
    s.(queue := s.queue[1..], depths := s.depths[1..])
  }

  /** Dropping the head of the queue loses nothing once that page is visited. */
  lemma WithinAfterPop(s: Search, t: Search, v: string, n: nat)
    requires s.queue != [] && |s.depths| == |s.queue| && |t.depths| == |t.queue|
    requires s.queue[1..] <= t.queue && s.depths[1..] <= t.depths
    requires forall w :: w in s.dist ==> w in t.dist && t.dist[w] == s.dist[w]
    requires v == s.queue[0] ==> v in t.dist && t.dist[v] <= n
    requires Within(s, v, n)
    ensures Within(t, v, n)
  {
    if v !in s.dist || s.dist[v] > n {
      var i :| 0 <= i < |s.queue| && s.queue[i] == v && s.depths[i] <= n;
      if i > 0 {
        assert s.queue[1..][i - 1] == v && s.depths[1..][i - 1] == s.depths[i];
        assert t.queue[i - 1] == v && t.depths[i - 1] <= n;
      }
    }
  }

  /** The head of the queue was visited before: it is skipped. */
  lemma SkipKeepsOk(site: Site, seed: string, s: Search)
    requires Ok(site, seed, s) && s.queue != [] && s.queue[0] in s.dist
    ensures Ok(site, seed, Pop(s))
  {
    var t, url := Pop(s), s.queue[0];
    assert t.queue != [] ==> t.depths[0] == s.depths[1];
    assert QueueOk(site, seed, t);
    assert Within(t, seed, 0) by {
      if url == seed { assert ReachIn(site, seed, seed, 0); }
      WithinAfterPop(s, t, seed, 0);
    }
    forall u, v | u in t.dist && Edge(site, seed, u, v) ensures Within(t, v, t.dist[u] + 1) {
      EdgeReach(site, seed, u, v, s.dist[u]);
      WithinAfterPop(s, t, v, s.dist[u] + 1);
    }
  }

  /** The state after the head of the queue was fetched and its new links were appended. */
  function Fetch(s: Search, links: seq<string>): Search
    requires s.queue != [] && |s.depths| == |s.queue|
  {
    var url, d := s.queue[0], s.depths[0];
    Search(s.queue[1..] + links, s.depths[1..] + seq(|links|, _ => d + 1), s.dist[url := d], s.fetched + [url])
  }

  lemma HeadIsNearest(site: Site, seed: string, s: Search)
    requires Ok(site, seed, s) && s.queue != [] && s.queue[0] !in s.dist
    ensures Distance(site, seed, s.queue[0], s.depths[0])
  {
    forall m: nat | ReachIn(site, seed, s.queue[0], m) ensures s.depths[0] <= m {
      Frontier(site, seed, s, s.queue[0], m);
    }
  }

  lemma FetchDepths(s: Search, links: seq<string>)
    requires s.queue != [] && |s.depths| == |s.queue|
    requires forall i, j :: 0 <= i < j < |s.queue| ==> s.depths[i] <= s.depths[j]
    requires forall i :: 0 <= i < |s.queue| ==> s.depths[i] <= s.depths[0] + 1
    ensures var t, d := Fetch(s, links), s.depths[0];
            && |t.depths| == |t.queue|
            && (forall i :: 0 <= i < |t.queue| ==> d <= t.depths[i] <= d + 1)
            && (forall i, j :: 0 <= i < j < |t.queue| ==> t.depths[i] <= t.depths[j])
  {
    var t, d := Fetch(s, links), s.depths[0];
    assert forall i :: 0 <= i < |s.queue| - 1 ==> t.depths[i] == s.depths[i + 1];
    assert forall i :: |s.queue| - 1 <= i < |t.queue| ==> t.depths[i] == d + 1;
  }

  lemma FetchKeepsQueue(site: Site, seed: string, s: Search, links: seq<string>)
    requires QueueOk(site, seed, s) && s.queue != []
    requires forall v :: v in links ==> Edge(site, seed, s.queue[0], v)
    ensures QueueOk(site, seed, Fetch(s, links))
    ensures Fetch(s, links).queue != [] ==> Fetch(s, links).depths[0] >= s.depths[0]
  {
    var t, n := Fetch(s, links), |s.queue| - 1;
    FetchDepths(s, links);
    forall i | 0 <= i < |t.queue| ensures ReachIn(site, seed, t.queue[i], t.depths[i]) {
      if i < n {
        assert t.queue[i] == s.queue[i + 1] && t.depths[i] == s.depths[i + 1];
      } else {
        assert t.queue[i] == links[i - n];
        EdgeReach(site, seed, s.queue[0], links[i - n], s.depths[0]);
      }
    }
  }

  lemma FetchKeepsVisited(site: Site, seed: string, s: Search, links: seq<string>)
    requires Ok(site, seed, s) && s.queue != [] && s.queue[0] !in s.dist
    requires Fetch(s, links).queue != [] ==> Fetch(s, links).depths[0] >= s.depths[0]
    ensures VisitedOk(site, seed, Fetch(s, links))
  {
    HeadIsNearest(site, seed, s);
    var t := Fetch(s, links);
    assert forall i :: 0 <= i < |s.fetched| ==> t.fetched[i] == s.fetched[i];
    assert t.fetched[|s.fetched|] == s.queue[0];
  }

  lemma FetchKeepsFrontier(site: Site, seed: string, s: Search, links: seq<string>)
    requires Ok(site, seed, s) && s.queue != [] && s.queue[0] !in s.dist
    requires forall v :: Edge(site, seed, s.queue[0], v) ==> v in links || v in s.dist || v == s.queue[0]
    ensures FrontierOk(site, seed, Fetch(s, links))
  {
    var t, url, d := Fetch(s, links), s.queue[0], s.depths[0];
    HeadIsNearest(site, seed, s);
    assert Within(t, seed, 0) by {
      if url == seed { assert ReachIn(site, seed, seed, 0); }
      WithinAfterPop(s, t, seed, 0);
    }
    forall u, v | u in t.dist && Edge(site, seed, u, v) ensures Within(t, v, t.dist[u] + 1) {
      if u == url {
        if v in links {
          var k :| 0 <= k < |links| && links[k] == v;
          var i := |s.queue| - 1 + k;
          assert t.queue[i] == v && t.depths[i] == d + 1;
        }
      } else {
        EdgeReach(site, seed, u, v, s.dist[u]);
        WithinAfterPop(s, t, v, s.dist[u] + 1);
      }
    }
  }

  /** The head of the queue is new: it is fetched, and its unvisited same-host links are appended. */
  lemma FetchKeepsOk(site: Site, seed: string, s: Search, links: seq<string>, visited: set<string>, added: seq<string>)
    requires Ok(site, seed, s) && s.queue != [] && s.queue[0] !in s.dist
    requires links == if site.fetch(s.queue[0]).Some? then site.fetch(s.queue[0]).value else []
    requires visited == s.dist.Keys + {s.queue[0]} && added == NewLinks(site, seed, links, visited)
    ensures Ok(site, seed, Fetch(s, added))
  {
    forall v ensures v in added <==> v in links && SameHost(site, seed, v) && v !in visited {
      NewLinksHas(site, seed, links, visited, v);
    }
    FetchKeepsQueue(site, seed, s, added);
    FetchKeepsVisited(site, seed, s, added);
    FetchKeepsFrontier(site, seed, s, added);
  }

  /** No page is fetched twice, and none before a nearer one. */
  ghost predicate NearestFirst(site: Site, seed: string, fetched: seq<string>) {
    forall i, j :: 0 <= i < j < |fetched| ==>
      fetched[i] != fetched[j] && NotFarther(site, seed, fetched[i], fetched[j])
  }

  ghost predicate NotFarther(site: Site, seed: string, u: string, v: string) {
    exists m, n :: Distance(site, seed, u, m) && Distance(site, seed, v, n) && m <= n
  }

  lemma FetchedNearestFirst(site: Site, seed: string, s: Search)
    requires VisitedOk(site, seed, s)
    ensures NearestFirst(site, seed, s.fetched)
  {
    forall i, j | 0 <= i < j < |s.fetched| ensures NotFarther(site, seed, s.fetched[i], s.fetched[j]) {
      assert Distance(site, seed, s.fetched[i], s.dist[s.fetched[i]]);
      assert Distance(site, seed, s.fetched[j], s.dist[s.fetched[j]]);
    }
  }

  /** Whatever is reachable and left out is at least as far as everything visited. */
  ghost predicate NothingNearerLeft(site: Site, seed: string, visited: set<string>) {
    forall u, v :: u in visited && v !in visited && Reachable(site, seed, v) ==> NotFarther(site, seed, u, v)
  }

  lemma {:induction false} LeastReach(site: Site, seed: string, v: string, n: nat) returns (d: nat)
    requires ReachIn(site, seed, v, n)
    ensures Distance(site, seed, v, d)
    decreases n
  {
    if m: nat :| m < n && ReachIn(site, seed, v, m) {
      d := LeastReach(site, seed, v, m);
    } else {
      d := n;
    }
  }

  lemma LeftIsFarther(site: Site, seed: string, s: Search, u: string, v: string)
    requires Ok(site, seed, s) && u in s.dist && v !in s.dist && Reachable(site, seed, v)
    ensures NotFarther(site, seed, u, v)
  {
    var n: nat :| ReachIn(site, seed, v, n);
    var d := LeastReach(site, seed, v, n);
    Frontier(site, seed, s, v, d);
    assert Distance(site, seed, u, s.dist[u]) && s.dist[u] <= d;
  }

  /** What holds when the loop stops: the queue is empty, or the limit was reached. */
  lemma SearchResult(site: Site, seed: string, s: Search)
    requires Ok(site, seed, s)
    ensures forall v :: v in s.dist ==> Reachable(site, seed, v)
    ensures s.queue == [] ==> forall v :: Reachable(site, seed, v) ==> v in s.dist
    ensures NothingNearerLeft(site, seed, s.dist.Keys)
  {
    forall u, v | u in s.dist.Keys && v !in s.dist.Keys && Reachable(site, seed, v) ensures NotFarther(site, seed, u, v) {
      LeftIsFarther(site, seed, s, u, v);
    }
    forall v | v in s.dist ensures Reachable(site, seed, v) { assert ReachIn(site, seed, v, s.dist[v]); }
    if s.queue == [] {
      forall v | Reachable(site, seed, v) ensures v in s.dist {
        var n: nat :| ReachIn(site, seed, v, n);
        Frontier(site, seed, s, v, n);
      }
    }
  }

  function Start(seed: string): Search {
    Search([seed], [0], map[], [])
  }

  lemma StartIsOk(site: Site, seed: string)
    ensures Ok(site, seed, Start(seed))
  {
    assert Within(Start(seed), seed, 0) by { assert Start(seed).queue[0] == seed; }
  }

  /** Every visited page but the seed is on the seed's host, and some visited page links to it. */
  ghost predicate LinkedWithin(site: Site, seed: string, visited: set<string>) {
    forall v :: v in visited && v != seed ==>
      site.host(v) == site.host(seed) && exists u :: u in visited && site.fetch(u).Some? && v in site.fetch(u).value
  }

  /** Every link of a visited page that stays on the seed's host is visited. */
  ghost predicate ClosedOnHost(site: Site, seed: string, visited: set<string>) {
    forall u, v :: u in visited && site.fetch(u).Some? && v in site.fetch(u).value && site.host(v) == site.host(seed) ==> v in visited
  }

  /** A visited page at distance `n` has a link from a visited page one nearer. */
  lemma VisitedIsLinked(site: Site, seed: string, s: Search, v: string) returns (u: string)
    requires Ok(site, seed, s) && v in s.dist && v != seed
    ensures u in s.dist && Edge(site, seed, u, v)
  {
    var n := s.dist[v];
    assert ReachIn(site, seed, v, n);
    u :| ReachIn(site, seed, u, n - 1) && Edge(site, seed, u, v);
    Frontier(site, seed, s, u, n - 1);
  }

  /** Where the search stops, in terms of hosts and links alone. */
  lemma SearchStaysOnHost(site: Site, seed: string, s: Search)
    requires Ok(site, seed, s)
    ensures LinkedWithin(site, seed, s.dist.Keys)
    ensures s.queue == [] ==> ClosedOnHost(site, seed, s.dist.Keys)
  {
    forall v | v in s.dist.Keys && v != seed
      ensures site.host(v) == site.host(seed) && exists u :: u in s.dist.Keys && site.fetch(u).Some? && v in site.fetch(u).value
    {
      var u := VisitedIsLinked(site, seed, s, v);
      assert u in s.dist.Keys;
    }
    if s.queue == [] {
      forall u, v | u in s.dist.Keys && site.fetch(u).Some? && v in site.fetch(u).value && site.host(v) == site.host(seed)
        ensures v in s.dist.Keys
      {
        assert Edge(site, seed, u, v);
        assert Within(s, v, s.dist[u] + 1);
      }
    }
  }

  lemma NewLinksSnoc(site: Site, seed: string, links: seq<string>, visited: set<string>, l: string)
    ensures NewLinks(site, seed, links + [l], visited)
         == NewLinks(site, seed, links, visited) + if site.host(l) == site.host(seed) && l !in visited then [l] else []
    ensures NewLinks(site, seed, [], visited) == []
  {
    assert (links + [l])[..|links|] == links;
  }

  /** The links worth queueing, in order. */
  method CollectLinks(site: Site, seed: string, links: seq<string>, visited: set<string>, queue: seq<string>)
    returns (q: seq<string>)
    ensures q == queue + NewLinks(site, seed, links, visited)
    ensures queue <= q
    ensures forall v :: v in q[|queue|..] <==> v in links && site.host(v) == site.host(seed) && v !in visited
  {
    q := queue;
    for k := 0 to |links|
      invariant q == queue + NewLinks(site, seed, links[..k], visited)
    {
      assert links[..k + 1][..k] == links[..k];
      if SameHost(site, seed, links[k]) && links[k] !in visited {
        q := q + [links[k]];
      }
    }
    assert links[..|links|] == links;
    assert q[|queue|..] == NewLinks(site, seed, links, visited);
    forall v ensures v in NewLinks(site, seed, links, visited) <==> v in links && SameHost(site, seed, v) && v !in visited {
      NewLinksHas(site, seed, links, visited, v);
    }
  }

  /** The variables of the loop, and the annotated state that stands for them. */
  ghost predicate Searching(site: Site, seed: string, s: Search, queue: seq<string>, visited: set<string>, fetched: seq<string>) {
    Ok(site, seed, s) && s.queue == queue && s.fetched == fetched && s.dist.Keys == visited
  }

  /** One round of the loop: the head of the queue is skipped, or fetched and its links queued. */
  method VisitNext(site: Site, seed: string, queue: seq<string>, visited: set<string>, fetched: seq<string>, ghost s: Search)
    returns (queue': seq<string>, visited': set<string>, fetched': seq<string>, ghost s': Search)
    requires Searching(site, seed, s, queue, visited, fetched) && queue != []
    ensures Searching(site, seed, s', queue', visited', fetched')
    ensures |visited'| == |visited| + 1 || (visited' == visited && |queue'| < |queue|)
  {
    var url := queue[0];
    if url in visited {
      SkipKeepsOk(site, seed, s);
      return queue[1..], visited, fetched, Pop(s);
    }
    var resp := site.fetch(url);
    var links := if resp.Some? then resp.value else [];
    var q := CollectLinks(site, seed, links, visited + {url}, queue[1..]);
    ghost var added := NewLinks(site, seed, links, visited + {url});
    FetchKeepsOk(site, seed, s, links, visited + {url}, added);
    return q, visited + {url}, fetched + [url], Fetch(s, added);
  }

  /**
   * `crawl_links`: fetches each page once, nearest first, only pages reachable from the seed, and all
   * of those unless it stops at the limit.
   */
  method CrawlLinks(site: Site, seed: string, maxPages: nat) returns (visited: set<string>, fetched: seq<string>)
    ensures |visited| <= maxPages
    ensures forall v :: v in visited <==> v in fetched
    ensures NearestFirst(site, seed, fetched) && NothingNearerLeft(site, seed, visited)
    ensures forall v :: v in visited ==> Reachable(site, seed, v)
    ensures |visited| == maxPages || forall v :: Reachable(site, seed, v) ==> v in visited
    ensures LinkedWithin(site, seed, visited)
    ensures |visited| == maxPages || ClosedOnHost(site, seed, visited)
  {
    visited, fetched := {}, [];
    var queue := [seed];
    ghost var s := Start(seed);
    StartIsOk(site, seed);
    while queue != [] && |visited| < maxPages
      invariant Searching(site, seed, s, queue, visited, fetched) && |visited| <= maxPages
      decreases maxPages - |visited|, |queue|
    {
      queue, visited, fetched, s := VisitNext(site, seed, queue, visited, fetched, s);
    }
    SearchResult(site, seed, s);
    FetchedNearestFirst(site, seed, s);
    SearchStaysOnHost(site, seed, s);
  }
}
