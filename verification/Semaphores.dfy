/** The crawler's tasks and the permits they take, as a state machine over all interleavings. */
module Semaphores {
  import opened Basics

  // ---- Tasks -------------------------------------------------------------------------

  /** The semaphores; each sitemap source has its own for pages, each host its own for requests. */
  datatype Sem = SourceSem | PageSem(source: nat) | HostSem(host: string) | ClassifySem | WriteSem

  function Capacity(s: Sem): nat {
    match s
    case SourceSem => 12
    case PageSem(_) => 10
    case HostSem(_) => 3
    case ClassifySem => 30
    case WriteSem => 8
  }

  /** How deep a semaphore nests: permits are taken in this order. */
  function Rank(s: Sem): nat {
    match s
    case SourceSem => 0
    case PageSem(_) => 1
    case HostSem(_) => 2
    case ClassifySem => 2
    case WriteSem => 2
  }

  /** What a task does between two awaits; Spawn and Join are the halves of `asyncio.gather`. */
  datatype Op = Acquire(sem: Sem) | Release(sem: Sem) | Spawn | Join

  /** A source (no parent) or a page: whether it runs or raised, the permits it holds, and what it has left to do. */
  datatype Task = Task(parent: Option<nat>, started: bool, failed: bool, held: seq<Sem>, rest: seq<Op>)

  datatype State = State(tasks: seq<Task>, permits: Sem -> nat)

  // ---- Programs --------------------------------------------------------------------------

  /** Requests, classifications and writes: each permit is released before the next is taken. */
  function Brackets(leaves: seq<Sem>): seq<Op> {
    if leaves == [] then [] else [Acquire(leaves[0]), Release(leaves[0])] + Brackets(leaves[1..])
  }

  /** `bounded`: fetches (and for some adapters writes) under the source's permit, then perhaps all pages at once. */
  function SourceProgram(leaves: seq<Sem>, pages: bool): seq<Op> {
    [Acquire(SourceSem)] + (Brackets(leaves) + ((if pages then [Spawn, Join] else []) + [Release(SourceSem)]))
  }

  /** `process_one` of a sitemap; that of direct URLs is just the brackets. */
  function SitemapPage(source: nat, leaves: seq<Sem>): seq<Op> {
    [Acquire(PageSem(source))] + (Brackets(leaves) + [Release(PageSem(source))])
  }

  lemma {:induction false} BracketsMean(leaves: seq<Sem>, i: nat)
    requires i < |leaves|
    ensures |Brackets(leaves)| == 2 * |leaves|
    ensures Brackets(leaves)[2 * i] == Acquire(leaves[i]) && Brackets(leaves)[2 * i + 1] == Release(leaves[i])
  {
    if |leaves| > 1 { BracketsMean(leaves[1..], if i > 0 then i - 1 else 0); }
  }

  /** A program runs under its own permit; a source with pages starts them last and waits for them before the release. */
  lemma ProgramsMean(source: nat, leaves: seq<Sem>, i: nat)
    requires i < |leaves|
    ensures var page, n := SitemapPage(source, leaves), 2 * |leaves|;
            && |page| == n + 2 && page[0] == Acquire(PageSem(source)) && page[n + 1] == Release(PageSem(source))
            && page[2 * i + 1] == Acquire(leaves[i]) && page[2 * i + 2] == Release(leaves[i])
    ensures forall pages :: var p, n := SourceProgram(leaves, pages), 2 * |leaves|;
              && |p| == n + (if pages then 4 else 2) && p[0] == Acquire(SourceSem) && p[|p| - 1] == Release(SourceSem)
              && p[2 * i + 1] == Acquire(leaves[i]) && p[2 * i + 2] == Release(leaves[i])
              && (pages ==> p[n + 1] == Spawn && p[n + 2] == Join)
  {
    BracketsMean(leaves, i);
  }

  predicate AreLeaves(leaves: seq<Sem>) {
    forall i :: 0 <= i < |leaves| ==> Rank(leaves[i]) == 2
  }

  ghost predicate IsSourceProgram(rest: seq<Op>) {
    exists leaves, pages :: AreLeaves(leaves) && rest == SourceProgram(leaves, pages)
  }

  ghost predicate IsPageProgram(rest: seq<Op>, source: nat) {
    exists leaves :: AreLeaves(leaves) && (rest == SitemapPage(source, leaves) || rest == Brackets(leaves))
  }

  predicate IsChild(t: Task, i: nat) {
    t.parent == Some(i)
  }

  predicate Family(tasks: seq<Task>) {
    forall i :: 0 <= i < |tasks| ==>
      match tasks[i].parent case None => tasks[i].started case Some(p) => p < |tasks| && tasks[p].parent.None?
  }

  /** Any number of sources, each with any pages. */
  ghost predicate Initial(st: State) {
    && Family(st.tasks)
    && (forall s :: st.permits(s) == Capacity(s))
    && forall i :: 0 <= i < |st.tasks| ==>
         var t := st.tasks[i];
         && !t.failed && t.held == []
         && match t.parent case None => IsSourceProgram(t.rest) case Some(p) => !t.started && IsPageProgram(t.rest, p)
  }

  // ---- Steps -------------------------------------------------------------------------------

  /** What is left when a block is left early: its `async with` statements release their permits, innermost first. */
  function Unwind(held: seq<Sem>): seq<Op> {
    if held == [] then [] else [Release(held[|held| - 1])] + Unwind(held[..|held| - 1])
  }

  function Left(t: Task, raised: bool): Task {
    t.(rest := Unwind(t.held), failed := t.failed || raised)
  }

  predicate Running(t: Task) {
    t.started && t.rest != []
  }

  predicate ChildFailed(tasks: seq<Task>, i: nat) {
    exists c :: 0 <= c < |tasks| && IsChild(tasks[c], i) && tasks[c].failed
  }

  predicate ChildrenDone(tasks: seq<Task>, i: nat) {
    forall c :: 0 <= c < |tasks| && IsChild(tasks[c], i) ==> !Running(tasks[c])
  }

  datatype Action = Advance(task: nat) | Return(task: nat) | Raise(task: nat)

  /** An Acquire waits for a permit; a Join for all pages, or for one that raised. */
  predicate CanAdvance(st: State, i: nat) {
    && i < |st.tasks| && Running(st.tasks[i])
    && match st.tasks[i].rest[0]
       case Acquire(s) => st.permits(s) > 0
       case Release(_) => true
       case Spawn => true
       case Join => ChildrenDone(st.tasks, i) || ChildFailed(st.tasks, i)
  }

  /** A task returns early or raises anywhere, except while it waits in `gather`. */
  predicate Enabled(st: State, a: Action) {
    match a
    case Advance(i) => CanAdvance(st, i)
    case Return(i) =>
      && i < |st.tasks| && Running(st.tasks[i]) && !st.tasks[i].failed && !st.tasks[i].rest[0].Join?
      && st.tasks[i].rest != Unwind(st.tasks[i].held)
    case Raise(i) => i < |st.tasks| && Running(st.tasks[i]) && !st.tasks[i].failed && !st.tasks[i].rest[0].Join?
  }

  function Started(tasks: seq<Task>, i: nat): seq<Task> {
    seq(|tasks|, c requires 0 <= c < |tasks| => if IsChild(tasks[c], i) then tasks[c].(started := true) else tasks[c])
  }

  function Plus(permits: Sem -> nat, s: Sem): Sem -> nat {
    x => if x == s then permits(x) + 1 else permits(x)
  }

  function Minus(permits: Sem -> nat, s: Sem): Sem -> nat
    requires permits(s) > 0
  {
    x => if x == s && permits(x) > 0 then permits(x) - 1 else permits(x)
  }

  /** The acting task afterwards. A `gather` in which a page raised raises in its source. */
  function NextTask(st: State, a: Action): Task
    requires Enabled(st, a) && Sound(st.tasks)
  {
    var t := st.tasks[a.task];
    match a
    case Return(_) => Left(t, false)
    case Raise(_) => Left(t, true)
    case Advance(i) =>
      match t.rest[0]
      case Acquire(s) => t.(held := t.held + [s], rest := t.rest[1..])
      case Release(_) => t.(held := t.held[..|t.held| - 1], rest := t.rest[1..])
      case Spawn => t.(rest := t.rest[1..])
      case Join => if ChildFailed(st.tasks, i) then Left(t, true) else t.(rest := t.rest[1..])
  }

  /** All tasks; a Spawn starts some of them. */
  function Others(st: State, a: Action): (r: seq<Task>)
    requires Enabled(st, a)
    ensures |r| == |st.tasks|
  {
    if a.Advance? && st.tasks[a.task].rest[0].Spawn? then Started(st.tasks, a.task) else st.tasks
  }

  function NextPermits(st: State, a: Action): Sem -> nat
    requires Enabled(st, a)
  {
    if !a.Advance? then st.permits
    else match st.tasks[a.task].rest[0]
      case Acquire(s) => Minus(st.permits, s)
      case Release(s) => Plus(st.permits, s)
      case Spawn => st.permits
      case Join => st.permits
  }

  function Do(st: State, a: Action): State
    requires Enabled(st, a) && Sound(st.tasks)
  {
    State(Others(st, a)[a.task := NextTask(st, a)], NextPermits(st, a))
  }

  // ---- The discipline of the programs -----------------------------------------------------

  /**
   * A task that holds `held` may go on with `rest`: permits are taken in order of rank, released
   * innermost first and all in the end; only a source, with nothing but its own permit, waits for pages.
   */
  predicate Disciplined(held: seq<Sem>, rest: seq<Op>, page: bool)
    decreases |rest|
  {
    if rest == [] then held == []
    else match rest[0]
      case Acquire(s) =>
        && (forall i :: 0 <= i < |held| ==> Rank(held[i]) < Rank(s)) && (page ==> s != SourceSem)
        && Disciplined(held + [s], rest[1..], page)
      case Release(s) => held != [] && held[|held| - 1] == s && Disciplined(held[..|held| - 1], rest[1..], page)
      case Spawn => !page && held == [SourceSem] && |rest| > 1 && rest[1] == Join && Disciplined(held, rest[1..], page)
      case Join => !page && held == [SourceSem] && Disciplined(held, rest[1..], page)
  }

  predicate SoundTask(t: Task) {
    Disciplined(t.held, t.rest, t.parent.Some?) && (!t.started ==> t.held == [])
  }

  predicate Sound(tasks: seq<Task>) {
    forall i :: 0 <= i < |tasks| ==> SoundTask(tasks[i])
  }

  lemma BracketDisciplined(held: seq<Sem>, s: Sem, rest: seq<Op>, page: bool)
    requires Rank(s) == 2 && Disciplined(held, rest, page)
    requires forall i :: 0 <= i < |held| ==> Rank(held[i]) < 2
    ensures Disciplined(held, [Acquire(s), Release(s)] + rest, page)
  {
    var all := [Acquire(s), Release(s)] + rest;
    assert all[1..] == [Release(s)] + rest && all[1..][1..] == rest;
    assert (held + [s])[..|held|] == held;
    assert Disciplined(held + [s], all[1..], page);
  }

  lemma {:induction false} BracketsDisciplined(held: seq<Sem>, leaves: seq<Sem>, tail: seq<Op>, page: bool)
    requires AreLeaves(leaves) && Disciplined(held, tail, page)
    requires forall i :: 0 <= i < |held| ==> Rank(held[i]) < 2
    ensures Disciplined(held, Brackets(leaves) + tail, page)
  {
    if leaves == [] {
      assert [] + tail == tail;
    } else {
      BracketsDisciplined(held, leaves[1..], tail, page);
      var s, more := leaves[0], Brackets(leaves[1..]);
      assert Rank(s) == 2;
      BracketDisciplined(held, s, more + tail, page);
      assert [Acquire(s), Release(s)] + more + tail == [Acquire(s), Release(s)] + (more + tail);
    }
  }

  lemma ReleaseDisciplined(s: Sem, page: bool)
    ensures Disciplined([s], [Release(s)], page)
  {
    assert [Release(s)][1..] == [] && [s][..0] == [];
  }

  lemma GatherDisciplined()
    ensures Disciplined([SourceSem], [Spawn, Join, Release(SourceSem)], false)
  {
    var join, release := [Join, Release(SourceSem)], [Release(SourceSem)];
    ReleaseDisciplined(SourceSem, false);
    assert join[1..] == release;
    assert [Spawn, Join, Release(SourceSem)][1..] == join;
  }

  lemma OuterDisciplined(s: Sem, rest: seq<Op>, page: bool)
    requires Disciplined([s], rest, page) && (page ==> s != SourceSem)
    ensures Disciplined([], [Acquire(s)] + rest, page)
  {
    assert ([Acquire(s)] + rest)[1..] == rest && [] + [s] == [s];
  }

  lemma SourceDisciplined(leaves: seq<Sem>, pages: bool)
    requires AreLeaves(leaves)
    ensures Disciplined([], SourceProgram(leaves, pages), false)
  {
    var tail := (if pages then [Spawn, Join] else []) + [Release(SourceSem)];
    assert tail == if pages then [Spawn, Join, Release(SourceSem)] else [Release(SourceSem)];
    GatherDisciplined();
    ReleaseDisciplined(SourceSem, false);
    BracketsDisciplined([SourceSem], leaves, tail, false);
    OuterDisciplined(SourceSem, Brackets(leaves) + tail, false);
  }

  lemma PageDisciplined(source: nat, leaves: seq<Sem>)
    requires AreLeaves(leaves)
    ensures Disciplined([], SitemapPage(source, leaves), true)
    ensures Disciplined([], Brackets(leaves), true)
  {
    var s := PageSem(source);
    ReleaseDisciplined(s, true);
    BracketsDisciplined([s], leaves, [Release(s)], true);
    OuterDisciplined(s, Brackets(leaves) + [Release(s)], true);
    BracketsDisciplined([], leaves, [], true);
    assert Brackets(leaves) + [] == Brackets(leaves);
  }

  lemma {:induction false} UnwindDisciplined(held: seq<Sem>, page: bool)
    ensures Disciplined(held, Unwind(held), page)
  {
    if held != [] {
      UnwindDisciplined(held[..|held| - 1], page);
      assert Unwind(held)[1..] == Unwind(held[..|held| - 1]);
    }
  }

  // ---- Counting permits -----------------------------------------------------------------------

  /** How many of the permits `held` are for `s`. */
  function PermitsIn(held: seq<Sem>, s: Sem): nat {
    if held == [] then 0 else PermitsIn(held[..|held| - 1], s) + if held[|held| - 1] == s then 1 else 0
  }

  lemma {:induction false} PermitMeansHeld(held: seq<Sem>, s: Sem)
    requires PermitsIn(held, s) > 0
    ensures s in held
  {
    if held[|held| - 1] != s { PermitMeansHeld(held[..|held| - 1], s); }
  }

  /** The permits of `s` that tasks hold. */
  function Holders(tasks: seq<Task>, s: Sem): nat {
    if tasks == [] then 0 else Holders(tasks[..|tasks| - 1], s) + PermitsIn(tasks[|tasks| - 1].held, s)
  }

  lemma {:induction false} HoldersUpdate(tasks: seq<Task>, i: nat, t: Task, s: Sem)
    requires i < |tasks|
    ensures Holders(tasks[i := t], s) + PermitsIn(tasks[i].held, s) == Holders(tasks, s) + PermitsIn(t.held, s)
  {
    var init := tasks[..|tasks| - 1];
    if i < |tasks| - 1 {
      HoldersUpdate(init, i, t, s);
      assert tasks[i := t][..|tasks| - 1] == init[i := t];
    } else {
      assert tasks[i := t][..|tasks| - 1] == init;
    }
  }

  lemma {:induction false} HoldersSame(tasks: seq<Task>, tasks': seq<Task>, s: Sem)
    requires |tasks| == |tasks'| && forall i :: 0 <= i < |tasks| ==> tasks[i].held == tasks'[i].held
    ensures Holders(tasks, s) == Holders(tasks', s)
  {
    if tasks != [] { HoldersSame(tasks[..|tasks| - 1], tasks'[..|tasks'| - 1], s); }
  }

  lemma {:induction false} SomeHolder(tasks: seq<Task>, s: Sem) returns (i: nat)
    requires Holders(tasks, s) > 0
    ensures i < |tasks| && s in tasks[i].held
  {
    i := |tasks| - 1;
    if PermitsIn(tasks[i].held, s) == 0 { i := SomeHolder(tasks[..i], s); } else { PermitMeansHeld(tasks[i].held, s); }
  }

  ghost predicate Conserved(st: State) {
    forall s :: st.permits(s) + Holders(st.tasks, s) == Capacity(s)
  }

  /** While a page runs, its source waits for it, or has been freed by a page that raised. */
  predicate PageAwaited(tasks: seq<Task>, c: nat)
    requires c < |tasks|
  {
    tasks[c].parent.Some? && Running(tasks[c]) ==>
      var p := tasks[c].parent.value;
      p < |tasks| && ((tasks[p].rest != [] && tasks[p].rest[0] == Join) || ChildFailed(tasks, p))
  }

  ghost predicate Inv(st: State) {
    && Family(st.tasks) && Sound(st.tasks) && Conserved(st)
    && forall c :: 0 <= c < |st.tasks| ==> PageAwaited(st.tasks, c)
  }

  // ---- Every step keeps the invariant -----------------------------------------------------------

  lemma NextTaskSound(st: State, a: Action)
    requires Enabled(st, a) && Sound(st.tasks)
    ensures SoundTask(NextTask(st, a))
    ensures NextTask(st, a).parent == st.tasks[a.task].parent && NextTask(st, a).started
    ensures st.tasks[a.task].failed ==> NextTask(st, a).failed
  {
    var t := st.tasks[a.task];
    assert SoundTask(t);
    UnwindDisciplined(t.held, t.parent.Some?);
  }

  lemma DoSound(st: State, a: Action)
    requires Enabled(st, a) && Sound(st.tasks) && Family(st.tasks)
    ensures Sound(Do(st, a).tasks) && Family(Do(st, a).tasks)
  {
    NextTaskSound(st, a);
    var ts := Do(st, a).tasks;
    forall i | 0 <= i < |ts|
      ensures SoundTask(ts[i]) && ts[i].parent == st.tasks[i].parent && (st.tasks[i].started ==> ts[i].started)
    {
      assert SoundTask(st.tasks[i]);
    }
  }

  lemma AcquireMoves(permits: Sem -> nat, held: seq<Sem>, x: Sem, s: Sem)
    requires permits(x) > 0
    ensures Minus(permits, x)(s) + PermitsIn(held + [x], s) == permits(s) + PermitsIn(held, s)
  {
    assert (held + [x])[..|held|] == held;
  }

  lemma ReleaseMoves(permits: Sem -> nat, held: seq<Sem>, x: Sem, s: Sem)
    requires held != [] && held[|held| - 1] == x
    ensures Plus(permits, x)(s) + PermitsIn(held[..|held| - 1], s) == permits(s) + PermitsIn(held, s)
  {}

  /** What a step takes from the permits it adds to the acting task's, and the other way round. */
  lemma PermitsMove(st: State, a: Action, s: Sem)
    requires Enabled(st, a) && SoundTask(st.tasks[a.task]) && Sound(st.tasks)
    ensures NextPermits(st, a)(s) + PermitsIn(NextTask(st, a).held, s) == st.permits(s) + PermitsIn(st.tasks[a.task].held, s)
  {
    var t := st.tasks[a.task];
    if a.Advance? {
      match t.rest[0]
      case Acquire(x) => AcquireMoves(st.permits, t.held, x, s);
      case Release(x) => ReleaseMoves(st.permits, t.held, x, s);
      case Spawn =>
      case Join =>
    }
  }

  lemma DoConserved(st: State, a: Action)
    requires Enabled(st, a) && Sound(st.tasks) && Conserved(st)
    ensures Conserved(Do(st, a))
  {
    var ts, t := Others(st, a), NextTask(st, a);
    forall s ensures Do(st, a).permits(s) + Holders(Do(st, a).tasks, s) == Capacity(s) {
      PermitsMove(st, a, s);
      HoldersSame(st.tasks, ts, s);
      HoldersUpdate(ts, a.task, t, s);
      assert st.permits(s) + Holders(st.tasks, s) == Capacity(s);
    }
  }

  lemma FailureStays(st: State, a: Action, p: nat)
    requires Enabled(st, a) && Sound(st.tasks) && ChildFailed(st.tasks, p)
    ensures ChildFailed(Do(st, a).tasks, p)
  {
    var c :| 0 <= c < |st.tasks| && IsChild(st.tasks[c], p) && st.tasks[c].failed;
    NextTaskSound(st, a);
    assert IsChild(Do(st, a).tasks[c], p) && Do(st, a).tasks[c].failed;
  }

  lemma DoAwaited(st: State, a: Action, c: nat)
    requires Enabled(st, a) && Inv(st) && c < |st.tasks|
    ensures PageAwaited(Do(st, a).tasks, c)
  {
    var ts, ts' := st.tasks, Do(st, a).tasks;
    NextTaskSound(st, a);
    if ts[c].parent.Some? && Running(ts'[c]) {
      var p := ts[c].parent.value;
      assert p < |ts| && ts[p].parent.None? && PageAwaited(ts, c);
      if ChildFailed(ts, p) {
        FailureStays(st, a, p);
      } else if a.task == p {
        assert SoundTask(ts[p]);
      } else {
        assert Running(ts[c]);
      }
    }
  }

  lemma DoKeepsInv(st: State, a: Action)
    requires Enabled(st, a) && Inv(st)
    ensures Inv(Do(st, a))
  {
    DoSound(st, a);
    DoConserved(st, a);
    forall c | 0 <= c < |Do(st, a).tasks| ensures PageAwaited(Do(st, a).tasks, c) { DoAwaited(st, a, c); }
  }

  lemma InitialKeepsInv(st: State)
    requires Initial(st)
    ensures Inv(st)
  {
    forall i | 0 <= i < |st.tasks| ensures SoundTask(st.tasks[i]) {
      var t := st.tasks[i];
      match t.parent
      case None =>
        var leaves, pages :| AreLeaves(leaves) && t.rest == SourceProgram(leaves, pages);
        SourceDisciplined(leaves, pages);
      case Some(p) =>
        var leaves :| AreLeaves(leaves) && (t.rest == SitemapPage(p, leaves) || t.rest == Brackets(leaves));
        PageDisciplined(p, leaves);
    }
    forall s ensures Holders(st.tasks, s) == 0 { NothingHeld(st.tasks, s); }
  }

  lemma {:induction false} NothingHeld(tasks: seq<Task>, s: Sem)
    requires forall i :: 0 <= i < |tasks| ==> tasks[i].held == []
    ensures Holders(tasks, s) == 0
  {
    if tasks != [] { NothingHeld(tasks[..|tasks| - 1], s); }
  }

  // ---- Runs ------------------------------------------------------------------------------------------

  /** Some interleaving of the tasks, with early exits and exceptions anywhere. */
  ghost predicate IsRun(st: State, acts: seq<Action>)
    decreases |acts|
  {
    acts == [] || (Enabled(st, acts[0]) && Sound(st.tasks) && IsRun(Do(st, acts[0]), acts[1..]))
  }

  ghost function After(st: State, acts: seq<Action>): State
    requires IsRun(st, acts)
    decreases |acts|
  {
    if acts == [] then st else After(Do(st, acts[0]), acts[1..])
  }

  lemma {:induction false} RunKeepsInv(st: State, acts: seq<Action>)
    requires Inv(st) && IsRun(st, acts)
    ensures Inv(After(st, acts))
    decreases |acts|
  {
    if acts != [] {
      DoKeepsInv(st, acts[0]);
      RunKeepsInv(Do(st, acts[0]), acts[1..]);
    }
  }

  /** In every interleaving the permits of each semaphore and those held for it stay constant. */
  lemma PermitsConserved(st: State, acts: seq<Action>, s: Sem)
    requires Initial(st) && IsRun(st, acts)
    ensures After(st, acts).permits(s) + Holders(After(st, acts).tasks, s)
         == match s case SourceSem => 12 case PageSem(_) => 10 case HostSem(_) => 3 case ClassifySem => 30 case WriteSem => 8
  {
    InitialKeepsInv(st);
    RunKeepsInv(st, acts);
  }

  // ---- No deadlock -----------------------------------------------------------------------------------

  /** How far the wait of a task is from a task that can move. */
  function Depth(t: Task): nat {
    if t.rest == [] then 0
    else match t.rest[0]
      case Acquire(s) => if Rank(s) == 0 then 4 else if Rank(s) == 1 then 2 else 1
      case Release(_) => 0
      case Spawn => 0
      case Join => 3
  }

  /** Whoever holds a permit that another task waits for is closer to moving. */
  lemma HolderIsCloser(t: Task, u: Task, s: Sem)
    requires SoundTask(t) && SoundTask(u) && t.rest != [] && t.rest[0] == Acquire(s) && s in u.held
    ensures Running(u) && Depth(u) < Depth(t)
  {
    assert Disciplined(u.held, u.rest, u.parent.Some?);
    var i :| 0 <= i < |u.held| && u.held[i] == s;
  }

  lemma PageIsCloser(t: Task, u: Task)
    requires SoundTask(u) && Running(u) && u.parent.Some? && t.rest != [] && t.rest[0] == Join
    ensures Depth(u) < Depth(t)
  {
    assert Disciplined(u.held, u.rest, true);
  }

  /** Following the waits from any unfinished task leads to one that can move. */
  lemma {:induction false} FollowWaits(st: State, i: nat) returns (j: nat)
    requires Inv(st) && i < |st.tasks| && Running(st.tasks[i])
    ensures CanAdvance(st, j)
    decreases Depth(st.tasks[i])
  {
    if CanAdvance(st, i) { return i; }
    var t := st.tasks[i];
    assert SoundTask(t);
    match t.rest[0]
    case Acquire(s) =>
      assert st.permits(s) + Holders(st.tasks, s) == Capacity(s);
      var h := SomeHolder(st.tasks, s);
      assert SoundTask(st.tasks[h]);
      HolderIsCloser(t, st.tasks[h], s);
      j := FollowWaits(st, h);
    case Join =>
      var c :| 0 <= c < |st.tasks| && IsChild(st.tasks[c], i) && Running(st.tasks[c]);
      assert SoundTask(st.tasks[c]);
      PageIsCloser(t, st.tasks[c]);
      j := FollowWaits(st, c);
  }

  /** In every interleaving, as long as a started task is unfinished, some task can take its next step. */
  lemma NoDeadlock(st: State, acts: seq<Action>, i: nat) returns (j: nat)
    requires Initial(st) && IsRun(st, acts)
    requires i < |After(st, acts).tasks| && Running(After(st, acts).tasks[i])
    ensures CanAdvance(After(st, acts), j)
  {
    InitialKeepsInv(st);
    RunKeepsInv(st, acts);
    j := FollowWaits(After(st, acts), i);
  }

  // ---- Every run ends, with all permits back ---------------------------------------------------------

  function Work(t: Task): nat {
    |t.rest| + if t.failed then 0 else 1
  }

  function TotalWork(tasks: seq<Task>): nat {
    if tasks == [] then 0 else TotalWork(tasks[..|tasks| - 1]) + Work(tasks[|tasks| - 1])
  }

  lemma {:induction false} WorkUpdate(tasks: seq<Task>, i: nat, t: Task)
    requires i < |tasks|
    ensures TotalWork(tasks[i := t]) + Work(tasks[i]) == TotalWork(tasks) + Work(t)
  {
    var init := tasks[..|tasks| - 1];
    if i < |tasks| - 1 {
      WorkUpdate(init, i, t);
      assert tasks[i := t][..|tasks| - 1] == init[i := t];
    } else {
      assert tasks[i := t][..|tasks| - 1] == init;
    }
  }

  lemma {:induction false} WorkSame(tasks: seq<Task>, tasks': seq<Task>)
    requires |tasks| == |tasks'| && forall i :: 0 <= i < |tasks| ==> Work(tasks[i]) == Work(tasks'[i])
    ensures TotalWork(tasks) == TotalWork(tasks')
  {
    if tasks != [] { WorkSame(tasks[..|tasks| - 1], tasks'[..|tasks'| - 1]); }
  }

  /** Leaving early never takes longer than going on. */
  lemma {:induction false} UnwindIsShortest(held: seq<Sem>, rest: seq<Op>, page: bool)
    requires Disciplined(held, rest, page)
    ensures |Unwind(held)| == |held| <= |rest|
    ensures |rest| == |held| ==> rest == Unwind(held)
    decreases |rest|
  {
    UnwindLength(held);
    if rest != [] {
      match rest[0]
      case Acquire(s) => UnwindIsShortest(held + [s], rest[1..], page);
      case Release(s) => UnwindIsShortest(held[..|held| - 1], rest[1..], page); assert rest == [rest[0]] + rest[1..];
      case Spawn => UnwindIsShortest(held, rest[1..], page);
      case Join => UnwindIsShortest(held, rest[1..], page);
    }
  }

  lemma {:induction false} UnwindLength(held: seq<Sem>)
    ensures |Unwind(held)| == |held|
  {
    if held != [] { UnwindLength(held[..|held| - 1]); }
  }

  lemma StepWorks(st: State, a: Action)
    requires Enabled(st, a) && Sound(st.tasks)
    ensures Work(NextTask(st, a)) < Work(st.tasks[a.task])
  {
    var t := st.tasks[a.task];
    assert SoundTask(t);
    UnwindIsShortest(t.held, t.rest, t.parent.Some?);
    if t.rest[0].Join? { UnwindIsShortest(t.held, t.rest[1..], t.parent.Some?); }
  }

  lemma {:induction false} RunsAreBounded(st: State, acts: seq<Action>)
    requires Inv(st) && IsRun(st, acts)
    ensures |acts| + TotalWork(After(st, acts).tasks) <= TotalWork(st.tasks)
    decreases |acts|
  {
    if acts != [] {
      var a := acts[0];
      StepWorks(st, a);
      WorkUpdate(Others(st, a), a.task, NextTask(st, a));
      WorkSame(st.tasks, Others(st, a));
      DoKeepsInv(st, a);
      RunsAreBounded(Do(st, a), acts[1..]);
    }
  }

  /** A run that cannot go on has finished every task that was started, and every permit is back. */
  lemma StuckMeansDone(st: State, acts: seq<Action>)
    requires Initial(st) && IsRun(st, acts)
    requires forall j :: !CanAdvance(After(st, acts), j)
    ensures forall i :: 0 <= i < |After(st, acts).tasks| ==> !Running(After(st, acts).tasks[i])
    ensures forall s :: After(st, acts).permits(s) == Capacity(s)
  {
    var end := After(st, acts);
    InitialKeepsInv(st);
    RunKeepsInv(st, acts);
    if i :| 0 <= i < |end.tasks| && Running(end.tasks[i]) {
      var j := NoDeadlock(st, acts, i);
      assert false;
    }
    forall i | 0 <= i < |end.tasks| ensures end.tasks[i].held == [] { assert SoundTask(end.tasks[i]); }
    forall s ensures end.permits(s) == Capacity(s) {
      NothingHeld(end.tasks, s);
      assert end.permits(s) + Holders(end.tasks, s) == Capacity(s);
    }
  }

  // ---- How many sources work at a time ----------------------------------------------------------------

  predicate PagesRunning(tasks: seq<Task>, i: nat) {
    exists c :: 0 <= c < |tasks| && IsChild(tasks[c], i) && Running(tasks[c])
  }

  /** How many of the first `n` tasks are sources with running pages, none of whose pages has raised. */
  function WorkingSources(tasks: seq<Task>, n: nat): nat
    requires n <= |tasks|
  {
    if n == 0 then 0
    else WorkingSources(tasks, n - 1) + if PagesRunning(tasks, n - 1) && !ChildFailed(tasks, n - 1) then 1 else 0
  }

  lemma {:induction false} WorkingSourcesHold(st: State, n: nat)
    requires Inv(st) && n <= |st.tasks|
    ensures WorkingSources(st.tasks, n) <= Holders(st.tasks[..n], SourceSem)
  {
    if n > 0 {
      var i := n - 1;
      WorkingSourcesHold(st, i);
      assert st.tasks[..n][..i] == st.tasks[..i];
      if PagesRunning(st.tasks, i) && !ChildFailed(st.tasks, i) {
        var c :| 0 <= c < |st.tasks| && IsChild(st.tasks[c], i) && Running(st.tasks[c]);
        assert PageAwaited(st.tasks, c);
        assert SoundTask(st.tasks[i]) && st.tasks[i].held == [SourceSem];
      }
    }
  }

  /** In every reachable state at most twelve sources have running pages and no page that raised. */
  lemma TwelveSourcesAtMost(st: State, acts: seq<Action>)
    requires Initial(st) && IsRun(st, acts)
    ensures WorkingSources(After(st, acts).tasks, |After(st, acts).tasks|) <= 12
  {
    var end := After(st, acts);
    InitialKeepsInv(st);
    RunKeepsInv(st, acts);
    WorkingSourcesHold(end, |end.tasks|);
    assert end.tasks[..|end.tasks|] == end.tasks;
    assert end.permits(SourceSem) + Holders(end.tasks, SourceSem) == Capacity(SourceSem);
  }

  function OneSourceTwoPages(): State {
    var page := Task(Some(0), false, false, [], [Acquire(WriteSem), Release(WriteSem)]);
    State([Task(None, true, false, [], [Acquire(SourceSem), Spawn, Join, Release(SourceSem)]), page, page], s => Capacity(s))
  }

  lemma OneSourceTwoPagesIsInitial()
    ensures Initial(OneSourceTwoPages())
  {
    assert Brackets([]) == [];
    assert [Spawn, Join] + [Release(SourceSem)] == [Spawn, Join, Release(SourceSem)];
    assert [] + [Spawn, Join, Release(SourceSem)] == [Spawn, Join, Release(SourceSem)];
    assert SourceProgram([], true) == [Acquire(SourceSem), Spawn, Join, Release(SourceSem)];
    assert AreLeaves([]);
    var leaves := [WriteSem];
    assert leaves[1..] == [];
    assert Brackets(leaves) == [Acquire(WriteSem), Release(WriteSem)] + [];
    assert AreLeaves(leaves) && Brackets(leaves) == [Acquire(WriteSem), Release(WriteSem)];
  }

  lemma RunCons(st: State, a: Action, acts: seq<Action>)
    requires Enabled(st, a) && Sound(st.tasks) && IsRun(Do(st, a), acts)
    ensures IsRun(st, [a] + acts) && After(st, [a] + acts) == After(Do(st, a), acts)
  {
    assert ([a] + acts)[1..] == acts;
  }

  /** A `gather` in which a page raised raises in its source, and what is left of that is its release. */
  lemma GatherRaises(st: State, i: nat, c: nat)
    requires Inv(st) && i < |st.tasks| && c < |st.tasks| && Running(st.tasks[i]) && st.tasks[i].rest[0] == Join
    requires ChildFailed(st.tasks, i) && IsChild(st.tasks[c], i) && Running(st.tasks[c])
    ensures Enabled(st, Advance(i))
    ensures var t := Do(st, Advance(i)).tasks[i]; t.held == [SourceSem] && t.rest == [Release(SourceSem)] && t.started && t.failed
    ensures Do(st, Advance(i)).tasks[c] == st.tasks[c] && c != i && Do(st, Advance(i)).permits == st.permits
  {
    assert SoundTask(st.tasks[i]) && SoundTask(st.tasks[c]);
    assert Unwind([SourceSem]) == [Release(SourceSem)] by { assert [SourceSem][..0] == []; }
    assert st.tasks[i].parent.None? && st.tasks[c].parent.Some?;
  }

  /**
   * A source of which a page raised need not count among them: two steps of the source alone give its
   * permit back while its other pages go on running.
   */
  lemma PagesOutliveTheirSource(st: State, i: nat, c: nat)
    requires Inv(st) && i < |st.tasks| && c < |st.tasks| && Running(st.tasks[i]) && st.tasks[i].rest[0] == Join
    requires ChildFailed(st.tasks, i) && IsChild(st.tasks[c], i) && Running(st.tasks[c])
    ensures IsRun(st, [Advance(i), Advance(i)])
    ensures var end := After(st, [Advance(i), Advance(i)]);
            && |end.tasks| == |st.tasks|
            && end.permits(SourceSem) == st.permits(SourceSem) + 1 && end.tasks[i].held == [] && Running(end.tasks[c])
            && end.tasks[i].failed
  {
    var a := Advance(i);
    GatherRaises(st, i, c);
    var left := Do(st, a);
    DoKeepsInv(st, a);
    assert Enabled(left, a);
    RunCons(left, a, []);
    RunCons(st, a, [a]);
    assert [a] + [] == [a] && [a] + [a] == [a, a];
  }

  /** Such a state is within reach. */
  lemma PageRaisesInGather() returns (st: State, acts: seq<Action>)
    ensures Initial(st) && IsRun(st, acts)
    ensures var end := After(st, acts);
            && |end.tasks| == 3 && Running(end.tasks[0]) && end.tasks[0].rest[0] == Join
            && ChildFailed(end.tasks, 0) && IsChild(end.tasks[2], 0) && Running(end.tasks[2])
  {
    st := OneSourceTwoPages();
    OneSourceTwoPagesIsInitial();
    InitialKeepsInv(st);
    var started := GatherStarts(st);
    FirstPageRaises(started);
    RunCons(started, Raise(1), []);
    RunCons(Do(st, Advance(0)), Advance(0), [Raise(1)] + []);
    RunCons(st, Advance(0), [Advance(0)] + ([Raise(1)] + []));
    acts := [Advance(0)] + ([Advance(0)] + ([Raise(1)] + []));
  }

  lemma FirstPageRaises(st: State)
    requires Sound(st.tasks) && |st.tasks| == 3 && Running(st.tasks[0]) && st.tasks[0].rest[0] == Join
    requires forall c :: 1 <= c < 3 ==>
               IsChild(st.tasks[c], 0) && Running(st.tasks[c]) && !st.tasks[c].failed && !st.tasks[c].rest[0].Join?
    ensures Enabled(st, Raise(1))
    ensures var end := Do(st, Raise(1));
            && |end.tasks| == 3 && Running(end.tasks[0]) && end.tasks[0].rest[0] == Join
            && ChildFailed(end.tasks, 0) && IsChild(end.tasks[2], 0) && Running(end.tasks[2])
  {
    var end := Do(st, Raise(1));
    assert IsChild(end.tasks[1], 0) && end.tasks[1].failed;
  }

  lemma SourceStarts(st: State, st1: State)
    requires st == OneSourceTwoPages() && Inv(st) && Enabled(st, Advance(0)) && st1 == Do(st, Advance(0))
    ensures |st1.tasks| == 3 && Inv(st1)
    ensures st1.tasks[0] == Task(None, true, false, [SourceSem], [Spawn, Join, Release(SourceSem)])
    ensures st1.tasks[1] == st.tasks[1] && st1.tasks[2] == st.tasks[2]
  {
    DoKeepsInv(st, Advance(0));
    assert st.tasks[0].rest[1..] == [Spawn, Join, Release(SourceSem)];
  }

  lemma PagesStart(st: State, r: State)
    requires Inv(st) && |st.tasks| == 3 && Enabled(st, Advance(0)) && r == Do(st, Advance(0))
    requires st.tasks[0] == Task(None, true, false, [SourceSem], [Spawn, Join, Release(SourceSem)])
    requires st.tasks[1] == st.tasks[2] == Task(Some(0), false, false, [], [Acquire(WriteSem), Release(WriteSem)])
    ensures Inv(r) && |r.tasks| == 3 && r.tasks[0].rest == [Join, Release(SourceSem)] && r.tasks[0].started
    ensures forall c :: 1 <= c < 3 ==> IsChild(r.tasks[c], 0) && Running(r.tasks[c]) && !r.tasks[c].failed && !r.tasks[c].rest[0].Join?
  {
    DoKeepsInv(st, Advance(0));
    assert st.tasks[0].rest[1..] == [Join, Release(SourceSem)];
  }

  lemma GatherStarts(st: State) returns (r: State)
    requires st == OneSourceTwoPages() && Inv(st)
    ensures Enabled(st, Advance(0)) && Sound(Do(st, Advance(0)).tasks) && Enabled(Do(st, Advance(0)), Advance(0))
    ensures r == Do(Do(st, Advance(0)), Advance(0)) && Inv(r)
    ensures |r.tasks| == 3 && r.tasks[0].rest == [Join, Release(SourceSem)] && r.tasks[0].started
    ensures forall c :: 1 <= c < 3 ==> IsChild(r.tasks[c], 0) && Running(r.tasks[c]) && !r.tasks[c].failed && !r.tasks[c].rest[0].Join?
  {
    var st1 := Do(st, Advance(0));
    SourceStarts(st, st1);
    r := Do(st1, Advance(0));
    PagesStart(st1, r);
  }
}
