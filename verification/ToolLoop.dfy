/** The model's tool loop: one specification, and the two provider loops that refine it. */
module ToolLoop {
  import opened Basics

  const MAX_CALLS_PER_TOOL: nat := 2
  const MAX_ITERATIONS: nat := 20
  const MAX_ATTEMPTS: nat := 3

  /** A requested tool call; `parses` says whether its arguments are JSON. */
  datatype Call = Call(id: string, name: string, arguments: string, parses: bool)

  datatype ToolResult = AlreadyCalled(name: string) | Output(text: string)

  /** `dispatch`, which turns its own exceptions into results. */
  type Dispatch = (string, string) -> string

  // ---- The specification ------------------------------------------------------------

  /** What a round of the model amounts to. */
  datatype Reply = Answer(html: string) | Request(calls: seq<Call>)

  datatype End = Final(html: string) | Unavailable | Exhausted | BadArguments

  /** The rounds of calls that were carried out, and how the run ended. */
  datatype Run = Run(rounds: seq<seq<Call>>, end: End)

  predicate AllParse(cs: seq<Call>) {
    forall i :: 0 <= i < |cs| ==> cs[i].parses
  }

  /** The run from round `k` on; None is a round in which every attempt failed. */
  function RunFrom(replies: nat -> Option<Reply>, k: nat): Run
    decreases MAX_ITERATIONS - k, replies
  {
    if k >= MAX_ITERATIONS then Run([], Exhausted)
    else match replies(k)
      case None => Run([], Unavailable)
      case Some(Answer(html)) => Run([], Final(html))
      case Some(Request(cs)) =>
        if !AllParse(cs) then Run([], BadArguments)
        else
          var rest := RunFrom(replies, k + 1);
          Run([cs] + rest.rounds, rest.end)
  }

  function Names(cs: seq<Call>): seq<string> {
    seq(|cs|, i requires 0 <= i < |cs| => cs[i].name)
  }

  function Flatten(rounds: seq<seq<Call>>): seq<Call> {
    if rounds == [] then [] else Flatten(rounds[..|rounds| - 1]) + rounds[|rounds| - 1]
  }

  /** A conversation, whichever way a provider writes it down. */
  datatype Event = Asked(call: Call) | Answered(id: string, result: ToolResult)

  /** The first request for a tool is dispatched; a later one is told so. */
  function ResultOf(dispatch: Dispatch, before: seq<Call>, c: Call): ToolResult {
    if c.name in Names(before) then AlreadyCalled(c.name) else Output(dispatch(c.name, c.arguments))
  }

  function Asks(cs: seq<Call>): seq<Event> {
    seq(|cs|, i requires 0 <= i < |cs| => Asked(cs[i]))
  }

  /** The answers to `cs` when `before` was requested earlier. */
  function Answers(dispatch: Dispatch, before: seq<Call>, cs: seq<Call>): seq<Event> {
    seq(|cs|, i requires 0 <= i < |cs| => Answered(cs[i].id, ResultOf(dispatch, before + cs[..i], cs[i])))
  }

  /** Round by round: the calls as asked, then their answers. */
  function Conversation(dispatch: Dispatch, rounds: seq<seq<Call>>): seq<Event> {
    if rounds == [] then []
    else
      var init, cs := rounds[..|rounds| - 1], rounds[|rounds| - 1];
      Conversation(dispatch, init) + Asks(cs) + Answers(dispatch, Flatten(init), cs)
  }

  function ToolsCalled(rounds: seq<seq<Call>>): seq<string> {
    Dedup(Names(Flatten(rounds)))
  }

  // ---- Properties of every run ----------------------------------------------------------

  function AsksIn(es: seq<Event>): seq<Event> {
    if es == [] then [] else AsksIn(es[..|es| - 1]) + if es[|es| - 1].Asked? then [es[|es| - 1]] else []
  }

  function AnswersIn(es: seq<Event>): seq<Event> {
    if es == [] then [] else AnswersIn(es[..|es| - 1]) + if es[|es| - 1].Answered? then [es[|es| - 1]] else []
  }

  lemma EventsSnoc(es: seq<Event>, e: Event)
    ensures AsksIn(es + [e]) == if e.Asked? then AsksIn(es) + [e] else AsksIn(es)
    ensures AnswersIn(es + [e]) == if e.Asked? then AnswersIn(es) else AnswersIn(es) + [e]
  {
    assert (es + [e])[..|es|] == es;
  }

  lemma ButLast(es: seq<Event>, fs: seq<Event>)
    requires fs != []
    ensures es + fs == (es + fs[..|fs| - 1]) + [fs[|fs| - 1]]
    ensures fs == fs[..|fs| - 1] + [fs[|fs| - 1]]
  {}

  lemma {:induction false} AppendAsks(es: seq<Event>, asks: seq<Event>)
    requires forall i :: 0 <= i < |asks| ==> asks[i].Asked?
    ensures AsksIn(es + asks) == AsksIn(es) + asks
    ensures AnswersIn(es + asks) == AnswersIn(es)
  {
    if asks == [] {
      assert es + asks == es;
    } else {
      AppendAsks(es, asks[..|asks| - 1]);
      ButLast(es, asks);
      EventsSnoc(es + asks[..|asks| - 1], asks[|asks| - 1]);
    }
  }

  lemma {:induction false} AppendAnswers(es: seq<Event>, answers: seq<Event>)
    requires forall i :: 0 <= i < |answers| ==> answers[i].Answered?
    ensures AsksIn(es + answers) == AsksIn(es)
    ensures AnswersIn(es + answers) == AnswersIn(es) + answers
  {
    if answers == [] {
      assert es + answers == es;
    } else {
      AppendAnswers(es, answers[..|answers| - 1]);
      ButLast(es, answers);
      EventsSnoc(es + answers[..|answers| - 1], answers[|answers| - 1]);
    }
  }

  lemma AsksPlus(cs: seq<Call>, ds: seq<Call>)
    ensures Asks(cs + ds) == Asks(cs) + Asks(ds)
  {}

  lemma AnswersPlus(dispatch: Dispatch, cs: seq<Call>, ds: seq<Call>)
    ensures Answers(dispatch, [], cs + ds) == Answers(dispatch, [], cs) + Answers(dispatch, cs, ds)
  {
    forall i | 0 <= i < |cs + ds|
      ensures [] + (cs + ds)[..i] == if i < |cs| then [] + cs[..i] else cs + ds[..i - |cs|]
    {}
  }

  /** What a round adds to the requests and to the answers of a conversation. */
  lemma RoundEvents(dispatch: Dispatch, es: seq<Event>, before: seq<Call>, cs: seq<Call>)
    ensures AsksIn(es + Asks(cs) + Answers(dispatch, before, cs)) == AsksIn(es) + Asks(cs)
    ensures AnswersIn(es + Asks(cs) + Answers(dispatch, before, cs)) == AnswersIn(es) + Answers(dispatch, before, cs)
  {
    AppendAsks(es, Asks(cs));
    AppendAnswers(es + Asks(cs), Answers(dispatch, before, cs));
  }

  lemma {:induction false} ConversationEvents(dispatch: Dispatch, rounds: seq<seq<Call>>)
    ensures AsksIn(Conversation(dispatch, rounds)) == Asks(Flatten(rounds))
    ensures AnswersIn(Conversation(dispatch, rounds)) == Answers(dispatch, [], Flatten(rounds))
  {
    if rounds != [] {
      var init, cs := rounds[..|rounds| - 1], rounds[|rounds| - 1];
      ConversationEvents(dispatch, init);
      RoundEvents(dispatch, Conversation(dispatch, init), Flatten(init), cs);
      AsksPlus(Flatten(init), cs);
      AnswersPlus(dispatch, Flatten(init), cs);
    }
  }

  /** No call is answered before it is asked. */
  ghost predicate AskedFirst(es: seq<Event>) {
    forall j :: 0 <= j <= |es| ==> |AnswersIn(es[..j])| <= |AsksIn(es[..j])|
  }

  lemma RoundAskedFirst(es: seq<Event>, asks: seq<Event>, answers: seq<Event>, j: nat)
    requires AskedFirst(es) && |AnswersIn(es)| == |AsksIn(es)| && |asks| == |answers| && j <= |es + asks + answers|
    requires forall i :: 0 <= i < |asks| ==> asks[i].Asked?
    requires forall i :: 0 <= i < |answers| ==> answers[i].Answered?
    ensures var pre := (es + asks + answers)[..j]; |AnswersIn(pre)| <= |AsksIn(pre)|
  {
    var pre := (es + asks + answers)[..j];
    if j <= |es| {
      assert pre == es[..j];
    } else if j <= |es + asks| {
      assert pre == es + asks[..j - |es|];
      AppendAsks(es, asks[..j - |es|]);
    } else {
      var k := j - |es + asks|;
      assert pre == es + asks + answers[..k];
      AppendAsks(es, asks);
      AppendAnswers(es + asks, answers[..k]);
    }
  }

  lemma {:induction false} CallsAreAskedFirst(dispatch: Dispatch, rounds: seq<seq<Call>>)
    ensures AskedFirst(Conversation(dispatch, rounds))
  {
    if rounds != [] {
      var init, cs := rounds[..|rounds| - 1], rounds[|rounds| - 1];
      CallsAreAskedFirst(dispatch, init);
      ConversationEvents(dispatch, init);
      forall j | 0 <= j <= |Conversation(dispatch, rounds)|
        ensures var pre := Conversation(dispatch, rounds)[..j]; |AnswersIn(pre)| <= |AsksIn(pre)|
      {
        RoundAskedFirst(Conversation(dispatch, init), Asks(cs), Answers(dispatch, Flatten(init), cs), j);
      }
    }
  }

  predicate Requests(cs: seq<Call>, name: string) {
    exists i :: 0 <= i < |cs| && cs[i].name == name
  }

  lemma NamesMean(cs: seq<Call>, name: string)
    ensures name in Names(cs) <==> Requests(cs, name)
  {
    if i :| 0 <= i < |cs| && cs[i].name == name { assert Names(cs)[i] == name; }
  }

  /**
   * Before every model call each call that was asked has been answered, once and in order: with what its tool
   * returned for its arguments, or with a refusal if an earlier call asked for the same tool.
   */
  lemma EveryCallIsAnswered(dispatch: Dispatch, rounds: seq<seq<Call>>)
    ensures var calls, asks := Flatten(rounds), AsksIn(Conversation(dispatch, rounds));
            |asks| == |calls| && forall n :: 0 <= n < |calls| ==> asks[n] == Asked(calls[n])
    ensures var calls, answers := Flatten(rounds), AnswersIn(Conversation(dispatch, rounds));
            && |answers| == |calls|
            && forall n :: 0 <= n < |calls| ==>
                 var c := calls[n];
                 answers[n] == Answered(c.id, if Requests(calls[..n], c.name) then AlreadyCalled(c.name)
                                              else Output(dispatch(c.name, c.arguments)))
  {
    var calls := Flatten(rounds);
    ConversationEvents(dispatch, rounds);
    forall n | 0 <= n < |calls|
      ensures [] + calls[..n] == calls[..n]
      ensures calls[n].name in Names(calls[..n]) <==> Requests(calls[..n], calls[n].name)
    {
      NamesMean(calls[..n], calls[n].name);
    }
  }

  /** A run goes on while all requests of a round parse, for at most 20 rounds; the next reply says how it ends. */
  lemma {:induction false} RunMeans(replies: nat -> Option<Reply>, k: nat)
    requires k <= MAX_ITERATIONS
    ensures var run, n := RunFrom(replies, k), k + |RunFrom(replies, k).rounds|;
            && n <= 20 && (run.end == Exhausted <==> n == 20)
            && (forall i :: 0 <= i < n - k ==> replies(k + i) == Some(Request(run.rounds[i])) && AllParse(run.rounds[i]))
            && (n < 20 ==>
                  match replies(n)
                  case None => run.end == Unavailable
                  case Some(Answer(html)) => run.end == Final(html)
                  case Some(Request(cs)) => run.end == BadArguments && !AllParse(cs))
    decreases MAX_ITERATIONS - k
  {
    if k < MAX_ITERATIONS && replies(k).Some? && replies(k).value.Request? && AllParse(replies(k).value.calls) {
      RunMeans(replies, k + 1);
      var run, rest := RunFrom(replies, k), RunFrom(replies, k + 1);
      assert run.rounds == [replies(k).value.calls] + rest.rounds;
      forall i | 0 <= i < |run.rounds|
        ensures replies(k + i) == Some(Request(run.rounds[i])) && AllParse(run.rounds[i])
      {
        if i > 0 { assert run.rounds[i] == rest.rounds[i - 1] && replies(k + i) == replies(k + 1 + (i - 1)); }
      }
    }
  }

  /** The names of the calls that were dispatched rather than refused, in order. */
  function Dispatched(dispatch: Dispatch, cs: seq<Call>): seq<string> {
    if cs == [] then []
    else
      var init, c := cs[..|cs| - 1], cs[|cs| - 1];
      Dispatched(dispatch, init) + if ResultOf(dispatch, init, c).Output? then [c.name] else []
  }

  lemma NamesSnoc(cs: seq<Call>)
    requires cs != []
    ensures Names(cs) == Names(cs[..|cs| - 1]) + [cs[|cs| - 1].name]
    ensures Names(cs)[..|cs| - 1] == Names(cs[..|cs| - 1])
  {}

  /** `tools_called` lists exactly the dispatched calls: each tool once, at its first request. */
  lemma {:induction false} DispatchedIsDedup(dispatch: Dispatch, cs: seq<Call>)
    ensures Dispatched(dispatch, cs) == Dedup(Names(cs))
  {
    if cs != [] {
      var init := cs[..|cs| - 1];
      DispatchedIsDedup(dispatch, init);
      NamesSnoc(cs);
      DedupFacts(Names(init));
    }
  }

  /** What a caller gets: an answer, the apology, nothing after 20 rounds, or an exception. */
  datatype Outcome = Html(html: string, tools: seq<string>) | Apology(tools: seq<string>) | Nothing | Raised

  function OutcomeOf(r: Run): Outcome {
    match r.end
    case Final(html) => Html(html, ToolsCalled(r.rounds))
    case Unavailable => Apology(ToolsCalled(r.rounds))
    case Exhausted => Nothing
    case BadArguments => Raised
  }

  // ---- What both loops do in a round ------------------------------------------------------

  /** The first of the attempts from `a` on that does not fail. */
  function Attempt<R>(script: (nat, nat) -> Option<R>, k: nat, a: nat): Option<R>
    decreases MAX_ATTEMPTS - a, script
  {
    if a >= MAX_ATTEMPTS then None else if script(k, a).Some? then script(k, a) else Attempt(script, k, a + 1)
  }

  /** `r` is what the model call of round `k` comes to: the first of its three attempts that does not fail. */
  ghost predicate Got<R>(script: (nat, nat) -> Option<R>, k: nat, r: R) {
    exists a: nat :: a < 3 && script(k, a) == Some(r) && forall b: nat :: b < a ==> script(k, b).None?
  }

  ghost predicate GotNothing<R>(script: (nat, nat) -> Option<R>, k: nat) {
    forall a: nat :: a < 3 ==> script(k, a).None?
  }

  lemma {:induction false} AttemptMeans<R>(script: (nat, nat) -> Option<R>, k: nat, a: nat)
    requires a <= MAX_ATTEMPTS && forall b: nat :: b < a ==> script(k, b).None?
    ensures match Attempt(script, k, a) case None => GotNothing(script, k) case Some(r) => Got(script, k, r)
    decreases MAX_ATTEMPTS - a
  {
    if a < MAX_ATTEMPTS && script(k, a).None? { AttemptMeans(script, k, a + 1); }
  }

  /**
   * What a loop returns, read off the model's answers: `rounds` of calls that all parse, and then a round that
   * ends it. `calls` are the tool calls in an answer, and `html` is its text.
   */
  ghost predicate Plays<R(!new)>(script: (nat, nat) -> Option<R>, calls: R -> seq<Call>, html: R -> string,
                                 rounds: seq<seq<Call>>, r: Outcome)
  {
    var n := |rounds|;
    && n <= 20 && (r.Nothing? <==> n == 20)
    && (forall k: nat :: k < n ==> exists a :: Got(script, k, a) && calls(a) == rounds[k] != [] && AllParse(rounds[k]))
    && match r
       case Nothing => true
       case Apology(_) => GotNothing(script, n)
       case Html(text, _) => exists a :: Got(script, n, a) && calls(a) == [] && text == html(a)
       case Raised => exists a :: Got(script, n, a) && exists i :: 0 <= i < |calls(a)| && !calls(a)[i].parses
  }

  /** What an answer of the model amounts to. */
  function ReplyTo<R>(calls: R -> seq<Call>, html: R -> string, a: Option<R>): Option<Reply> {
    match a
    case None => None
    case Some(v) => Some(if calls(v) == [] then Answer(html(v)) else Request(calls(v)))
  }

  lemma RunPlays<R(!new)>(script: (nat, nat) -> Option<R>, calls: R -> seq<Call>, html: R -> string,
                          replies: nat -> Option<Reply>)
    requires forall k: nat :: replies(k) == ReplyTo(calls, html, Attempt(script, k, 0))
    ensures Plays(script, calls, html, RunFrom(replies, 0).rounds, OutcomeOf(RunFrom(replies, 0)))
  {
    var rounds := RunFrom(replies, 0).rounds;
    RunMeans(replies, 0);
    forall k: nat | k < |rounds| ensures exists a :: Got(script, k, a) && calls(a) == rounds[k] != [] && AllParse(rounds[k]) {
      AttemptMeans(script, k, 0);
      assert replies(0 + k) == Some(Request(rounds[k]));
      assert calls(Attempt(script, k, 0).value) == rounds[k];
    }
    AttemptMeans(script, |rounds|, 0);
  }

  /** The model call of a round, with its retries. */
  method CallModel<R>(script: (nat, nat) -> Option<R>, k: nat) returns (r: Option<R>, ghost made: nat)
    ensures r == Attempt(script, k, 0)
    ensures 1 <= made <= MAX_ATTEMPTS && (r.None? ==> made == MAX_ATTEMPTS)
    ensures r == script(k, made - 1) && forall a: nat :: a < made - 1 ==> script(k, a).None?
  {
    for a := 0 to MAX_ATTEMPTS
      invariant Attempt(script, k, 0) == Attempt(script, k, a)
      invariant forall b: nat :: b < a ==> script(k, b).None?
    {
      if script(k, a).Some? { return script(k, a), a + 1; }
    }
    return None, MAX_ATTEMPTS;
  }

  function Count(ns: seq<string>, n: string): nat {
    if ns == [] then 0 else Count(ns[..|ns| - 1], n) + if ns[|ns| - 1] == n then 1 else 0
  }

  lemma {:induction false} CountZero(ns: seq<string>, n: string)
    ensures Count(ns, n) == 0 <==> n !in ns
  {
    if ns != [] {
      CountZero(ns[..|ns| - 1], n);
      assert ns == ns[..|ns| - 1] + [ns[|ns| - 1]];
    }
  }

  /** The budget: `_tool_call_counts` and `tools_called` after the calls `cs`. */
  ghost predicate BudgetFor(counts: map<string, nat>, tools: seq<string>, cs: seq<Call>) {
    && tools == Dedup(Names(cs))
    && forall n :: CountIn(counts, n) == Count(Names(cs), n)
  }

  /** What a loop carries from round to round: its message log, the call counts, and `tools_called`. */
  datatype Session<M> = Session(log: seq<M>, counts: map<string, nat>, tools: seq<string>)

  /** The conversation in a log, given what each message adds to it. */
  function LogEvents<M>(adds: M -> seq<Event>, log: seq<M>): seq<Event> {
    if log == [] then [] else LogEvents(adds, log[..|log| - 1]) + adds(log[|log| - 1])
  }

  lemma LogEventsSnoc<M>(adds: M -> seq<Event>, log: seq<M>, m: M)
    ensures LogEvents(adds, log + [m]) == LogEvents(adds, log) + adds(m)
  {
    assert (log + [m])[..|log|] == log;
  }

  /** The session of a run after the rounds `rounds`. */
  ghost predicate After<M>(adds: M -> seq<Event>, dispatch: Dispatch, s: Session<M>, rounds: seq<seq<Call>>) {
    BudgetFor(s.counts, s.tools, Flatten(rounds)) && LogEvents(adds, s.log) == Conversation(dispatch, rounds)
  }

  function Counted(counts: map<string, nat>, n: string): map<string, nat> {
    counts[n := CountIn(counts, n) + 1]
  }

  lemma CountSnoc(ns: seq<string>, x: string, n: string)
    ensures Count(ns + [x], n) == Count(ns, n) + if x == n then 1 else 0
  {
    assert (ns + [x])[..|ns|] == ns;
  }

  function CountIn(counts: map<string, nat>, n: string): nat {
    if n in counts then counts[n] else 0
  }

  lemma CountStep(counts: map<string, nat>, ns: seq<string>, x: string)
    requires forall n :: CountIn(counts, n) == Count(ns, n)
    ensures forall n :: CountIn(Counted(counts, x), n) == Count(ns + [x], n)
  {
    forall n ensures CountIn(Counted(counts, x), n) == Count(ns + [x], n) {
      CountSnoc(ns, x, n);
      assert CountIn(counts, n) == Count(ns, n) && CountIn(counts, x) == Count(ns, x);
    }
  }

  /** The count reaches the limit of two exactly at a repeated request. */
  lemma BudgetStep(counts: map<string, nat>, tools: seq<string>, before: seq<Call>, c: Call)
    requires BudgetFor(counts, tools, before)
    ensures Counted(counts, c.name)[c.name] >= MAX_CALLS_PER_TOOL <==> c.name in Names(before)
    ensures BudgetFor(Counted(counts, c.name), if c.name in Names(before) then tools else tools + [c.name], before + [c])
  {
    var ns := Names(before);
    assert Names(before + [c]) == ns + [c.name];
    CountStep(counts, ns, c.name);
    DedupSnoc(ns, c.name);
    CountZero(ns, c.name);
    assert CountIn(counts, c.name) == Count(ns, c.name);
  }

  /** One call: count it, and dispatch it unless its tool was called before. */
  method HandleCall<M>(dispatch: Dispatch, s: Session<M>, c: Call, ghost before: seq<Call>)
    returns (s': Session<M>, result: ToolResult)
    requires BudgetFor(s.counts, s.tools, before)
    ensures s'.log == s.log && BudgetFor(s'.counts, s'.tools, before + [c])
    ensures result == ResultOf(dispatch, before, c)
    ensures result == if Requests(before, c.name) then AlreadyCalled(c.name) else Output(dispatch(c.name, c.arguments))
  {
    NamesMean(before, c.name);
    var counts := Counted(s.counts, c.name);
    BudgetStep(s.counts, s.tools, before, c);
    if counts[c.name] >= MAX_CALLS_PER_TOOL {
      return Session(s.log, counts, s.tools), AlreadyCalled(c.name);
    }
    return Session(s.log, counts, s.tools + [c.name]), Output(dispatch(c.name, c.arguments));
  }

  lemma AnswersSnoc(dispatch: Dispatch, before: seq<Call>, cs: seq<Call>, i: nat)
    requires i < |cs|
    ensures Answers(dispatch, before, cs[..i + 1])
         == Answers(dispatch, before, cs[..i]) + [Answered(cs[i].id, ResultOf(dispatch, before + cs[..i], cs[i]))]
  {
    assert forall k :: 0 <= k <= i ==> cs[..i + 1][..k] == cs[..k];
    assert forall k :: 0 <= k < i ==> cs[..i][..k] == cs[..k];
  }

  lemma ConversationSnoc(dispatch: Dispatch, rounds: seq<seq<Call>>, cs: seq<Call>)
    ensures Conversation(dispatch, rounds + [cs])
         == Conversation(dispatch, rounds) + Asks(cs) + Answers(dispatch, Flatten(rounds), cs)
    ensures Flatten(rounds + [cs]) == Flatten(rounds) + cs
  {
    assert (rounds + [cs])[..|rounds|] == rounds;
  }

  /** After `k` rounds of calls, `rounds`, what is left of the run is the run from round `k`. */
  ghost predicate AtRound(replies: nat -> Option<Reply>, k: nat, rounds: seq<seq<Call>>) {
    && rounds + RunFrom(replies, k).rounds == RunFrom(replies, 0).rounds
    && RunFrom(replies, k).end == RunFrom(replies, 0).end
  }

  lemma ConsAfter(rounds: seq<seq<Call>>, cs: seq<Call>, rest: seq<seq<Call>>)
    ensures rounds + ([cs] + rest) == rounds + [cs] + rest
  {}

  /** A round of calls that all parse moves the run one round on. */
  lemma NextRound(replies: nat -> Option<Reply>, k: nat, rounds: seq<seq<Call>>, cs: seq<Call>)
    requires k < MAX_ITERATIONS && replies(k) == Some(Request(cs)) && AllParse(cs) && AtRound(replies, k, rounds)
    ensures AtRound(replies, k + 1, rounds + [cs])
  {
    ConsAfter(rounds, cs, RunFrom(replies, k + 1).rounds);
  }

  /** Any other round ends the run. */
  lemma LastRound(replies: nat -> Option<Reply>, k: nat, rounds: seq<seq<Call>>)
    requires AtRound(replies, k, rounds) && RunFrom(replies, k).rounds == []
    ensures RunFrom(replies, 0) == Run(rounds, RunFrom(replies, k).end)
  {
    assert rounds + [] == rounds;
  }

  lemma TakeSnoc(before: seq<Call>, cs: seq<Call>, i: nat)
    requires i < |cs|
    ensures before + cs[..i] + [cs[i]] == before + cs[..i + 1]
  {}

  lemma LogAnswer<M>(adds: M -> seq<Event>, dispatch: Dispatch, log: seq<M>, m: M, base: seq<Event>,
                     before: seq<Call>, cs: seq<Call>, i: nat)
    requires i < |cs| && LogEvents(adds, log) == base + Answers(dispatch, before, cs[..i])
    requires adds(m) == [Answered(cs[i].id, ResultOf(dispatch, before + cs[..i], cs[i]))]
    ensures LogEvents(adds, log + [m]) == base + Answers(dispatch, before, cs[..i + 1])
  {
    LogEventsSnoc(adds, log, m);
    AnswersSnoc(dispatch, before, cs, i);
  }

  /** The inner loop of both providers, which differ in the message an answer becomes. None is a parse error. */
  method AnswerCalls<M>(adds: M -> seq<Event>, answer: (string, ToolResult) -> M, dispatch: Dispatch,
                        s0: Session<M>, cs: seq<Call>, ghost before: seq<Call>) returns (r: Option<Session<M>>)
    requires forall id, res :: adds(answer(id, res)) == [Answered(id, res)]
    requires BudgetFor(s0.counts, s0.tools, before)
    ensures r.Some? <==> AllParse(cs)
    ensures r.Some? ==> BudgetFor(r.value.counts, r.value.tools, before + cs)
    ensures r.Some? ==> LogEvents(adds, r.value.log) == LogEvents(adds, s0.log) + Answers(dispatch, before, cs)
    ensures r.Some? ==> s0.log <= r.value.log
  {
    var s := s0;
    ghost var base, seen := LogEvents(adds, s0.log), before;
    for i := 0 to |cs|
      invariant AllParse(cs[..i]) && s0.log <= s.log
      invariant seen == before + cs[..i] && BudgetFor(s.counts, s.tools, seen)
      invariant LogEvents(adds, s.log) == base + Answers(dispatch, before, cs[..i])
    {
      if !cs[i].parses { return None; }
      var handled, result := HandleCall(dispatch, s, cs[i], seen);
      LogAnswer(adds, dispatch, s.log, answer(cs[i].id, result), base, before, cs, i);
      TakeSnoc(before, cs, i);
      s := handled.(log := s.log + [answer(cs[i].id, result)]);
      seen := seen + [cs[i]];
    }
    assert cs[..|cs|] == cs;
    return Some(s);
  }

  /** Asking and answering a round of calls extends the conversation by it. */
  lemma TurnDone<M>(adds: M -> seq<Event>, dispatch: Dispatch, log: seq<M>, asked: seq<M>, answered: seq<M>,
                    rounds: seq<seq<Call>>, cs: seq<Call>)
    requires LogEvents(adds, log) == Conversation(dispatch, rounds)
    requires LogEvents(adds, asked) == LogEvents(adds, log) + Asks(cs)
    requires LogEvents(adds, answered) == LogEvents(adds, asked) + Answers(dispatch, Flatten(rounds), cs)
    ensures LogEvents(adds, answered) == Conversation(dispatch, rounds + [cs])
    ensures Flatten(rounds) + cs == Flatten(rounds + [cs])
  {
    ConversationSnoc(dispatch, rounds, cs);
  }

  /** What both loops promise: the specified outcome, and a log that holds the specified conversation. */
  ghost predicate Refines<M>(adds: M -> seq<Event>, dispatch: Dispatch, run: Run, r: Outcome, log: seq<M>) {
    r == OutcomeOf(run) && (r != Raised ==> LogEvents(adds, log) == Conversation(dispatch, run.rounds))
  }

  /** A run that ends in round `k`. */
  lemma Ends<M>(adds: M -> seq<Event>, dispatch: Dispatch, replies: nat -> Option<Reply>, k: nat,
                rounds: seq<seq<Call>>, s: Session<M>)
    requires AtRound(replies, k, rounds) && RunFrom(replies, k).rounds == [] && After(adds, dispatch, s, rounds)
    ensures Refines(adds, dispatch, RunFrom(replies, 0), OutcomeOf(Run(rounds, RunFrom(replies, k).end)), s.log)
    ensures s.tools == ToolsCalled(rounds)
  {
    LastRound(replies, k, rounds);
  }

  /** The state of a loop after `k` iterations with `made` model calls: stopped with what it promised, or in round `k`. */
  ghost predicate Reached<M>(adds: M -> seq<Event>, dispatch: Dispatch, replies: nat -> Option<Reply>, k: nat,
                             stop: Option<Outcome>, s: Session<M>, rounds: seq<seq<Call>>, made: nat)
  {
    && made <= 3 * k
    && match stop
       case Some(r) => Refines(adds, dispatch, RunFrom(replies, 0), r, s.log)
       case None => AtRound(replies, k, rounds) && After(adds, dispatch, s, rounds)
  }

  lemma StartsAtRoundZero<M>(adds: M -> seq<Event>, dispatch: Dispatch, replies: nat -> Option<Reply>, s: Session<M>)
    requires After(adds, dispatch, s, [])
    ensures Reached(adds, dispatch, replies, 0, None, s, [], 0)
  {
    var all := RunFrom(replies, 0).rounds;
    assert [] + all == all;
  }

  /** How a loop ends: the outcome it stopped with, or nothing after 20 rounds of calls. */
  method Conclude<M>(ghost adds: M -> seq<Event>, ghost dispatch: Dispatch, ghost replies: nat -> Option<Reply>, k: nat,
                     stop: Option<Outcome>, s: Session<M>, ghost rounds: seq<seq<Call>>, ghost made: nat)
    returns (r: Outcome)
    requires k <= MAX_ITERATIONS && (k == MAX_ITERATIONS || stop.Some?)
    requires Reached(adds, dispatch, replies, k, stop, s, rounds, made)
    ensures Refines(adds, dispatch, RunFrom(replies, 0), r, s.log) && made <= MAX_ITERATIONS * MAX_ATTEMPTS
  {
    if stop.Some? { return stop.value; }
    assert RunFrom(replies, k) == Run([], Exhausted);
    Ends(adds, dispatch, replies, k, rounds, s);
    return Nothing;
  }

  /**
   * What every finished run shows its caller: `tools_called` is the deduplicated list of everything
   * requested, each tool once, and the log answers each call exactly once, in order.
   */
  lemma FinishedRun<M>(adds: M -> seq<Event>, dispatch: Dispatch, run: Run, r: Outcome, log: seq<M>)
    requires Refines(adds, dispatch, run, r, log) && r != Raised
    ensures AskedFirst(LogEvents(adds, log))
    ensures var calls, asks := Flatten(run.rounds), AsksIn(LogEvents(adds, log));
            |asks| == |calls| && forall n :: 0 <= n < |calls| ==> asks[n] == Asked(calls[n])
    ensures var calls, answers := Flatten(run.rounds), AnswersIn(LogEvents(adds, log));
            && |answers| == |calls|
            && forall n :: 0 <= n < |calls| ==>
                 var c := calls[n];
                 answers[n] == Answered(c.id, if exists m :: 0 <= m < n && calls[m].name == c.name then AlreadyCalled(c.name)
                                              else Output(dispatch(c.name, c.arguments)))
    ensures (r.Html? || r.Apology?) ==>
              && (forall name :: name in r.tools <==> Requests(Flatten(run.rounds), name))
              && r.tools == Dispatched(dispatch, Flatten(run.rounds)) && Distinct(r.tools)
              && InFirstOrder(Names(Flatten(run.rounds)), r.tools)
  {
    var calls := Flatten(run.rounds);
    EveryCallIsAnswered(dispatch, run.rounds);
    CallsAreAskedFirst(dispatch, run.rounds);
    forall n | 0 <= n < |calls|
      ensures Requests(calls[..n], calls[n].name) <==> exists m :: 0 <= m < n && calls[m].name == calls[n].name
    {
      RequestsBefore(calls, n, calls[n].name);
    }
    forall name ensures name in Names(calls) <==> Requests(calls, name) { NamesMean(calls, name); }
    DispatchedIsDedup(dispatch, calls);
    DedupFacts(Names(calls));
  }

  lemma RequestsBefore(calls: seq<Call>, n: nat, name: string)
    requires n <= |calls|
    ensures Requests(calls[..n], name) <==> exists m :: 0 <= m < n && calls[m].name == name
  {
    if m :| 0 <= m < n && calls[m].name == name { assert calls[..n][m].name == name; }
    if m :| 0 <= m < n && calls[..n][m].name == name { assert calls[m].name == name; }
  }
}
