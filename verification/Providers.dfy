/** The OpenRouter and the OpenAI tool loop. */
module Providers {
  import opened Basics
  import opened ToolLoop
  import opened Text

  // ---- OpenRouter: chat completions -----------------------------------------------------

  datatype ChatMessage =
    | ChatPrompt(role: string, content: string)
    | AssistantCalls(calls: seq<Call>)
    | ToolMessage(callId: string, result: ToolResult)

  datatype Completion = Completion(content: Option<string>, toolCalls: seq<Call>)

  type ChatScript = (nat, nat) -> Option<Completion>

  function ChatReply(c: Completion): Reply {
    if c.toolCalls == [] then Answer(if c.content.Some? then c.content.value else "") else Request(c.toolCalls)
  }

  function ChatReplies(script: ChatScript): nat -> Option<Reply> {
    (k: nat) => var c := Attempt(script, k, 0); if c.None? then None else Some(ChatReply(c.value))
  }

  /** The final text is the content of the first answer without tool calls, and empty if it has none. */
  ghost predicate ChatPlays(script: ChatScript, rounds: seq<seq<Call>>, r: Outcome) {
    Plays(script, (c: Completion) => c.toolCalls, (c: Completion) => if c.content.Some? then c.content.value else "", rounds, r)
  }

  lemma ChatRunPlays(script: ChatScript)
    ensures var run := RunFrom(ChatReplies(script), 0); ChatPlays(script, run.rounds, OutcomeOf(run))
  {
    var calls, text := (c: Completion) => c.toolCalls, (c: Completion) => if c.content.Some? then c.content.value else "";
    forall k: nat ensures ChatReplies(script)(k) == ReplyTo(calls, text, Attempt(script, k, 0)) {}
    RunPlays(script, calls, text, ChatReplies(script));
  }

  function ChatAdds(): ChatMessage -> seq<Event> {
    (m: ChatMessage) =>
      match m
      case ChatPrompt(_, _) => []
      case AssistantCalls(cs) => Asks(cs)
      case ToolMessage(id, result) => [Answered(id, result)]
  }

  function ToChat(): (string, ToolResult) -> ChatMessage {
    (id: string, result: ToolResult) => ToolMessage(id, result)
  }

  /** A round of calls: the assistant's message, then the answers. */
  method ChatTurn(dispatch: Dispatch, s: Session<ChatMessage>, cs: seq<Call>, ghost rounds: seq<seq<Call>>)
    returns (r: Option<Session<ChatMessage>>)
    requires After(ChatAdds(), dispatch, s, rounds)
    ensures r.Some? <==> AllParse(cs)
    ensures r.Some? ==> After(ChatAdds(), dispatch, r.value, rounds + [cs]) && s.log <= r.value.log
  {
    var log := s.log + [AssistantCalls(cs)];
    LogEventsSnoc(ChatAdds(), s.log, AssistantCalls(cs));
    r := AnswerCalls(ChatAdds(), ToChat(), dispatch, s.(log := log), cs, Flatten(rounds));
    if r.Some? { TurnDone(ChatAdds(), dispatch, s.log, log, r.value.log, rounds, cs); }
  }

  method StartChat(script: ChatScript, dispatch: Dispatch, system: string, context: string, question: string)
    returns (s: Session<ChatMessage>)
    ensures s.log == [ChatPrompt("system", system), ChatPrompt("system", context), ChatPrompt("user", question)]
    ensures Reached(ChatAdds(), dispatch, ChatReplies(script), 0, None, s, [], 0)
  {
    var a, b, c := ChatPrompt("system", system), ChatPrompt("system", context), ChatPrompt("user", question);
    s := Session([a, b, c], map[], []);
    assert [a, b, c] == [a, b] + [c] && [a, b] == [a] + [b] && [a] == [] + [a];
    LogEventsSnoc(ChatAdds(), [], a);
    LogEventsSnoc(ChatAdds(), [a], b);
    LogEventsSnoc(ChatAdds(), [a, b], c);
    StartsAtRoundZero(ChatAdds(), dispatch, ChatReplies(script), s);
  }

  /** One iteration of the loop: a model call, and either the end or a turn. */
  method ChatIteration(script: ChatScript, dispatch: Dispatch, s: Session<ChatMessage>, k: nat, ghost rounds: seq<seq<Call>>,
                       ghost made: nat)
    returns (stop: Option<Outcome>, s': Session<ChatMessage>, ghost rounds': seq<seq<Call>>, ghost made': nat)
    requires k < MAX_ITERATIONS && Reached(ChatAdds(), dispatch, ChatReplies(script), k, None, s, rounds, made)
    ensures Reached(ChatAdds(), dispatch, ChatReplies(script), k + 1, stop, s', rounds', made') && s.log <= s'.log
    ensures stop.Some? ==> Refines(ChatAdds(), dispatch, RunFrom(ChatReplies(script), 0), stop.value, s'.log)
  {
    var c, tries := CallModel(script, k);
    ghost var run := RunFrom(ChatReplies(script), k);
    if c.None? {
      assert run == Run([], Unavailable);
      Ends(ChatAdds(), dispatch, ChatReplies(script), k, rounds, s);
      return Some(Apology(s.tools)), s, rounds, made + tries;
    }
    var calls := c.value.toolCalls;
    if calls == [] {
      var html := if c.value.content.Some? then c.value.content.value else "";
      assert run == Run([], Final(html));
      Ends(ChatAdds(), dispatch, ChatReplies(script), k, rounds, s);
      return Some(Html(html, s.tools)), s, rounds, made + tries;
    }
    assert ChatReplies(script)(k) == Some(Request(calls));
    var next := ChatTurn(dispatch, s, calls, rounds);
    if next.None? {
      assert run == Run([], BadArguments);
      Ends(ChatAdds(), dispatch, ChatReplies(script), k, rounds, s);
      return Some(Raised), s, rounds, made + tries;
    }
    NextRound(ChatReplies(script), k, rounds, calls);
    return None, next.value, rounds + [calls], made + tries;
  }

  /** `_query_openrouter`. */
  method QueryOpenRouter(script: ChatScript, dispatch: Dispatch, system: string, context: string, question: string)
    returns (r: Outcome, log: seq<ChatMessage>, ghost modelCalls: nat)
    ensures Refines(ChatAdds(), dispatch, RunFrom(ChatReplies(script), 0), r, log)
    ensures ChatPlays(script, RunFrom(ChatReplies(script), 0).rounds, r)
    ensures [ChatPrompt("system", system), ChatPrompt("system", context), ChatPrompt("user", question)] <= log
    ensures modelCalls <= 60
  {
    ChatRunPlays(script);
    var s := StartChat(script, dispatch, system, context, question);
    ghost var prompts := s.log;
    var k, stop := 0, None;
    ghost var rounds: seq<seq<Call>>, made: nat := [], 0;
    while k < MAX_ITERATIONS && stop.None?
      invariant 0 <= k <= MAX_ITERATIONS
      invariant Reached(ChatAdds(), dispatch, ChatReplies(script), k, stop, s, rounds, made) && prompts <= s.log
    {
      stop, s, rounds, made := ChatIteration(script, dispatch, s, k, rounds, made);
      k := k + 1;
    }
    r := Conclude(ChatAdds(), dispatch, ChatReplies(script), k, stop, s, rounds, made);
    return r, s.log, made;
  }

  // ---- OpenAI: responses --------------------------------------------------------------------

  datatype OutputItem = Reasoning(text: string) | Message(parts: seq<string>) | FunctionCall(call: Call)

  datatype InputItem =
    | InputPrompt(role: string, content: string)
    | Item(item: OutputItem)
    | FunctionOutput(callId: string, result: ToolResult)

  datatype Response = Response(output: seq<OutputItem>, outputText: string)

  type ResponseScript = (nat, nat) -> Option<Response>

  function CallsOf(output: seq<OutputItem>): seq<Call> {
    if output == [] then []
    else
      CallsOf(output[..|output| - 1])
      + match output[|output| - 1] case FunctionCall(c) => [c] case Reasoning(_) => [] case Message(_) => []
  }

  function Concat(parts: seq<string>): string {
    if parts == [] then "" else Concat(parts[..|parts| - 1]) + parts[|parts| - 1]
  }

  function MessageText(output: seq<OutputItem>): string {
    if output == [] then ""
    else
      MessageText(output[..|output| - 1])
      + match output[|output| - 1] case Message(parts) => Concat(parts) case Reasoning(_) => "" case FunctionCall(_) => ""
  }

  function ResponseHtml(r: Response): string {
    if r.outputText != "" then r.outputText else MessageText(r.output)
  }

  function ResponseReply(r: Response): Reply {
    if CallsOf(r.output) == [] then Answer(ResponseHtml(r)) else Request(CallsOf(r.output))
  }

  function ResponseReplies(script: ResponseScript): nat -> Option<Reply> {
    (k: nat) => var r := Attempt(script, k, 0); if r.None? then None else Some(ResponseReply(r.value))
  }

  /** The final text is the output text, or the message text if that is empty, of the first answer without calls. */
  ghost predicate ResponsePlays(script: ResponseScript, rounds: seq<seq<Call>>, r: Outcome) {
    Plays(script, (a: Response) => CallsOf(a.output),
          (a: Response) => if a.outputText == "" then MessageText(a.output) else a.outputText, rounds, r)
  }

  lemma ResponseRunPlays(script: ResponseScript)
    ensures var run := RunFrom(ResponseReplies(script), 0); ResponsePlays(script, run.rounds, OutcomeOf(run))
  {
    var calls := (a: Response) => CallsOf(a.output);
    var text := (a: Response) => if a.outputText == "" then MessageText(a.output) else a.outputText;
    forall k: nat ensures ResponseReplies(script)(k) == ReplyTo(calls, text, Attempt(script, k, 0)) {}
    RunPlays(script, calls, text, ResponseReplies(script));
  }

  /** What each item adds to the calls and to the text of an output. */
  lemma OutputMeans(output: seq<OutputItem>, c: Call, thought: string, parts: seq<string>)
    ensures CallsOf([]) == [] && MessageText([]) == ""
    ensures CallsOf(output + [FunctionCall(c)]) == CallsOf(output) + [c]
    ensures CallsOf(output + [Reasoning(thought)]) == CallsOf(output) == CallsOf(output + [Message(parts)])
    ensures MessageText(output + [Message(parts)]) == MessageText(output) + Join("", parts)
    ensures MessageText(output + [Reasoning(thought)]) == MessageText(output) == MessageText(output + [FunctionCall(c)])
  {
    Without(output, FunctionCall(c));
    Without(output, Reasoning(thought));
    Without(output, Message(parts));
    ConcatIsJoin(parts);
  }

  lemma Without(output: seq<OutputItem>, item: OutputItem)
    ensures (output + [item])[..|output + [item]| - 1] == output
  {}

  lemma {:induction false} ConcatIsJoin(parts: seq<string>)
    ensures Concat(parts) == Join("", parts)
  {
    if |parts| > 1 {
      var init, last := parts[..|parts| - 1], parts[|parts| - 1];
      ConcatIsJoin(init);
      JoinSnoc("", init, last);
      assert init + [last] == parts;
      assert Join("", init) + "" + last == Join("", init) + last;
    }
  }

  function InputAdds(): InputItem -> seq<Event> {
    (m: InputItem) =>
      match m
      case InputPrompt(_, _) => []
      case Item(FunctionCall(c)) => [Asked(c)]
      case Item(Reasoning(_)) => []
      case Item(Message(_)) => []
      case FunctionOutput(id, result) => [Answered(id, result)]
  }

  function ToInput(): (string, ToolResult) -> InputItem {
    (id: string, result: ToolResult) => FunctionOutput(id, result)
  }

  lemma AsksSnoc(cs: seq<Call>, c: Call)
    ensures Asks(cs + [c]) == Asks(cs) + [Asked(c)]
  {}

  lemma CallsOfSnoc(output: seq<OutputItem>, item: OutputItem)
    ensures Asks(CallsOf(output + [item])) == Asks(CallsOf(output)) + InputAdds()(Item(item))
  {
    assert (output + [item])[..|output|] == output;
    if item.FunctionCall? { AsksSnoc(CallsOf(output), item.call); }
  }

  lemma AppendItem(log: seq<InputItem>, output: seq<OutputItem>, i: nat, base: seq<Event>)
    requires i < |output| && LogEvents(InputAdds(), log) == base + Asks(CallsOf(output[..i]))
    ensures LogEvents(InputAdds(), log + [Item(output[i])]) == base + Asks(CallsOf(output[..i + 1]))
  {
    LogEventsSnoc(InputAdds(), log, Item(output[i]));
    CallsOfSnoc(output[..i], output[i]);
    assert output[..i] + [output[i]] == output[..i + 1];
  }

  /** All output items join the input, reasoning and text included. */
  method AppendOutput(log: seq<InputItem>, output: seq<OutputItem>) returns (log': seq<InputItem>)
    ensures LogEvents(InputAdds(), log') == LogEvents(InputAdds(), log) + Asks(CallsOf(output))
    ensures |log'| == |log| + |output| && log <= log'
    ensures forall i :: 0 <= i < |output| ==> log'[|log| + i] == Item(output[i])
  {
    log' := log;
    ghost var base := LogEvents(InputAdds(), log);
    for i := 0 to |output|
      invariant LogEvents(InputAdds(), log') == base + Asks(CallsOf(output[..i]))
      invariant |log'| == |log| + i && log <= log'
      invariant forall k :: 0 <= k < i ==> log'[|log| + k] == Item(output[k])
    {
      AppendItem(log', output, i, base);
      log' := log' + [Item(output[i])];
    }
    assert output[..|output|] == output;
  }

  method StartInput(script: ResponseScript, dispatch: Dispatch, system: string, context: string, question: string)
    returns (s: Session<InputItem>)
    ensures s.log == [InputPrompt("system", system), InputPrompt("system", context), InputPrompt("user", question)]
    ensures Reached(InputAdds(), dispatch, ResponseReplies(script), 0, None, s, [], 0)
  {
    var a, b, c := InputPrompt("system", system), InputPrompt("system", context), InputPrompt("user", question);
    s := Session([a, b, c], map[], []);
    assert [a, b, c] == [a, b] + [c] && [a, b] == [a] + [b] && [a] == [] + [a];
    LogEventsSnoc(InputAdds(), [], a);
    LogEventsSnoc(InputAdds(), [a], b);
    LogEventsSnoc(InputAdds(), [a, b], c);
    StartsAtRoundZero(InputAdds(), dispatch, ResponseReplies(script), s);
  }

  /** A round of calls: the whole output, then the outputs of the functions. */
  method InputTurn(dispatch: Dispatch, s: Session<InputItem>, output: seq<OutputItem>, ghost rounds: seq<seq<Call>>)
    returns (r: Option<Session<InputItem>>)
    requires After(InputAdds(), dispatch, s, rounds)
    ensures r.Some? <==> AllParse(CallsOf(output))
    ensures r.Some? ==> After(InputAdds(), dispatch, r.value, rounds + [CallsOf(output)]) && s.log <= r.value.log
  {
    var calls := CallsOf(output);
    var log := AppendOutput(s.log, output);
    r := AnswerCalls(InputAdds(), ToInput(), dispatch, s.(log := log), calls, Flatten(rounds));
    if r.Some? { TurnDone(InputAdds(), dispatch, s.log, log, r.value.log, rounds, calls); }
  }

  /** One iteration of the loop: a model call, and either the end or a turn. */
  method InputIteration(script: ResponseScript, dispatch: Dispatch, s: Session<InputItem>, k: nat, ghost rounds: seq<seq<Call>>,
                       ghost made: nat)
    returns (stop: Option<Outcome>, s': Session<InputItem>, ghost rounds': seq<seq<Call>>, ghost made': nat)
    requires k < MAX_ITERATIONS && Reached(InputAdds(), dispatch, ResponseReplies(script), k, None, s, rounds, made)
    ensures Reached(InputAdds(), dispatch, ResponseReplies(script), k + 1, stop, s', rounds', made') && s.log <= s'.log
    ensures stop.Some? ==> Refines(InputAdds(), dispatch, RunFrom(ResponseReplies(script), 0), stop.value, s'.log)
  {
    var resp, tries := CallModel(script, k);
    ghost var run := RunFrom(ResponseReplies(script), k);
    if resp.None? {
      assert run == Run([], Unavailable);
      Ends(InputAdds(), dispatch, ResponseReplies(script), k, rounds, s);
      return Some(Apology(s.tools)), s, rounds, made + tries;
    }
    var calls := CallsOf(resp.value.output);
    if calls == [] {
      var html := ResponseHtml(resp.value);
      assert run == Run([], Final(html));
      Ends(InputAdds(), dispatch, ResponseReplies(script), k, rounds, s);
      return Some(Html(html, s.tools)), s, rounds, made + tries;
    }
    assert ResponseReplies(script)(k) == Some(Request(calls));
    var next := InputTurn(dispatch, s, resp.value.output, rounds);
    if next.None? {
      assert run == Run([], BadArguments);
      Ends(InputAdds(), dispatch, ResponseReplies(script), k, rounds, s);
      return Some(Raised), s, rounds, made + tries;
    }
    NextRound(ResponseReplies(script), k, rounds, calls);
    return None, next.value, rounds + [calls], made + tries;
  }

  /** `_query_openai`. */
  method QueryOpenAi(script: ResponseScript, dispatch: Dispatch, system: string, context: string, question: string)
    returns (r: Outcome, log: seq<InputItem>, ghost modelCalls: nat)
    ensures Refines(InputAdds(), dispatch, RunFrom(ResponseReplies(script), 0), r, log)
    ensures ResponsePlays(script, RunFrom(ResponseReplies(script), 0).rounds, r)
    ensures [InputPrompt("system", system), InputPrompt("system", context), InputPrompt("user", question)] <= log
    ensures modelCalls <= 60
  {
    ResponseRunPlays(script);
    var s := StartInput(script, dispatch, system, context, question);
    ghost var prompts := s.log;
    var k, stop := 0, None;
    ghost var rounds: seq<seq<Call>>, made: nat := [], 0;
    while k < MAX_ITERATIONS && stop.None?
      invariant 0 <= k <= MAX_ITERATIONS
      invariant Reached(InputAdds(), dispatch, ResponseReplies(script), k, stop, s, rounds, made) && prompts <= s.log
    {
      stop, s, rounds, made := InputIteration(script, dispatch, s, k, rounds, made);
      k := k + 1;
    }
    r := Conclude(InputAdds(), dispatch, ResponseReplies(script), k, stop, s, rounds, made);
    return r, s.log, made;
  }

  // ---- Both loops ------------------------------------------------------------------------------

  /** The models of both providers amount to the same in each of the rounds. */
  ghost predicate SameModel(chat: ChatScript, input: ResponseScript) {
    forall k :: 0 <= k < MAX_ITERATIONS ==> ChatReplies(chat)(k) == ResponseReplies(input)(k)
  }

  lemma {:induction false} SameRun(chat: ChatScript, input: ResponseScript, k: nat)
    requires SameModel(chat, input)
    ensures RunFrom(ChatReplies(chat), k) == RunFrom(ResponseReplies(input), k)
    decreases MAX_ITERATIONS - k
  {
    if k < MAX_ITERATIONS { SameRun(chat, input, k + 1); }
  }

  /** Asked the same calls, both loops return the same, and their logs hold the same conversation. */
  lemma LoopsAgree(chat: ChatScript, input: ResponseScript, dispatch: Dispatch,
                   r: Outcome, log: seq<ChatMessage>, r': Outcome, log': seq<InputItem>)
    requires SameModel(chat, input)
    requires Refines(ChatAdds(), dispatch, RunFrom(ChatReplies(chat), 0), r, log)
    requires Refines(InputAdds(), dispatch, RunFrom(ResponseReplies(input), 0), r', log')
    ensures r == r'
    ensures r != Raised ==> LogEvents(ChatAdds(), log) == LogEvents(InputAdds(), log')
  {
    SameRun(chat, input, 0);
  }
}
