/** The multi-turn agent loop of `src/runner/mod.rs`: its data, and what a run is specified to do.
    `Runner` holds the loop itself, `SessionLaws` what holds of every run.

    The engine, the tool executor, the ledger file, the report file and the action hash are
    arbitrary: each is a function of how often it was used before and of its arguments, so a
    statement about every `World` is a statement about every behaviour of the five. */
module Session {
  import opened Text
  import opened LoopDetection
  import opened Wire

  // -------------------------------------------------------------------------
  // Messages, completions, events
  // -------------------------------------------------------------------------

  /** The harness's own user-role messages, by purpose; the wording is not modelled. */
  datatype Notice =
    | BudgetNotice(remaining: nat)
    | SalvagePrompt
    | EmptySalvagePrompt
    | FinalPrompt
    | ReadAdvisory
    | LoopAdvisory(name: string)

  datatype Message =
    | System(text: string)
    | User(text: string)
    | Note(notice: Notice)
    | Assistant(content: string, toolCalls: seq<ToolCall>)
    | Tool(callId: string, output: string)

  datatype Reply = Replied(completion: Completion) | ChatFailed(error: string)

  datatype ToolReply = Ran(text: string) | ToolFailed(name: string, message: string)

  /** One `engine.chat` call: what was sent, whether the tool schemas and streaming were on, and
      what came back. */
  datatype Call = Call(messages: seq<Message>, tools: bool, stream: bool, reply: Reply)

  datatype Status = Completed | BudgetExhausted | ReasoningExhausted | Failed

  /** `final_text`, by origin. */
  datatype FinalText =
    | Content(content: string)
    | SalvageSilent
    | SalvageSummary(report: Option<string>, summary: string)
    | SalvageError(error: string)
    | DegenerateFinal

  datatype Event =
    | Dispatch(turn: nat, finishReason: Option<string>, content: string, toolCalls: seq<ToolCall>)
    | ToolResult(turn: nat, callId: string, name: string, isError: bool)
    | Salvage(turn: nat, content: string)
    | SalvageFailed(turn: nat, error: string)
    | Final(turn: nat, status: Status, text: FinalText)

  datatype SessionResult = SessionResult(text: FinalText, turns: nat, budget: nat, status: Status)

  datatype RunnerError = EngineError(error: string) | LoopError(name: string) | IoError

  datatype Result<+T> = Done(value: T) | Err(error: RunnerError)

  /** Everything a session is given. The first argument of `chat`, `execute` and `append` counts
      the earlier uses. */
  datatype World = World(
    system: string,
    user: string,
    turnsBudget: nat,
    chat: (nat, seq<Message>, bool, bool) -> Reply,
    execute: (nat, string, string) -> ToolReply,
    append: nat -> bool,
    hash: (string, string) -> nat,
    writeReport: string -> Option<string>)

  const DEFAULT_TURNS_BUDGET := 80
  const LANDING_WINDOW := 5
  const LOOP_WINDOW := 6
  const LOOP_THRESHOLD := 3
  const REASONING_CEILING_FINISH := "length"

  function Asked(w: World, n: nat, messages: seq<Message>, tools: bool, stream: bool): Call {
    Call(messages, tools, stream, w.chat(n, messages, tools, stream))
  }

  // -------------------------------------------------------------------------
  // What executing tool calls adds to the history and to the ledger
  // -------------------------------------------------------------------------

  /** The tool calls of a list of completions, in order. */
  function Actions(cs: seq<Completion>): seq<ToolCall> {
    if cs == [] then [] else Actions(cs[..|cs| - 1]) + cs[|cs| - 1].toolCalls
  }

  function Hashes(w: World, acts: seq<ToolCall>): (hs: seq<nat>)
    ensures |hs| == |acts|
  {
    if acts == [] then []
    else
      var n := |acts| - 1;
      Hashes(w, acts[..n]) + [w.hash(acts[n].name, acts[n].arguments)]
  }

  /** The text of the `n`-th tool execution. */
  function OutcomeText(w: World, n: nat, tc: ToolCall): string {
    match w.execute(n, tc.name, tc.arguments)
    case Ran(text) => text
    case ToolFailed(name, message) => "Error: tool '" + name + "' failed: " + message
  }

  function ToolMessage(w: World, n: nat, tc: ToolCall): Message {
    Tool(tc.id, OutcomeText(w, n, tc))
  }

  function ResultEvent(w: World, n: nat, turn: nat, tc: ToolCall): Event {
    ToolResult(turn, tc.id, tc.name, "Error:" <= OutcomeText(w, n, tc))
  }

  /** The loop breaker's verdict on the last action of `acts`. */
  ghost function LoopVerdict(w: World, acts: seq<ToolCall>): LoopState
    requires acts != []
  {
    StateAfter(Hashes(w, acts), LOOP_WINDOW, LOOP_THRESHOLD)
  }

  function AdvisoryFor(name: string): Message {
    Note(if name == "read_file" then ReadAdvisory else LoopAdvisory(name))
  }

  /** What one tool call of the main loop appends, after the actions `acts`. */
  ghost function ToolStep(w: World, acts: seq<ToolCall>, tc: ToolCall): seq<Message> {
    [ToolMessage(w, |acts|, tc)] + if LoopVerdict(w, acts + [tc]) == Advisory then [AdvisoryFor(tc.name)] else []
  }

  ghost function ToolBlock(w: World, acts: seq<ToolCall>, tcs: seq<ToolCall>): seq<Message> {
    if tcs == [] then []
    else
      var n := |tcs| - 1;
      ToolBlock(w, acts, tcs[..n]) + ToolStep(w, acts + tcs[..n], tcs[n])
  }

  /** What the tool calls of a salvage reply append: no loop breaker there. */
  function SalvageBlock(w: World, done: nat, tcs: seq<ToolCall>): seq<Message> {
    if tcs == [] then []
    else
      var n := |tcs| - 1;
      SalvageBlock(w, done, tcs[..n]) + [ToolMessage(w, done + n, tcs[n])]
  }

  function ResultEvents(w: World, done: nat, turn: nat, tcs: seq<ToolCall>): (es: seq<Event>)
    ensures |es| == |tcs|
  {
    if tcs == [] then []
    else
      var n := |tcs| - 1;
      ResultEvents(w, done, turn, tcs[..n]) + [ResultEvent(w, done + n, turn, tcs[n])]
  }

  /** No action of the run met the hard stop of the loop breaker. */
  ghost predicate NoLoop(w: World, acts: seq<ToolCall>) {
    forall k :: 0 < k <= |acts| ==> LoopVerdict(w, acts[..k]) != LoopDetected
  }

  /** Those of `events` whose append, numbered from `from` on, succeeded. */
  function Kept(w: World, from: nat, events: seq<Event>): seq<Event> {
    if events == [] then []
    else
      var n := |events| - 1;
      Kept(w, from, events[..n]) + if w.append(from + n) then [events[n]] else []
  }

  // -------------------------------------------------------------------------
  // What a run is specified to do, given the completions of its main turns
  // -------------------------------------------------------------------------

  function Budget(w: World): nat {
    if w.turnsBudget == 0 then DEFAULT_TURNS_BUDGET else w.turnsBudget
  }

  /** The number of turns taken when the landing notice is given. */
  function LandingTurn(w: World): nat {
    if Budget(w) <= LANDING_WINDOW then 0 else Budget(w) - LANDING_WINDOW
  }

  function Landing(w: World, turns: nat): seq<Message> {
    if turns == LandingTurn(w) && turns < Budget(w) then [Note(BudgetNotice(Budget(w) - turns))] else []
  }

  /** The history once the turns answered by `cs` are over. */
  ghost function AfterTurns(w: World, cs: seq<Completion>): seq<Message>
    decreases |cs|, 0
  {
    if cs == [] then [System(w.system), User(w.user)]
    else
      var earlier, c := cs[..|cs| - 1], cs[|cs| - 1];
      HistoryAt(w, earlier) + [Assistant(c.content, c.toolCalls)] + ToolBlock(w, Actions(earlier), c.toolCalls)
  }

  /** The history sent in the turn after those. */
  ghost function HistoryAt(w: World, cs: seq<Completion>): seq<Message>
    decreases |cs|, 1
  {
    AfterTurns(w, cs) + Landing(w, |cs|)
  }

  ghost function MainCall(w: World, cs: seq<Completion>): Call {
    Asked(w, |cs|, HistoryAt(w, cs), true, true)
  }

  ghost function MainCalls(w: World, cs: seq<Completion>): (calls: seq<Call>)
    ensures |calls| == |cs|
  {
    if cs == [] then [] else MainCalls(w, cs[..|cs| - 1]) + [MainCall(w, cs[..|cs| - 1])]
  }

  ghost function LedgerAt(w: World, cs: seq<Completion>): seq<Event> {
    if cs == [] then []
    else
      var earlier, c := cs[..|cs| - 1], cs[|cs| - 1];
      LedgerAt(w, earlier) + [Dispatch(|cs|, c.finishReason, c.content, c.toolCalls)]
      + ResultEvents(w, |Actions(earlier)|, |cs|, c.toolCalls)
  }

  /** `cs` are the engine's answers to the main calls: within the budget, and every one but the
      last asks for tools. */
  ghost predicate Follows(w: World, cs: seq<Completion>) {
    cs == [] ||
    var earlier := cs[..|cs| - 1];
    && Follows(w, earlier)
    && |cs| <= Budget(w)
    && (earlier != [] ==> earlier[|earlier| - 1].toolCalls != [])
    && MainCall(w, earlier).reply == Replied(cs[|cs| - 1])
  }

  // -------------------------------------------------------------------------
  // How the main loop ends, and what follows it
  // -------------------------------------------------------------------------

  datatype Ending = Landed | Ceiling | EmptyFinal | OutOfTurns

  function EndingOf(cs: seq<Completion>): Ending
    requires cs != []
  {
    var c := cs[|cs| - 1];
    if c.toolCalls != [] then OutOfTurns
    else if c.finishReason == Some(REASONING_CEILING_FINISH) then Ceiling
    else if Trim(c.content) == "" && |cs| > 1 then EmptyFinal
    else Landed
  }

  /** The calls of the ceiling salvage: one with tools, and when its reply uses them, a second one
      without. `n` and `done` count the calls and tool executions so far. */
  function CeilingCalls(w: World, n: nat, done: nat, messages: seq<Message>): (calls: seq<Call>)
    ensures 1 <= |calls| <= 2
  {
    var prompt := messages + [Note(SalvagePrompt)];
    var first := Asked(w, n, prompt, true, false);
    if first.reply.Replied? && first.reply.completion.toolCalls != [] then
      var c := first.reply.completion;
      [first, Asked(w, n + 1, prompt + [Assistant(c.content, c.toolCalls)] + SalvageBlock(w, done, c.toolCalls), false, false)]
    else
      [first]
  }

  /** The reply the salvage is judged by: a failed second call leaves the first one's. */
  function CeilingOutcome(calls: seq<Call>): Reply
    requires 1 <= |calls| <= 2
  {
    if |calls| == 2 && calls[1].reply.Replied? then calls[1].reply else calls[0].reply
  }

  function CeilingEvents(w: World, done: nat, turn: nat, calls: seq<Call>): seq<Event>
    requires 1 <= |calls| <= 2
  {
    (if calls[0].reply.Replied? then ResultEvents(w, done, turn, calls[0].reply.completion.toolCalls) else [])
    + match CeilingOutcome(calls)
      case Replied(c) => [Salvage(turn, c.content)]
      case ChatFailed(e) => [SalvageFailed(turn, e)]
  }

  function CeilingText(w: World, outcome: Reply): FinalText {
    match outcome
    case ChatFailed(e) => SalvageError(e)
    case Replied(c) =>
      var summary := Trim(c.content);
      if summary == "" then SalvageSilent else SalvageSummary(w.writeReport(summary), summary)
  }

  /** One last call, without tools, after a prompt of the harness. */
  ghost function PromptCall(w: World, cs: seq<Completion>, prompt: Notice): Call {
    Asked(w, |cs|, AfterTurns(w, cs) + [Note(prompt)], false, true)
  }

  ghost function EndingCalls(w: World, cs: seq<Completion>): seq<Call>
    requires cs != []
  {
    match EndingOf(cs)
    case Landed => []
    case Ceiling => CeilingCalls(w, |cs|, |Actions(cs)|, AfterTurns(w, cs))
    case EmptyFinal => [PromptCall(w, cs, EmptySalvagePrompt)]
    case OutOfTurns => [PromptCall(w, cs, FinalPrompt)]
  }

  /** The main loop is over, and so is the extra call that has to be answered. */
  ghost predicate Concluded(w: World, cs: seq<Completion>) {
    && Follows(w, cs) && cs != [] && NoLoop(w, Actions(cs))
    && (EndingOf(cs) == OutOfTurns ==> |cs| == Budget(w))
    && (EndingOf(cs) == EmptyFinal ==> PromptCall(w, cs, EmptySalvagePrompt).reply.Replied?)
    && (EndingOf(cs) == OutOfTurns ==> PromptCall(w, cs, FinalPrompt).reply.Replied?)
  }

  ghost function EndingReply(w: World, cs: seq<Completion>): Completion
    requires Concluded(w, cs) && EndingOf(cs) in {EmptyFinal, OutOfTurns}
  {
    PromptCall(w, cs, if EndingOf(cs) == EmptyFinal then EmptySalvagePrompt else FinalPrompt).reply.completion
  }

  ghost function EndingEvents(w: World, cs: seq<Completion>): seq<Event>
    requires Concluded(w, cs)
  {
    match EndingOf(cs)
    case Landed => []
    case Ceiling => CeilingEvents(w, |Actions(cs)|, |cs| + 1, EndingCalls(w, cs))
    case EmptyFinal => [Salvage(|cs|, EndingReply(w, cs).content)]
    case OutOfTurns =>
      var c := EndingReply(w, cs);
      [Dispatch(|cs| + 1, c.finishReason, c.content, [])]
  }

  ghost function TextOf(w: World, cs: seq<Completion>): FinalText
    requires Concluded(w, cs)
  {
    match EndingOf(cs)
    case Landed => Content(cs[|cs| - 1].content)
    case Ceiling => CeilingText(w, CeilingOutcome(EndingCalls(w, cs)))
    case EmptyFinal =>
      var c := EndingReply(w, cs);
      if Trim(c.content) != "" then Content(c.content) else DegenerateFinal
    case OutOfTurns => Content(EndingReply(w, cs).content)
  }

  ghost function StatusOf(w: World, cs: seq<Completion>): Status
    requires Concluded(w, cs)
  {
    if EndingOf(cs) == Ceiling then ReasoningExhausted
    else if EndingOf(cs) == EmptyFinal && Trim(EndingReply(w, cs).content) == "" then Failed
    else if |cs| == Budget(w) then BudgetExhausted
    else Completed
  }

  ghost function ResultOf(w: World, cs: seq<Completion>): SessionResult
    requires Concluded(w, cs)
  {
    SessionResult(TextOf(w, cs), |cs|, Budget(w), StatusOf(w, cs))
  }

  /** The whole ledger of a run that ended well: every event of the main turns, the salvage events
      that could be written, and one `Final`. */
  ghost function FullLedger(w: World, cs: seq<Completion>): seq<Event>
    requires Concluded(w, cs)
  {
    var main := LedgerAt(w, cs);
    main + Kept(w, |main|, EndingEvents(w, cs)) + [Final(|cs|, StatusOf(w, cs), TextOf(w, cs))]
  }
}
