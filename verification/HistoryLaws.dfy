/** What the engine is sent, and what the ledger is told, in every run: read off the messages, the
    events and the tool executor alone. */
module HistoryLaws {
  import opened Text
  import opened LoopDetection
  import opened Wire
  import opened Session
  import opened SessionLaws

  // -------------------------------------------------------------------------
  // Reading a history
  // -------------------------------------------------------------------------

  /** The tool messages of a stretch of history, in order. */
  function ToolsIn(ms: seq<Message>): seq<Message> {
    if ms == [] then []
    else
      var n := |ms| - 1;
      ToolsIn(ms[..n]) + if ms[n].Tool? then [ms[n]] else []
  }

  /** The assistant messages, in order. */
  function SpokenIn(ms: seq<Message>): seq<Message> {
    if ms == [] then []
    else
      var n := |ms| - 1;
      SpokenIn(ms[..n]) + if ms[n].Assistant? then [ms[n]] else []
  }

  /** The tool calls that the assistant messages ask for, in order. */
  function AskedIn(ms: seq<Message>): seq<ToolCall> {
    if ms == [] then []
    else
      var n := |ms| - 1;
      AskedIn(ms[..n]) + if ms[n].Assistant? then ms[n].toolCalls else []
  }

  lemma {:induction false} ToolsAppend(a: seq<Message>, b: seq<Message>)
    ensures ToolsIn(a + b) == ToolsIn(a) + ToolsIn(b)
  {
    if b == [] {
      assert a + b == a;
    } else {
      assert (a + b)[..|a + b| - 1] == a + b[..|b| - 1];
      ToolsAppend(a, b[..|b| - 1]);
    }
  }

  lemma {:induction false} SpokenAppend(a: seq<Message>, b: seq<Message>)
    ensures SpokenIn(a + b) == SpokenIn(a) + SpokenIn(b)
  {
    if b == [] {
      assert a + b == a;
    } else {
      assert (a + b)[..|a + b| - 1] == a + b[..|b| - 1];
      SpokenAppend(a, b[..|b| - 1]);
    }
  }

  lemma {:induction false} AskedAppend(a: seq<Message>, b: seq<Message>)
    ensures AskedIn(a + b) == AskedIn(a) + AskedIn(b)
  {
    if b == [] {
      assert a + b == a;
    } else {
      assert (a + b)[..|a + b| - 1] == a + b[..|b| - 1];
      AskedAppend(a, b[..|b| - 1]);
    }
  }

  lemma {:induction false} ReadOne(m: Message)
    ensures ToolsIn([m]) == if m.Tool? then [m] else []
    ensures SpokenIn([m]) == if m.Assistant? then [m] else []
    ensures AskedIn([m]) == if m.Assistant? then m.toolCalls else []
  {
    assert [m][..0] == [];
  }

  // -------------------------------------------------------------------------
  // What a history has to tell
  // -------------------------------------------------------------------------

  /** What the `n`-th tool execution leaves for the model to read. */
  function Outcome(w: World, n: nat, tc: ToolCall): string {
    match w.execute(n, tc.name, tc.arguments)
    case Ran(text) => text
    case ToolFailed(name, message) => "Error: tool '" + name + "' failed: " + message
  }

  /** `m` answers the tool call `tc`, which was the `n`-th to be executed. */
  predicate Tells(w: World, n: nat, tc: ToolCall, m: Message) {
    m == Tool(tc.id, Outcome(w, n, tc))
  }

  /** `block` answers the calls `tcs`, executed from the `done`-th on. */
  predicate AnswersAll(w: World, done: nat, tcs: seq<ToolCall>, block: seq<Message>) {
    && |ToolsIn(block)| == |tcs|
    && forall n: nat :: n < |tcs| ==> Tells(w, done + n, tcs[n], ToolsIn(block)[n])
  }

  /** The tool messages of a history tell what its tool calls did. */
  predicate Answered(w: World, ms: seq<Message>) {
    AnswersAll(w, 0, AskedIn(ms), ms)
  }

  /** Each of `calls` was answered, and `spoken` are these answers. */
  predicate RepeatsAnswers(calls: seq<Call>, spoken: seq<Message>) {
    && |spoken| == |calls|
    && forall i :: 0 <= i < |calls| ==>
         calls[i].reply.Replied? &&
         spoken[i] == Assistant(calls[i].reply.completion.content, calls[i].reply.completion.toolCalls)
  }

  /** The history after `calls`: it opens with the two prompts, repeats every answer, and tells what
      every tool call did. */
  predicate Told(w: World, calls: seq<Call>, ms: seq<Message>) {
    && |ms| >= 2 && ms[0] == System(w.system) && ms[1] == User(w.user)
    && RepeatsAnswers(calls, SpokenIn(ms))
    && Answered(w, ms)
  }

  /** Every call sends such a history, and gets the engine's answer to it. */
  ghost predicate Transcript(w: World, calls: seq<Call>) {
    forall i :: 0 <= i < |calls| ==> InTranscript(w, calls, i)
  }

  predicate InTranscript(w: World, calls: seq<Call>, i: nat)
    requires i < |calls|
  {
    && Told(w, calls[..i], calls[i].messages)
    && calls[i].reply == w.chat(i, calls[i].messages, calls[i].tools, calls[i].stream)
  }

  // -------------------------------------------------------------------------
  // Steps that keep it
  // -------------------------------------------------------------------------

  lemma {:induction false} ToldNote(w: World, calls: seq<Call>, ms: seq<Message>, notice: Notice)
    requires Told(w, calls, ms)
    ensures Told(w, calls, ms + [Note(notice)]) && AskedIn(ms + [Note(notice)]) == AskedIn(ms)
  {
    hide ToolsIn, SpokenIn, AskedIn, RepeatsAnswers, Tells;
    ReadOne(Note(notice));
    ToolsAppend(ms, [Note(notice)]);
    SpokenAppend(ms, [Note(notice)]);
    AskedAppend(ms, [Note(notice)]);
    assert ToolsIn(ms) + [] == ToolsIn(ms) && SpokenIn(ms) + [] == SpokenIn(ms) && AskedIn(ms) + [] == AskedIn(ms);
  }

  lemma {:induction false} AnswersBoth(w: World, done: nat, a: seq<ToolCall>, b: seq<ToolCall>, ms: seq<Message>, block: seq<Message>)
    requires AnswersAll(w, done, a, ms) && AnswersAll(w, done + |a|, b, block)
    ensures AnswersAll(w, done, a + b, ms + block)
  {
    hide ToolsIn, Tells;
    ToolsAppend(ms, block);
    var all := ToolsIn(ms + block);
    forall n: nat | n < |a + b|
      ensures Tells(w, done + n, (a + b)[n], all[n])
    {
      if n < |a| {
        assert all[n] == ToolsIn(ms)[n];
      } else {
        var k: nat := n - |a|;
        assert Tells(w, done + |a| + k, b[k], ToolsIn(block)[k]);
      }
    }
  }

  lemma {:induction false} RepeatsStep(calls: seq<Call>, spoken: seq<Message>, call: Call, c: Completion)
    requires RepeatsAnswers(calls, spoken) && call.reply == Replied(c)
    ensures RepeatsAnswers(calls + [call], spoken + [Assistant(c.content, c.toolCalls)])
  {
  }

  /** An answer, and the block that answers its tool calls. */
  lemma {:induction false} ToldTurn(w: World, calls: seq<Call>, ms: seq<Message>, call: Call, c: Completion, block: seq<Message>)
    requires Told(w, calls, ms) && call.reply == Replied(c)
    requires AnswersAll(w, |AskedIn(ms)|, c.toolCalls, block) && SpokenIn(block) == [] && AskedIn(block) == []
    ensures Told(w, calls + [call], ms + [Assistant(c.content, c.toolCalls)] + block)
    ensures AskedIn(ms + [Assistant(c.content, c.toolCalls)] + block) == AskedIn(ms) + c.toolCalls
  {
    hide ToolsIn, SpokenIn, AskedIn, RepeatsAnswers, AnswersAll;
    var m := Assistant(c.content, c.toolCalls);
    ReadOne(m);
    SpokenAppend(ms, [m]);
    SpokenAppend(ms + [m], block);
    AskedAppend(ms, [m]);
    AskedAppend(ms + [m], block);
    assert SpokenIn(ms + [m]) + [] == SpokenIn(ms + [m]) && AskedIn(ms + [m]) + [] == AskedIn(ms + [m]);
    RepeatsStep(calls, SpokenIn(ms), call, c);
    AnswersSpoken(w, ms, m);
    AnswersBoth(w, 0, AskedIn(ms), c.toolCalls, ms + [m], block);
  }

  lemma {:induction false} AnswersSpoken(w: World, ms: seq<Message>, m: Message)
    requires Answered(w, ms) && m.Assistant?
    ensures AnswersAll(w, 0, AskedIn(ms), ms + [m])
  {
    hide ToolsIn, AskedIn, Tells;
    ReadOne(m);
    ToolsAppend(ms, [m]);
    assert ToolsIn(ms) + [] == ToolsIn(ms);
  }

  lemma {:induction false} OneMoreAnswer(w: World, done: nat, tcs: seq<ToolCall>, tc: ToolCall, block: seq<Message>, step: seq<Message>)
    requires AnswersAll(w, done, tcs, block) && ToolsIn(step) == [Tool(tc.id, Outcome(w, done + |tcs|, tc))]
    requires SpokenIn(block) == [] && AskedIn(block) == [] && SpokenIn(step) == [] && AskedIn(step) == []
    ensures AnswersAll(w, done, tcs + [tc], block + step)
    ensures SpokenIn(block + step) == [] && AskedIn(block + step) == []
  {
    hide ToolsIn, SpokenIn, AskedIn, Outcome;
    SpokenAppend(block, step);
    AskedAppend(block, step);
    AnswersBoth(w, done, tcs, [tc], block, step);
  }

  lemma {:induction false} StepTells(w: World, acts: seq<ToolCall>, tc: ToolCall)
    ensures
      var step := ToolStep(w, acts, tc);
      ToolsIn(step) == [Tool(tc.id, Outcome(w, |acts|, tc))] && SpokenIn(step) == [] && AskedIn(step) == []
  {
    hide LoopVerdict, ToolsIn, SpokenIn, AskedIn;
    StepOf(w, acts, tc);
    var m, note := ToolMessage(w, |acts|, tc), AdvisoryFor(tc.name);
    ReadOne(m);
    ReadOne(note);
    ToolsAppend([m], [note]);
    SpokenAppend([m], [note]);
    AskedAppend([m], [note]);
    assert [m] + [note] == [m, note];
  }

  lemma {:induction false} MessageTells(w: World, n: nat, tc: ToolCall)
    ensures
      var m := ToolMessage(w, n, tc);
      ToolsIn([m]) == [Tool(tc.id, Outcome(w, n, tc))] && SpokenIn([m]) == [] && AskedIn([m]) == []
  {
    hide ToolsIn, SpokenIn, AskedIn;
    ReadOne(ToolMessage(w, n, tc));
  }

  lemma {:induction false} NothingAnswered(w: World, done: nat)
    ensures AnswersAll(w, done, [], []) && SpokenIn([]) == [] && AskedIn([]) == []
  {
  }

  lemma {:induction false} BlockUnrolls(w: World, acts: seq<ToolCall>, tcs: seq<ToolCall>)
    ensures
      if tcs == [] then ToolBlock(w, acts, tcs) == []
      else
        var n := |tcs| - 1;
        ToolBlock(w, acts, tcs) == ToolBlock(w, acts, tcs[..n]) + ToolStep(w, acts + tcs[..n], tcs[n])
  {
  }

  lemma {:induction false} BlockTells(w: World, acts: seq<ToolCall>, tcs: seq<ToolCall>)
    ensures AnswersAll(w, |acts|, tcs, ToolBlock(w, acts, tcs))
    ensures SpokenIn(ToolBlock(w, acts, tcs)) == [] && AskedIn(ToolBlock(w, acts, tcs)) == []
  {
    hide ToolsIn, SpokenIn, AskedIn, ToolBlock, ToolStep, Outcome, AnswersAll;
    BlockUnrolls(w, acts, tcs);
    if tcs == [] {
      NothingAnswered(w, |acts|);
    } else {
      var n := |tcs| - 1;
      var step := ToolStep(w, acts + tcs[..n], tcs[n]);
      BlockTells(w, acts, tcs[..n]);
      StepTells(w, acts + tcs[..n], tcs[n]);
      OneMoreAnswer(w, |acts|, tcs[..n], tcs[n], ToolBlock(w, acts, tcs[..n]), step);
      assert tcs[..n] + [tcs[n]] == tcs;
    }
  }

  lemma {:induction false} SalvageUnrolls(w: World, done: nat, tcs: seq<ToolCall>)
    ensures
      if tcs == [] then SalvageBlock(w, done, tcs) == []
      else
        var n := |tcs| - 1;
        SalvageBlock(w, done, tcs) == SalvageBlock(w, done, tcs[..n]) + [ToolMessage(w, done + n, tcs[n])]
  {
  }

  lemma {:induction false} SalvageBlockTells(w: World, done: nat, tcs: seq<ToolCall>)
    ensures AnswersAll(w, done, tcs, SalvageBlock(w, done, tcs))
    ensures SpokenIn(SalvageBlock(w, done, tcs)) == [] && AskedIn(SalvageBlock(w, done, tcs)) == []
  {
    hide ToolsIn, SpokenIn, AskedIn, SalvageBlock, ToolMessage, Outcome, AnswersAll;
    SalvageUnrolls(w, done, tcs);
    if tcs == [] {
      NothingAnswered(w, done);
    } else {
      var n := |tcs| - 1;
      SalvageBlockTells(w, done, tcs[..n]);
      MessageTells(w, done + n, tcs[n]);
      OneMoreAnswer(w, done, tcs[..n], tcs[n], SalvageBlock(w, done, tcs[..n]), [ToolMessage(w, done + n, tcs[n])]);
      assert tcs[..n] + [tcs[n]] == tcs;
    }
  }

  // -------------------------------------------------------------------------
  // Every call of every run
  // -------------------------------------------------------------------------

  lemma {:induction false} OneMoreTold(w: World, calls: seq<Call>, call: Call)
    requires Transcript(w, calls) && Told(w, calls, call.messages)
    requires call.reply == w.chat(|calls|, call.messages, call.tools, call.stream)
    ensures Transcript(w, calls + [call])
  {
    hide Told;
    var longer := calls + [call];
    forall i | 0 <= i < |longer|
      ensures InTranscript(w, longer, i)
    {
      if i < |calls| {
        assert InTranscript(w, calls, i);
        assert longer[..i] == calls[..i];
      } else {
        assert longer[..i] == calls;
      }
    }
  }

  lemma {:induction false} OpeningTold(w: World)
    ensures Told(w, [], [System(w.system), User(w.user)]) && AskedIn([System(w.system), User(w.user)]) == []
  {
    hide ToolsIn, SpokenIn, AskedIn;
    var a, b := System(w.system), User(w.user);
    ReadOne(a);
    ReadOne(b);
    ToolsAppend([a], [b]);
    SpokenAppend([a], [b]);
    AskedAppend([a], [b]);
    assert [a] + [b] == [a, b];
  }

  /** The main turns: the tool calls asked for in the history are the actions of the run. */
  lemma {:induction false} TurnsTold(w: World, cs: seq<Completion>)
    requires Follows(w, cs)
    ensures Transcript(w, MainCalls(w, cs)) && Told(w, MainCalls(w, cs), AfterTurns(w, cs))
    ensures AskedIn(AfterTurns(w, cs)) == Actions(cs)
  {
    if cs == [] {
      OpeningTold(w);
    } else {
      hide Told, Transcript, AskedIn, SpokenIn, Landing, AnswersAll;
      var earlier, c := cs[..|cs| - 1], cs[|cs| - 1];
      TurnsTold(w, earlier);
      HistoryTold(w, earlier);
      BlockTells(w, Actions(earlier), c.toolCalls);
      OneMoreTold(w, MainCalls(w, earlier), MainCall(w, earlier));
      ToldTurn(w, MainCalls(w, earlier), HistoryAt(w, earlier), MainCall(w, earlier), c,
               ToolBlock(w, Actions(earlier), c.toolCalls));
    }
  }

  lemma {:induction false} HistoryTold(w: World, cs: seq<Completion>)
    requires Told(w, MainCalls(w, cs), AfterTurns(w, cs))
    ensures Told(w, MainCalls(w, cs), HistoryAt(w, cs)) && AskedIn(HistoryAt(w, cs)) == AskedIn(AfterTurns(w, cs))
  {
    hide Told, AskedIn, AfterTurns, MainCalls;
    if Landing(w, |cs|) != [] {
      ToldNote(w, MainCalls(w, cs), AfterTurns(w, cs), BudgetNotice(Budget(w) - |cs|));
    } else {
      assert AfterTurns(w, cs) + [] == AfterTurns(w, cs);
    }
  }

  lemma {:induction false} NextCallTold(w: World, cs: seq<Completion>)
    requires Follows(w, cs)
    ensures Transcript(w, MainCalls(w, cs) + [MainCall(w, cs)])
  {
    hide Told, Transcript, AskedIn, HistoryAt, AfterTurns, MainCalls;
    TurnsTold(w, cs);
    HistoryTold(w, cs);
    OneMoreTold(w, MainCalls(w, cs), MainCall(w, cs));
  }

  lemma {:induction false} SalvageCallsTold(w: World, calls: seq<Call>, ms: seq<Message>)
    requires Transcript(w, calls) && Told(w, calls, ms)
    ensures Transcript(w, calls + CeilingCalls(w, |calls|, |AskedIn(ms)|, ms))
  {
    hide Told, Transcript, AskedIn, SpokenIn, SalvageBlock, AnswersAll;
    var salvage := CeilingCalls(w, |calls|, |AskedIn(ms)|, ms);
    var first := salvage[0];
    ToldNote(w, calls, ms, SalvagePrompt);
    OneMoreTold(w, calls, first);
    if |salvage| == 2 {
      var c := first.reply.completion;
      SalvageBlockTells(w, |AskedIn(ms)|, c.toolCalls);
      ToldTurn(w, calls, first.messages, first, c, SalvageBlock(w, |AskedIn(ms)|, c.toolCalls));
      OneMoreTold(w, calls + [first], salvage[1]);
      assert calls + [first] + [salvage[1]] == calls + salvage;
    } else {
      assert [first] == salvage;
    }
  }

  /** The calls after the main turns tell it too, the salvage executions included. */
  lemma {:induction false} EveryCallTold(w: World, cs: seq<Completion>)
    requires Follows(w, cs) && cs != []
    ensures Transcript(w, MainCalls(w, cs) + EndingCalls(w, cs))
  {
    hide Told, Transcript, AskedIn, AfterTurns, MainCalls, CeilingCalls, Actions, Follows;
    var calls, ms := MainCalls(w, cs), AfterTurns(w, cs);
    TurnsTold(w, cs);
    match EndingOf(cs) {
      case Landed =>
        assert calls + [] == calls;
      case Ceiling =>
        SalvageCallsTold(w, calls, ms);
      case EmptyFinal =>
        ToldNote(w, calls, ms, EmptySalvagePrompt);
        OneMoreTold(w, calls, EndingCalls(w, cs)[0]);
      case OutOfTurns =>
        ToldNote(w, calls, ms, FinalPrompt);
        OneMoreTold(w, calls, EndingCalls(w, cs)[0]);
    }
  }

  // -------------------------------------------------------------------------
  // Prompts, tools and streaming
  // -------------------------------------------------------------------------

  /** The last message of a call is this prompt of the harness, and tools and streaming are as said. */
  predicate Prompts(call: Call, prompt: Notice, tools: bool, stream: bool) {
    call.messages != [] && call.messages[|call.messages| - 1] == Note(prompt) && call.tools == tools && call.stream == stream
  }

  /** The main calls offer the tools, stream, and bring the completions of the run. */
  lemma {:induction false} MainCallsOffer(w: World, cs: seq<Completion>, i: nat)
    requires Follows(w, cs) && i < |cs|
    ensures MainCalls(w, cs)[i].tools && MainCalls(w, cs)[i].stream && MainCalls(w, cs)[i].reply == Replied(cs[i])
  {
    hide HistoryAt;
    if i < |cs| - 1 {
      MainCallsOffer(w, cs[..|cs| - 1], i);
    }
  }

  /** What follows the main turns: the last answer, without tool calls, is taken as it is; or it
      stopped at the reasoning ceiling, and a salvage call is made, with a second one when it used
      tools; or it is blank after tool use and is asked for again; or the turns ran out and the
      closing call is made. Only the first salvage call offers tools, and the two do not stream. */
  lemma {:induction false} EndingCallsAre(w: World, cs: seq<Completion>)
    requires cs != []
    ensures
      var last, calls := cs[|cs| - 1], EndingCalls(w, cs);
      if last.toolCalls != [] then |calls| == 1 && Prompts(calls[0], FinalPrompt, false, true)
      else if last.finishReason == Some("length") then
        && Prompts(calls[0], SalvagePrompt, true, false)
        && (|calls| == 2 <==> calls[0].reply.Replied? && calls[0].reply.completion.toolCalls != [])
        && (|calls| == 2 ==> !calls[1].tools && !calls[1].stream)
      else if Trim(last.content) == "" && |cs| > 1 then |calls| == 1 && Prompts(calls[0], EmptySalvagePrompt, false, true)
      else calls == []
  {
    hide AfterTurns, Trim, SalvageBlock, Actions;
  }

  /** The reply that settles the text of a salvaged session: the second one, if it came. */
  function Judged(calls: seq<Call>): Reply
    requires calls != []
  {
    if |calls| == 2 && calls[1].reply.Replied? then calls[1].reply else calls[0].reply
  }

  /** The text of the session, read off the answers. */
  lemma {:induction false} TextIs(w: World, cs: seq<Completion>)
    requires Concluded(w, cs)
    ensures EndingCalls(w, cs) == [] ==> TextOf(w, cs) == Content(cs[|cs| - 1].content)
    ensures
      var last, calls := cs[|cs| - 1], EndingCalls(w, cs);
      calls != [] ==>
        match Judged(calls)
        case ChatFailed(e) => last.finishReason == Some("length") && TextOf(w, cs) == SalvageError(e)
        case Replied(c) =>
          if last.toolCalls != [] then TextOf(w, cs) == Content(c.content)
          else if last.finishReason != Some("length") then
            TextOf(w, cs) == if Trim(c.content) == "" then DegenerateFinal else Content(c.content)
          else
            TextOf(w, cs) ==
              if Trim(c.content) == "" then SalvageSilent
              else SalvageSummary(w.writeReport(Trim(c.content)), Trim(c.content))
  {
    hide AfterTurns, Trim, CeilingCalls, Actions, Follows, NoLoop;
  }

  // -------------------------------------------------------------------------
  // The ledger
  // -------------------------------------------------------------------------

  /** `e` reports the tool call `tc`, the `n`-th to be executed, made in that turn. */
  predicate Reports(w: World, n: nat, turn: nat, tc: ToolCall, e: Event) {
    e == ToolResult(turn, tc.id, tc.name, "Error:" <= Outcome(w, n, tc))
  }

  predicate ReportsAll(w: World, done: nat, turn: nat, tcs: seq<ToolCall>, events: seq<Event>) {
    |events| == |tcs| && forall k: nat :: k < |tcs| ==> Reports(w, done + k, turn, tcs[k], events[k])
  }

  lemma {:induction false} ResultEventsReport(w: World, done: nat, turn: nat, tcs: seq<ToolCall>)
    ensures ReportsAll(w, done, turn, tcs, ResultEvents(w, done, turn, tcs))
  {
    if tcs != [] {
      ResultEventsReport(w, done, turn, tcs[..|tcs| - 1]);
    }
  }

  /** Turn `t` of the run, counted from zero, stands in the ledger: its completion, then its tool
      results. */
  predicate TurnLogged(w: World, cs: seq<Completion>, ledger: seq<Event>, t: nat)
    requires t < |cs|
  {
    var done, c := |Actions(cs[..t])|, cs[t];
    && t + done + 1 + |c.toolCalls| <= |ledger|
    && ledger[t + done] == Dispatch(t + 1, c.finishReason, c.content, c.toolCalls)
    && ReportsAll(w, done, t + 1, c.toolCalls, ledger[t + done + 1..t + done + 1 + |c.toolCalls|])
  }

  /** The ledger of the main turns: each turn in order, and nothing else. */
  lemma {:induction false} LedgerTells(w: World, cs: seq<Completion>)
    ensures |LedgerAt(w, cs)| == |cs| + |Actions(cs)|
    ensures forall t: nat :: t < |cs| ==> TurnLogged(w, cs, LedgerAt(w, cs), t)
  {
    hide Actions, ResultEvents, LedgerAt, TurnLogged;
    if cs == [] {
      NothingLogged(w);
    } else {
      var n := |cs| - 1;
      LedgerTells(w, cs[..n]);
      ActionsStep(cs);
      LedgerStep(w, cs);
      forall t: nat | t < |cs|
        ensures TurnLogged(w, cs, LedgerAt(w, cs), t)
      {
        if t < n {
          LoggedLonger(w, cs, t);
        } else {
          LoggedLast(w, cs);
        }
      }
    }
  }

  lemma {:induction false} NothingLogged(w: World)
    ensures LedgerAt(w, []) == [] && Actions([]) == []
  {
  }

  lemma {:induction false} ActionsStep(cs: seq<Completion>)
    requires cs != []
    ensures Actions(cs) == Actions(cs[..|cs| - 1]) + cs[|cs| - 1].toolCalls
  {
  }

  lemma {:induction false} LedgerStep(w: World, cs: seq<Completion>)
    requires cs != []
    ensures
      var earlier, c := cs[..|cs| - 1], cs[|cs| - 1];
      LedgerAt(w, cs) == LedgerAt(w, earlier) + [Dispatch(|cs|, c.finishReason, c.content, c.toolCalls)]
                         + ResultEvents(w, |Actions(earlier)|, |cs|, c.toolCalls)
  {
  }

  lemma {:induction false} LoggedLonger(w: World, cs: seq<Completion>, t: nat)
    requires t + 1 < |cs| && TurnLogged(w, cs[..|cs| - 1], LedgerAt(w, cs[..|cs| - 1]), t)
    ensures TurnLogged(w, cs, LedgerAt(w, cs), t)
  {
    hide Actions, ResultEvents, ReportsAll, LedgerAt;
    LedgerStep(w, cs);
    var earlier, c := cs[..|cs| - 1], cs[t];
    assert earlier[..t] == cs[..t] && earlier[t] == c;
    var at := t + |Actions(cs[..t])|;
    assert LedgerAt(w, cs)[at + 1..at + 1 + |c.toolCalls|] == LedgerAt(w, earlier)[at + 1..at + 1 + |c.toolCalls|];
  }

  lemma {:induction false} LoggedLast(w: World, cs: seq<Completion>)
    requires cs != [] && |LedgerAt(w, cs[..|cs| - 1])| == |cs| - 1 + |Actions(cs[..|cs| - 1])|
    ensures TurnLogged(w, cs, LedgerAt(w, cs), |cs| - 1)
  {
    hide Actions, ResultEvents, ReportsAll, LedgerAt;
    LedgerStep(w, cs);
    var earlier, c := cs[..|cs| - 1], cs[|cs| - 1];
    var results := ResultEvents(w, |Actions(earlier)|, |cs|, c.toolCalls);
    ResultEventsReport(w, |Actions(earlier)|, |cs|, c.toolCalls);
    var at := |cs| - 1 + |Actions(earlier)|;
    assert LedgerAt(w, cs)[at + 1..at + 1 + |c.toolCalls|] == results;
  }

  /** The events after the main turns: the tools of the salvage, and what came of the salvage; the
      answer to the empty final; or the closing completion. */
  lemma {:induction false} EndingEventsTell(w: World, cs: seq<Completion>)
    requires Concluded(w, cs)
    ensures EndingCalls(w, cs) == [] ==> EndingEvents(w, cs) == []
    ensures
      var last, calls, events := cs[|cs| - 1], EndingCalls(w, cs), EndingEvents(w, cs);
      calls != [] ==>
        if last.toolCalls != [] then
          var c := calls[0].reply.completion;
          events == [Dispatch(|cs| + 1, c.finishReason, c.content, [])]
        else if last.finishReason != Some("length") then events == [Salvage(|cs|, calls[0].reply.completion.content)]
        else
          var tcs := if calls[0].reply.Replied? then calls[0].reply.completion.toolCalls else [];
          && |events| == |tcs| + 1
          && ReportsAll(w, |Actions(cs)|, |cs| + 1, tcs, events[..|tcs|])
          && events[|tcs|] == match Judged(calls)
                              case Replied(c) => Salvage(|cs| + 1, c.content)
                              case ChatFailed(e) => SalvageFailed(|cs| + 1, e)
  {
    hide AfterTurns, Trim, CeilingCalls, Actions, Follows, NoLoop, ResultEvents, ReportsAll;
    if EndingOf(cs) == Ceiling {
      var calls := EndingCalls(w, cs);
      var tcs := if calls[0].reply.Replied? then calls[0].reply.completion.toolCalls else [];
      ResultEventsReport(w, |Actions(cs)|, |cs| + 1, tcs);
      NoResults(w, |Actions(cs)|, |cs| + 1);
      assert EndingEvents(w, cs)[..|tcs|] == ResultEvents(w, |Actions(cs)|, |cs| + 1, tcs);
    }
  }

  lemma {:induction false} NoResults(w: World, done: nat, turn: nat)
    ensures ResultEvents(w, done, turn, []) == []
  {
  }

  /** How many of the `n` appends from `from` on succeed. */
  function Appended(w: World, from: nat, n: nat): nat {
    if n == 0 then 0 else Appended(w, from, n - 1) + if w.append(from + n - 1) then 1 else 0
  }

  /** The ending events that could be written are in the ledger, in order, and no others are. */
  lemma {:induction false} KeptExactly(w: World, from: nat, events: seq<Event>)
    ensures |Kept(w, from, events)| == Appended(w, from, |events|)
    ensures forall i: nat :: i < |events| && w.append(from + i) ==> KeptAt(w, from, events, i)
  {
    if events != [] {
      var n := |events| - 1;
      KeptExactly(w, from, events[..n]);
      forall i: nat | i < |events| && w.append(from + i)
        ensures KeptAt(w, from, events, i)
      {
        if i < n {
          assert KeptAt(w, from, events[..n], i);
        }
      }
    }
  }

  predicate KeptAt(w: World, from: nat, events: seq<Event>, i: nat)
    requires i < |events|
  {
    var at := Appended(w, from, i);
    at < |Kept(w, from, events)| && Kept(w, from, events)[at] == events[i]
  }

  /** The whole ledger: the main turns, the ending events that could be written, and the result. */
  lemma {:induction false} LedgerIs(w: World, cs: seq<Completion>)
    requires Concluded(w, cs)
    ensures
      var ledger, result := FullLedger(w, cs), ResultOf(w, cs);
      var n := |cs| + |Actions(cs)|;
      && n < |ledger| && ledger[..n] == LedgerAt(w, cs)
      && ledger[n..|ledger| - 1] == Kept(w, n, EndingEvents(w, cs))
      && ledger[|ledger| - 1] == Final(|cs|, result.status, result.text)
      && result.turns == |cs| && result.budget == if w.turnsBudget == 0 then 80 else w.turnsBudget
  {
    hide Actions, LedgerAt, Kept, EndingEvents, Concluded, StatusOf, TextOf;
    LedgerTells(w, cs);
  }

  // -------------------------------------------------------------------------
  // The loop breaker's advisories
  // -------------------------------------------------------------------------

  /** The three actions before position `k` have one hash. */
  predicate ThreeAlike(w: World, acts: seq<ToolCall>, k: nat) {
    && 3 <= k <= |acts|
    && w.hash(acts[k - 1].name, acts[k - 1].arguments) == w.hash(acts[k - 2].name, acts[k - 2].arguments)
    && w.hash(acts[k - 1].name, acts[k - 1].arguments) == w.hash(acts[k - 3].name, acts[k - 3].arguments)
  }

  lemma {:induction false} AlikeFires(w: World, acts: seq<ToolCall>, k: nat)
    requires k <= |acts|
    ensures Fires(Hashes(w, acts)[..k], LOOP_WINDOW, LOOP_THRESHOLD) <==> ThreeAlike(w, acts, k)
  {
    hide Hashes;
    if 3 <= k {
      HashAt(w, acts, k - 1);
      HashAt(w, acts, k - 2);
      HashAt(w, acts, k - 3);
    }
  }

  lemma {:induction false} FiredBefore(w: World, acts: seq<ToolCall>)
    requires acts != []
    ensures HasFired(Hashes(w, acts)[..|acts| - 1], LOOP_WINDOW, LOOP_THRESHOLD)
      <==> exists k: nat :: k < |acts| && ThreeAlike(w, acts, k)
  {
    hide Hashes, Fires;
    var hs := Hashes(w, acts);
    var before := hs[..|acts| - 1];
    if HasFired(before, LOOP_WINDOW, LOOP_THRESHOLD) {
      var k :| 0 < k <= |before| && Fires(before[..k], LOOP_WINDOW, LOOP_THRESHOLD);
      assert before[..k] == hs[..k];
      AlikeFires(w, acts, k);
    }
    if k: nat :| k < |acts| && ThreeAlike(w, acts, k) {
      AlikeFires(w, acts, k);
      assert before[..k] == hs[..k];
    }
  }

  /** The verdict on the last action: quiet unless it is the third alike in a row, and then an advisory the
      first time that happens and the hard stop from then on. */
  lemma {:induction false} VerdictExactly(w: World, acts: seq<ToolCall>)
    requires acts != []
    ensures LoopVerdict(w, acts) ==
      if !ThreeAlike(w, acts, |acts|) then LoopState.Ok
      else if exists k: nat :: k < |acts| && ThreeAlike(w, acts, k) then LoopDetected
      else Advisory
  {
    hide Hashes, Fires, ThreeAlike, HasFired;
    FiredBefore(w, acts);
    AlikeFires(w, acts, |acts|);
    assert Hashes(w, acts)[..|acts|] == Hashes(w, acts);
  }

  /** An advisory follows a tool message exactly when the action is the first that makes three alike. */
  lemma {:induction false} AdvisoryExactly(w: World, acts: seq<ToolCall>, tc: ToolCall)
    ensures
      var step, now := ToolStep(w, acts, tc), acts + [tc];
      var first := ThreeAlike(w, now, |now|) && forall k: nat :: k < |now| ==> !ThreeAlike(w, now, k);
      step == [Tool(tc.id, Outcome(w, |acts|, tc))]
              + if first then [Note(if tc.name == "read_file" then ReadAdvisory else LoopAdvisory(tc.name))] else []
  {
    hide LoopVerdict, ThreeAlike;
    VerdictExactly(w, acts + [tc]);
    StepOf(w, acts, tc);
  }
}
