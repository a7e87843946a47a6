/** `run_session` of `src/runner/mod.rs`, statement by statement, against the specification of
    `Session`. */
module Runner {
  import opened Text
  import opened LoopDetection
  import opened Wire
  import opened Session
  import opened SessionLaws
  import opened HistoryLaws

  // -------------------------------------------------------------------------
  // The run so far: history, calls made, ledger, and how often each oracle was used
  // -------------------------------------------------------------------------

  datatype Run = Run(messages: seq<Message>, calls: seq<Call>, ledger: seq<Event>, appends: nat, executed: nat)

  function Push(r: Run, m: Message): Run {
    r.(messages := r.messages + [m])
  }

  /** `engine.chat(&messages, ...)`. */
  function Ask(w: World, r: Run, tools: bool, stream: bool): Run {
    r.(calls := r.calls + [Asked(w, |r.calls|, r.messages, tools, stream)])
  }

  function LastReply(r: Run): Reply
    requires r.calls != []
  {
    r.calls[|r.calls| - 1].reply
  }

  /** `logger.append(...)`; a failed append leaves no event. */
  function Log(w: World, r: Run, e: Event): Run {
    r.(ledger := if w.append(r.appends) then r.ledger + [e] else r.ledger, appends := r.appends + 1)
  }

  // -------------------------------------------------------------------------
  // Executing tool calls
  // -------------------------------------------------------------------------

  /** The last append was refused. */
  predicate Lost(w: World, appends: nat) {
    appends > 0 && !w.append(appends - 1)
  }

  ghost predicate Watches(detector: LoopDetector, w: World, acts: seq<ToolCall>)
    reads detector
  {
    && detector.Valid() && detector.window == LOOP_WINDOW && detector.threshold == LOOP_THRESHOLD
    && detector.recorded == Hashes(w, acts) && NoLoop(w, acts)
  }

  lemma {:induction false} NoLoopStep(w: World, acts: seq<ToolCall>, tc: ToolCall)
    requires NoLoop(w, acts) && LoopVerdict(w, acts + [tc]) != LoopDetected
    ensures NoLoop(w, acts + [tc])
  {
    hide LoopVerdict;
    forall k | 0 < k <= |acts| + 1
      ensures LoopVerdict(w, (acts + [tc])[..k]) != LoopDetected
    {
      assert (acts + [tc])[..k] == if k <= |acts| then acts[..k] else acts + [tc];
    }
  }

  /** One pass of the tool loop. */
  method ExecuteTool(w: World, detector: LoopDetector, r0: Run, turn: nat, tc: ToolCall, ghost acts: seq<ToolCall>)
    returns (r: Run, error: Option<RunnerError>)
    requires Watches(detector, w, acts) && r0.executed == |acts| && NoFinal(r0.ledger)
    modifies detector
    ensures r.calls == r0.calls && NoFinal(r.ledger)
    ensures error.None? ==>
      && Watches(detector, w, acts + [tc])
      && r == r0.(messages := r0.messages + ToolStep(w, acts, tc),
                  ledger := r0.ledger + [ResultEvent(w, |acts|, turn, tc)],
                  appends := r0.appends + 1, executed := r0.executed + 1)
    ensures error.Some? ==>
      && r.ledger <= r0.ledger + [ResultEvent(w, |acts|, turn, tc)]
      && if error.value == IoError then Lost(w, r.appends)
         else error.value == LoopError(tc.name) && LoopVerdict(w, acts + [tc]) == LoopDetected
  {
    hide ToolMessage, HasFired, StateAfter, Hashes, NoLoop, AdvisoryFor;
    HashesOne(w, acts, tc);
    r := Push(r0.(executed := r0.executed + 1), ToolMessage(w, r0.executed, tc));
    var logged := w.append(r.appends);
    r := Log(w, r, ResultEvent(w, r0.executed, turn, tc));
    if !logged {
      return r, Some(IoError);
    }
    var state := detector.Record(w.hash(tc.name, tc.arguments));
    match state {
      case Ok =>
      case Advisory =>
        r := Push(r, AdvisoryFor(tc.name));
      case LoopDetected =>
        return r, Some(LoopError(tc.name));
    }
    NoLoopStep(w, acts, tc);
    error := None;
  }

  lemma {:induction false} ToolBlockStep(w: World, acts: seq<ToolCall>, tcs: seq<ToolCall>, turn: nat, i: nat)
    requires i < |tcs|
    ensures acts + tcs[..i + 1] == acts + tcs[..i] + [tcs[i]]
    ensures ToolBlock(w, acts, tcs[..i + 1]) == ToolBlock(w, acts, tcs[..i]) + ToolStep(w, acts + tcs[..i], tcs[i])
    ensures ResultEvents(w, |acts|, turn, tcs[..i + 1])
         == ResultEvents(w, |acts|, turn, tcs[..i]) + [ResultEvent(w, |acts| + i, turn, tcs[i])]
  {
    hide ToolStep, ResultEvent;
    assert tcs[..i + 1][..i] == tcs[..i];
  }

  /** The tool calls of one turn, in order, until one meets the hard stop or cannot be logged. */
  method ExecuteTools(w: World, detector: LoopDetector, r0: Run, turn: nat, tcs: seq<ToolCall>, ghost acts: seq<ToolCall>)
    returns (r: Run, error: Option<RunnerError>)
    requires Watches(detector, w, acts) && r0.executed == |acts| && NoFinal(r0.ledger)
    modifies detector
    ensures r.calls == r0.calls && NoFinal(r.ledger)
    ensures error.None? ==>
      && Watches(detector, w, acts + tcs) && NoLoop(w, acts + tcs)
      && r == r0.(messages := r0.messages + ToolBlock(w, acts, tcs),
                  ledger := r0.ledger + ResultEvents(w, |acts|, turn, tcs),
                  appends := r0.appends + |tcs|, executed := r0.executed + |tcs|)
    ensures error.Some? ==>
      && r.ledger <= r0.ledger + ResultEvents(w, |acts|, turn, tcs)
      && if error.value == IoError then Lost(w, r.appends)
         else exists k :: 0 <= k < |tcs| && error.value == LoopError(tcs[k].name)
                          && LoopVerdict(w, acts + tcs[..k + 1]) == LoopDetected
  {
    hide ResultEvents, ToolBlock, ToolStep, Lost, Watches, LoopVerdict, NoFinal, OutcomeText, ResultEvent;
    r, error := r0, None;
    assert tcs[..0] == [] && acts + [] == acts;
    assert r0.messages + [] == r0.messages && r0.ledger + [] == r0.ledger;
    EmptyBlock(w, acts, turn);
    for i := 0 to |tcs|
      invariant Watches(detector, w, acts + tcs[..i])
      invariant r == r0.(messages := r0.messages + ToolBlock(w, acts, tcs[..i]),
                         ledger := r0.ledger + ResultEvents(w, |acts|, turn, tcs[..i]),
                         appends := r0.appends + i, executed := r0.executed + i)
      invariant error.None? && NoFinal(r.ledger)
    {
      ToolBlockStep(w, acts, tcs, turn, i);
      r, error := ExecuteTool(w, detector, r, turn, tcs[i], acts + tcs[..i]);
      if error.Some? {
        assert acts + tcs[..i + 1] == acts + tcs[..i] + [tcs[i]];
        FirstResults(w, |acts|, turn, tcs, i + 1);
        return;
      }
    }
    assert tcs[..|tcs|] == tcs;
    WatchesNoLoop(detector, w, acts + tcs);
  }

  lemma {:induction false} FirstResults(w: World, done: nat, turn: nat, tcs: seq<ToolCall>, n: nat)
    requires n <= |tcs|
    ensures ResultEvents(w, done, turn, tcs[..n]) <= ResultEvents(w, done, turn, tcs)
  {
    hide ResultEvent;
    if n < |tcs| {
      FirstResults(w, done, turn, tcs[..|tcs| - 1], n);
      assert tcs[..|tcs| - 1][..n] == tcs[..n];
    } else {
      assert tcs[..n] == tcs;
    }
  }

  lemma {:induction false} WatchesNoLoop(detector: LoopDetector, w: World, acts: seq<ToolCall>)
    requires Watches(detector, w, acts)
    ensures NoLoop(w, acts)
  {
  }

  lemma {:induction false} EmptyBlock(w: World, acts: seq<ToolCall>, turn: nat)
    ensures ToolBlock(w, acts, []) == [] && ResultEvents(w, |acts|, turn, []) == []
  {
  }

  /** The tool calls of a salvage reply; nothing stops them. */
  method ExecuteSalvageTools(w: World, r0: Run, turn: nat, tcs: seq<ToolCall>) returns (r: Run)
    ensures r == r0.(messages := r0.messages + SalvageBlock(w, r0.executed, tcs),
                     ledger := r0.ledger + Kept(w, r0.appends, ResultEvents(w, r0.executed, turn, tcs)),
                     appends := r0.appends + |tcs|, executed := r0.executed + |tcs|)
  {
    hide ToolMessage, ResultEvent, Kept, ResultEvents, SalvageBlock;
    r := r0;
    NothingKept(w, r0);
    assert tcs[..0] == [];
    for i := 0 to |tcs|
      invariant r == r0.(messages := r0.messages + SalvageBlock(w, r0.executed, tcs[..i]),
                         ledger := r0.ledger + Kept(w, r0.appends, ResultEvents(w, r0.executed, turn, tcs[..i])),
                         appends := r0.appends + i, executed := r0.executed + i)
    {
      SalvageStep(w, r0, tcs, turn, i);
      var n := r.executed;
      r := Log(w, r.(executed := n + 1), ResultEvent(w, n, turn, tcs[i]));
      r := Push(r, ToolMessage(w, n, tcs[i]));
    }
    assert tcs[..|tcs|] == tcs;
  }

  lemma {:induction false} KeptStep(w: World, from: nat, events: seq<Event>, e: Event)
    ensures Kept(w, from, events + [e]) == Kept(w, from, events) + if w.append(from + |events|) then [e] else []
  {
    assert (events + [e])[..|events|] == events;
  }

  /** The salvage reply `first` and, when it asks for tools, their execution and the follow-up call; `sc` is the
      reply the salvage is judged by. */
  method SalvageReply(w: World, ghost r0: Run, asked: Run, turn: nat, first: Completion) returns (r: Run, sc: Completion)
    requires asked == Ask(w, Push(r0, Note(SalvagePrompt)), true, false)
    requires
      var calls := CeilingCalls(w, |r0.calls|, r0.executed, r0.messages);
      calls[0].reply == Replied(first)
    ensures
      var calls := CeilingCalls(w, |r0.calls|, r0.executed, r0.messages);
      && r.calls == r0.calls + calls && CeilingOutcome(calls) == Replied(sc)
      && r.ledger == r0.ledger + Kept(w, r0.appends, ResultEvents(w, r0.executed, turn, first.toolCalls))
      && r.appends == r0.appends + |first.toolCalls|
  {
    hide Kept, ResultEvents, SalvageBlock;
    NothingKept(w, r0);
    r, sc := asked, first;
    if first.toolCalls != [] {
      r := Push(r, Assistant(first.content, first.toolCalls));
      r := ExecuteSalvageTools(w, r, turn, first.toolCalls);
      r := Ask(w, r, false, false);
      if LastReply(r).Replied? {
        sc := LastReply(r).completion;
      }
    }
  }

  /** The salvage pass of a session that stopped at its reasoning ceiling; it cannot fail. */
  method SalvageCeiling(w: World, r0: Run, turn: nat) returns (r: Run, text: FinalText)
    ensures
      var calls := CeilingCalls(w, |r0.calls|, r0.executed, r0.messages);
      var events := CeilingEvents(w, r0.executed, turn, calls);
      && r.calls == r0.calls + calls
      && r.ledger == r0.ledger + Kept(w, r0.appends, events)
      && r.appends == r0.appends + |events|
      && text == CeilingText(w, CeilingOutcome(calls))
  {
    hide Kept, ResultEvents, Trim, CeilingCalls, CeilingOutcome, CeilingEvents;
    r := Ask(w, Push(r0, Note(SalvagePrompt)), true, false);
    FirstCeilingCall(w, r0);
    ghost var calls := CeilingCalls(w, |r0.calls|, r0.executed, r0.messages);
    match LastReply(r) {
      case Replied(first) =>
        var sc;
        r, sc := SalvageReply(w, r0, r, turn, first);
        RepliedEvents(w, r0.executed, turn, calls, first, sc);
        KeptStep(w, r0.appends, ResultEvents(w, r0.executed, turn, first.toolCalls), Salvage(turn, sc.content));
        r := Log(w, r, Salvage(turn, sc.content));
        var summary := Trim(sc.content);
        if summary == "" {
          text := SalvageSilent;
        } else {
          text := SalvageSummary(w.writeReport(summary), summary);
        }
      case ChatFailed(e) =>
        FailedEvents(w, r0.executed, turn, calls, e);
        KeptStep(w, r0.appends, [], SalvageFailed(turn, e));
        NothingKept(w, r0);
        r := Log(w, r, SalvageFailed(turn, e));
        text := SalvageError(e);
    }
  }

  lemma {:induction false} RepliedEvents(w: World, done: nat, turn: nat, calls: seq<Call>, first: Completion, sc: Completion)
    requires 1 <= |calls| <= 2 && calls[0].reply == Replied(first) && CeilingOutcome(calls) == Replied(sc)
    ensures CeilingEvents(w, done, turn, calls) == ResultEvents(w, done, turn, first.toolCalls) + [Salvage(turn, sc.content)]
  {
    hide ResultEvents, CeilingOutcome;
  }

  lemma {:induction false} FailedEvents(w: World, done: nat, turn: nat, calls: seq<Call>, e: string)
    requires 1 <= |calls| <= 2 && calls[0].reply == ChatFailed(e) && CeilingOutcome(calls) == ChatFailed(e)
    ensures CeilingEvents(w, done, turn, calls) == [] + [SalvageFailed(turn, e)]
  {
    hide ResultEvents, CeilingOutcome;
  }

  lemma {:induction false} FirstCeilingCall(w: World, r: Run)
    ensures
      var calls := CeilingCalls(w, |r.calls|, r.executed, r.messages);
      var first := Asked(w, |r.calls|, r.messages + [Note(SalvagePrompt)], true, false);
      && calls[0] == first
      && (first.reply.ChatFailed? ==> calls == [first] && CeilingOutcome(calls) == first.reply)
  {
    hide SalvageBlock;
  }

  lemma {:induction false} SalvageStep(w: World, r0: Run, tcs: seq<ToolCall>, turn: nat, i: nat)
    requires i < |tcs|
    ensures r0.messages + SalvageBlock(w, r0.executed, tcs[..i + 1])
         == r0.messages + SalvageBlock(w, r0.executed, tcs[..i]) + [ToolMessage(w, r0.executed + i, tcs[i])]
    ensures
      var e := ResultEvent(w, r0.executed + i, turn, tcs[i]);
      && r0.ledger + Kept(w, r0.appends, ResultEvents(w, r0.executed, turn, tcs[..i + 1]))
         == r0.ledger + Kept(w, r0.appends, ResultEvents(w, r0.executed, turn, tcs[..i]))
            + if w.append(r0.appends + i) then [e] else []
  {
    hide ToolMessage, ResultEvent, Kept;
    assert tcs[..i + 1][..i] == tcs[..i];
    KeptStep(w, r0.appends, ResultEvents(w, r0.executed, turn, tcs[..i]), ResultEvent(w, r0.executed + i, turn, tcs[i]));
  }

  lemma {:induction false} NothingKept(w: World, r: Run)
    ensures r.messages + SalvageBlock(w, r.executed, []) == r.messages
    ensures forall turn {:trigger ResultEvents(w, r.executed, turn, [])} :: ResultEvents(w, r.executed, turn, []) == []
    ensures r.ledger + Kept(w, r.appends, []) == r.ledger
  {
  }

  // -------------------------------------------------------------------------
  // The session
  // -------------------------------------------------------------------------

  /** The state of a run whose turns answered by `cs` all went through. */
  ghost function MainRun(w: World, cs: seq<Completion>): Run {
    Run(AfterTurns(w, cs), MainCalls(w, cs), LedgerAt(w, cs), |LedgerAt(w, cs)|, |Actions(cs)|)
  }

  /** Every turn so far asked for tools. */
  predicate StillWorking(cs: seq<Completion>) {
    cs == [] || cs[|cs| - 1].toolCalls != []
  }

  /** Why a run failed: the last call was not answered, a mandatory ledger append was refused, or
      the action it names met the hard stop. */
  ghost predicate Explained(w: World, r: Run, cs: seq<Completion>, error: RunnerError) {
    match error
    case EngineError(e) => r.calls != [] && LastReply(r) == ChatFailed(e)
    case IoError => Lost(w, r.appends)
    case LoopError(name) =>
      exists k :: 0 < k <= |Actions(cs)| && Actions(cs)[k - 1].name == name && LoopVerdict(w, Actions(cs)[..k]) == LoopDetected
  }

  /** The calls of a run that failed: those of its turns, then possibly one that was not answered or
      not logged, or those of the salvage. */
  ghost predicate CallsSoFar(w: World, calls: seq<Call>, cs: seq<Completion>) {
    || calls == MainCalls(w, cs)
    || (calls == MainCalls(w, cs) + [MainCall(w, cs)] && |cs| < Budget(w))
    || (cs != [] && calls == MainCalls(w, cs) + EndingCalls(w, cs))
  }

  /** The ledger of a run that failed: a beginning of that of its turns, or all but the `Final`. */
  ghost predicate LedgerSoFar(w: World, ledger: seq<Event>, cs: seq<Completion>) {
    || ledger <= LedgerAt(w, cs)
    || (Concluded(w, cs) && ledger == LedgerAt(w, cs) + Kept(w, |LedgerAt(w, cs)|, EndingEvents(w, cs)))
  }

  /** What the code after the main loop's `break`, or after the last turn, has to deliver. */
  ghost predicate Ended(w: World, calls: seq<Call>, ledger: seq<Event>, cs: seq<Completion>, text: FinalText) {
    && Concluded(w, cs)
    && calls == MainCalls(w, cs) + EndingCalls(w, cs)
    && ledger == LedgerAt(w, cs) + Kept(w, |LedgerAt(w, cs)|, EndingEvents(w, cs))
    && text == TextOf(w, cs)
  }

  /** The status the code holds before the last-turn reclassification. */
  ghost predicate StatusBefore(w: World, cs: seq<Completion>, status: Status)
    requires Concluded(w, cs)
  {
    StatusOf(w, cs) == if status == Completed && |cs| >= Budget(w) then BudgetExhausted else status
  }

  lemma {:induction false} EndedLanded(w: World, cs: seq<Completion>)
    requires Follows(w, cs) && cs != [] && NoLoop(w, Actions(cs)) && EndingOf(cs) == Landed
    ensures Ended(w, MainCalls(w, cs), LedgerAt(w, cs), cs, Content(cs[|cs| - 1].content)) && StatusBefore(w, cs, Completed)
  {
    hide NoLoop, AfterTurns, MainCalls, LedgerAt, Actions, Trim;
    FollowsWithin(w, cs);
    assert MainCalls(w, cs) + [] == MainCalls(w, cs);
    assert LedgerAt(w, cs) + [] == LedgerAt(w, cs);
  }

  lemma {:induction false} EndedCeiling(w: World, cs: seq<Completion>, r: Run)
    requires Follows(w, cs) && cs != [] && NoLoop(w, Actions(cs)) && EndingOf(cs) == Ceiling
    requires
      var m := MainRun(w, cs);
      var calls := CeilingCalls(w, |m.calls|, m.executed, m.messages);
      r.calls == m.calls + calls && r.ledger == m.ledger + Kept(w, m.appends, CeilingEvents(w, m.executed, |cs| + 1, calls))
    ensures Ended(w, r.calls, r.ledger, cs, CeilingText(w, CeilingOutcome(CeilingCalls(w, |cs|, |Actions(cs)|, AfterTurns(w, cs)))))
    ensures StatusBefore(w, cs, ReasoningExhausted)
  {
    hide Follows, NoLoop, AfterTurns, MainCalls, LedgerAt, Actions, Trim, CeilingCalls, CeilingEvents, CeilingText, CeilingOutcome, Kept;
  }

  /** The empty-final salvage, answered and logged. */
  lemma {:induction false} EndedEmpty(w: World, cs: seq<Completion>, salvage: Completion)
    requires Follows(w, cs) && cs != [] && NoLoop(w, Actions(cs)) && EndingOf(cs) == EmptyFinal
    requires PromptCall(w, cs, EmptySalvagePrompt).reply == Replied(salvage) && w.append(|LedgerAt(w, cs)|)
    ensures Ended(w, MainCalls(w, cs) + [PromptCall(w, cs, EmptySalvagePrompt)],
                  LedgerAt(w, cs) + [Salvage(|cs|, salvage.content)], cs,
                  if Trim(salvage.content) != "" then Content(salvage.content) else DegenerateFinal)
    ensures StatusBefore(w, cs, if Trim(salvage.content) != "" then Completed else Failed)
  {
    hide NoLoop, AfterTurns, MainCalls, LedgerAt, Actions, Trim, PromptCall, Follows, Kept;
    FollowsWithin(w, cs);
    KeptOne(w, |LedgerAt(w, cs)|, Salvage(|cs|, salvage.content));
  }

  lemma {:induction false} KeptOne(w: World, from: nat, e: Event)
    requires w.append(from)
    ensures Kept(w, from, [e]) == [e]
  {
    KeptStep(w, from, [], e);
    assert [] + [e] == [e];
  }

  /** A turn without tool calls: the final text, after a salvage where one is due. */
  method Land(w: World, r0: Run, turns: nat, toolActivity: bool, completion: Completion, ghost cs: seq<Completion>)
    returns (r: Run, error: Option<RunnerError>, text: FinalText, status: Status)
    requires Follows(w, cs) && cs != [] && NoLoop(w, Actions(cs)) && r0 == MainRun(w, cs)
    requires completion == cs[|cs| - 1] && completion.toolCalls == []
    requires turns == |cs| && (toolActivity <==> |cs| > 1)
    ensures error.None? ==> Ended(w, r.calls, r.ledger, cs, text) && EndingOf(cs) != OutOfTurns && StatusBefore(w, cs, status)
    ensures error.Some? ==>
      && NoFinal(r.ledger) && r.ledger == LedgerAt(w, cs)
      && CallsSoFar(w, r.calls, cs) && Explained(w, r, cs, error.value)
  {
    hide Follows, NoLoop, AfterTurns, MainCalls, LedgerAt, Actions, Trim, CeilingCalls, CeilingEvents, CeilingText,
      CeilingOutcome, NoFinal, Ended, StatusBefore, Concluded, Kept, StatusOf, TextOf, EndingEvents;
    r, error, text, status := r0, None, Content(completion.content), Completed;
    if completion.finishReason == Some(REASONING_CEILING_FINISH) {
      status := ReasoningExhausted;
      r, text := SalvageCeiling(w, r, turns + 1);
      EndedCeiling(w, cs, r);
    } else if Trim(completion.content) == "" && toolActivity {
      r := Ask(w, Push(r, Note(EmptySalvagePrompt)), false, true);
      LedgerNotFinal(w, cs);
      assert r.calls == MainCalls(w, cs) + EndingCalls(w, cs);
      match LastReply(r) {
        case ChatFailed(e) =>
          return r, Some(EngineError(e)), text, status;
        case Replied(salvage) =>
          var logged := w.append(r.appends);
          r := Log(w, r, Salvage(turns, salvage.content));
          if !logged {
            return r, Some(IoError), text, status;
          }
          if Trim(salvage.content) != "" {
            text := Content(salvage.content);
          } else {
            status := Failed;
            text := DegenerateFinal;
          }
          EndedEmpty(w, cs, salvage);
      }
    } else {
      EndedLanded(w, cs);
    }
  }

  /** Out of turns: the closing call, answered and logged. */
  lemma {:induction false} EndedOutOfTurns(w: World, cs: seq<Completion>, c: Completion)
    requires Follows(w, cs) && cs != [] && NoLoop(w, Actions(cs)) && EndingOf(cs) == OutOfTurns && |cs| == Budget(w)
    requires PromptCall(w, cs, FinalPrompt).reply == Replied(c) && w.append(|LedgerAt(w, cs)|)
    ensures Ended(w, MainCalls(w, cs) + [PromptCall(w, cs, FinalPrompt)],
                  LedgerAt(w, cs) + [Dispatch(|cs| + 1, c.finishReason, c.content, [])], cs, Content(c.content))
    ensures StatusOf(w, cs) == BudgetExhausted
  {
    hide NoLoop, AfterTurns, MainCalls, LedgerAt, Actions, Trim, PromptCall, Follows, Kept;
    KeptOne(w, |LedgerAt(w, cs)|, Dispatch(|cs| + 1, c.finishReason, c.content, []));
  }

  /** The last turn brings one more completion into the account. */
  lemma {:induction false} TurnAdded(w: World, cs: seq<Completion>, c: Completion)
    requires Follows(w, cs) && StillWorking(cs) && |cs| < Budget(w) && MainCall(w, cs).reply == Replied(c)
    ensures Follows(w, cs + [c]) && Actions(cs + [c]) == Actions(cs) + c.toolCalls
    ensures
      var m, now := MainRun(w, cs), MainRun(w, cs + [c]);
      && now.messages == HistoryAt(w, cs) + [Assistant(c.content, c.toolCalls)] + ToolBlock(w, Actions(cs), c.toolCalls)
      && now.calls == m.calls + [MainCall(w, cs)]
      && now.ledger == m.ledger + [Dispatch(|cs| + 1, c.finishReason, c.content, c.toolCalls)]
                       + ResultEvents(w, |Actions(cs)|, |cs| + 1, c.toolCalls)
      && now.appends == m.appends + 1 + |c.toolCalls|
      && now.executed == m.executed + |c.toolCalls|
  {
    hide HistoryAt, MainCall, ToolBlock, ResultEvents;
    assert (cs + [c])[..|cs|] == cs;
  }

  lemma {:induction false} HardStop(w: World, r: Run, cs: seq<Completion>, before: seq<ToolCall>, tcs: seq<ToolCall>, k: nat)
    requires Actions(cs) == before + tcs && k < |tcs| && LoopVerdict(w, before + tcs[..k + 1]) == LoopDetected
    ensures Explained(w, r, cs, LoopError(tcs[k].name))
  {
    hide LoopVerdict, Actions;
    var n := |before| + k + 1;
    assert Actions(cs)[n - 1] == tcs[k] && Actions(cs)[..n] == before + tcs[..k + 1];
  }

  lemma {:induction false} Begins(w: World)
    ensures Follows(w, []) && StillWorking([]) && NoLoop(w, []) && Hashes(w, []) == [] && Actions([]) == []
    ensures MainRun(w, []) == Run([System(w.system), User(w.user)], [], [], 0, 0)
  {
  }

  /** The run once the completion of the next turn is recorded. */
  ghost function Recorded(w: World, cs: seq<Completion>, c: Completion): Run {
    Run(HistoryAt(w, cs) + [Assistant(c.content, c.toolCalls)], MainCalls(w, cs) + [MainCall(w, cs)],
        LedgerAt(w, cs) + [Dispatch(|cs| + 1, c.finishReason, c.content, c.toolCalls)],
        |LedgerAt(w, cs)| + 1, |Actions(cs)|)
  }

  /** The head of a turn: the landing notice when due, the call, its dispatch event, the assistant
      message. */
  method TakeTurn(w: World, r0: Run, turns: nat, landingInjected: bool, ghost cs: seq<Completion>)
    returns (r: Run, injected: bool, error: Option<RunnerError>, completion: Completion)
    requires r0 == MainRun(w, cs) && turns == |cs| < Budget(w) && (landingInjected <==> turns > LandingTurn(w))
    ensures injected <==> turns + 1 > LandingTurn(w)
    ensures error.None? ==> MainCall(w, cs).reply == Replied(completion) && r == Recorded(w, cs, completion)
    ensures error.Some? ==>
      && NoFinal(r.ledger) && r.ledger == LedgerAt(w, cs)
      && r.calls == MainCalls(w, cs) + [MainCall(w, cs)] && Explained(w, r, cs, error.value)
  {
    hide AfterTurns, MainCalls, LedgerAt, Actions, NoFinal;
    r, injected, completion := r0, landingInjected, Completion("", [], None, None);
    var remaining := Budget(w) - turns;
    if remaining <= LANDING_WINDOW && !injected {
      r := Push(r, Note(BudgetNotice(remaining)));
      injected := true;
    }
    assert r.messages == HistoryAt(w, cs);
    LedgerNotFinal(w, cs);
    r := Ask(w, r, true, true);
    match LastReply(r) {
      case ChatFailed(e) =>
        return r, injected, Some(EngineError(e)), completion;
      case Replied(c) =>
        completion := c;
        var logged := w.append(r.appends);
        r := Log(w, r, Dispatch(turns + 1, c.finishReason, c.content, c.toolCalls));
        if !logged {
          return r, injected, Some(IoError), completion;
        }
        r := Push(r, Assistant(c.content, c.toolCalls));
    }
    error := None;
  }

  /** The closing call of a session that is out of turns. */
  method Synthesize(w: World, r0: Run, turns: nat, ghost cs: seq<Completion>)
    returns (r: Run, error: Option<RunnerError>, text: FinalText)
    requires Follows(w, cs) && cs != [] && NoLoop(w, Actions(cs)) && EndingOf(cs) == OutOfTurns
    requires r0 == MainRun(w, cs) && turns == |cs| == Budget(w)
    ensures error.None? ==> Ended(w, r.calls, r.ledger, cs, text) && StatusOf(w, cs) == BudgetExhausted
    ensures error.Some? ==>
      && NoFinal(r.ledger) && r.ledger == LedgerAt(w, cs)
      && CallsSoFar(w, r.calls, cs) && Explained(w, r, cs, error.value)
  {
    hide Follows, NoLoop, AfterTurns, MainCalls, LedgerAt, Actions, NoFinal, Ended, Concluded, StatusOf;
    r, text := Ask(w, Push(r0, Note(FinalPrompt)), false, true), Content("");
    LedgerNotFinal(w, cs);
    assert r.calls == MainCalls(w, cs) + EndingCalls(w, cs);
    match LastReply(r) {
      case ChatFailed(e) =>
        return r, Some(EngineError(e)), text;
      case Replied(completion) =>
        var logged := w.append(r.appends);
        r := Log(w, r, Dispatch(turns + 1, completion.finishReason, completion.content, []));
        if !logged {
          return r, Some(IoError), text;
        }
        text := Content(completion.content);
        EndedOutOfTurns(w, cs, completion);
    }
    error := None;
  }

  /** `run_session`. */
  method RunSession(w: World) returns (result: Result<SessionResult>, r: Run, ghost cs: seq<Completion>)
    ensures Follows(w, cs)
    ensures result.Done? ==>
      && Concluded(w, cs) && result.value == ResultOf(w, cs)
      && r.calls == MainCalls(w, cs) + EndingCalls(w, cs) && r.ledger == FullLedger(w, cs)
    ensures result.Err? ==>
      && NoFinal(r.ledger) && LedgerSoFar(w, r.ledger, cs) && CallsSoFar(w, r.calls, cs) && Explained(w, r, cs, result.error)
    ensures |cs| <= Budget(w) && |r.calls| <= Budget(w) + 2 && Growing(r.calls) && AllPaired(r.calls)
    ensures Transcript(w, r.calls)
  {
    hide Follows, NoLoop, AfterTurns, MainCalls, LedgerAt, Actions, Trim, CeilingCalls, Hashes, HasFired, LastOf,
      NoFinal, Ended, Concluded, Kept, StatusOf, TextOf, EndingEvents, ToolBlock, ResultEvents, Recorded, Growing, AllPaired,
      Explained, CallsSoFar, LedgerSoFar, FullLedger, ResultOf, EndingCalls, MainCall, Transcript;
    r := Run([System(w.system), User(w.user)], [], [], 0, 0);
    var detector := new LoopDetector(LOOP_WINDOW, LOOP_THRESHOLD);
    var turns: nat := 0;
    var text, status := Content(""), Completed;
    var finalProduced, toolActivity, landingInjected := false, false, false;
    var error: Option<RunnerError>;
    cs := [];
    Begins(w);
    while turns < Budget(w)
      invariant turns == |cs| <= Budget(w) && !finalProduced
      invariant Follows(w, cs) && StillWorking(cs) && NoLoop(w, Actions(cs)) && r == MainRun(w, cs)
      invariant Watches(detector, w, Actions(cs))
      invariant toolActivity <==> turns > 0
      invariant landingInjected <==> turns > LandingTurn(w)
    {
      var completion;
      r, landingInjected, error, completion := TakeTurn(w, r, turns, landingInjected, cs);
      if error.Some? {
        CallsBounded(w, r.calls, cs);
        AllLogged(w, cs);
        return Err(error.value), r, cs;
      }
      turns := turns + 1;
      TurnAdded(w, cs, completion);
      ghost var earlier := cs;
      cs := cs + [completion];
      if completion.toolCalls == [] {
        TurnWithoutTools(w, earlier, completion, r);
        r, error, text, status := Land(w, r, turns, toolActivity, completion, cs);
        if error.Some? {
          CallsBounded(w, r.calls, cs);
          AllLogged(w, cs);
          return Err(error.value), r, cs;
        }
        finalProduced := true;
        break;
      }
      TurnWithTools(w, earlier, completion, r);
      r, error := ExecuteTools(w, detector, r, turns, completion.toolCalls, Actions(earlier));
      if error.Some? {
        ToolsFailed(w, r, earlier, completion, error.value);
        return Err(error.value), r, cs;
      }
      toolActivity := true;
    }
    if !finalProduced {
      r, error, text := Synthesize(w, r, turns, cs);
      if error.Some? {
        CallsBounded(w, r.calls, cs);
        AllLogged(w, cs);
        return Err(error.value), r, cs;
      }
      status := BudgetExhausted;
    } else if status == Completed && turns >= Budget(w) {
      status := BudgetExhausted;
    }
    WriteFinal(w, cs, r, text, status);
    CallsBounded(w, r.calls, cs);
    var logged := w.append(r.appends);
    r := Log(w, r, Final(turns, status, text));
    if !logged {
      LostNow(w, r, cs, text);
      return Err(IoError), r, cs;
    }
    return Done(SessionResult(text, turns, Budget(w), status)), r, cs;
  }

  lemma {:induction false} LostNow(w: World, r: Run, cs: seq<Completion>, text: FinalText)
    requires r.appends > 0 && !w.append(r.appends - 1) && Ended(w, r.calls, r.ledger, cs, text)
    ensures Explained(w, r, cs, IoError) && LedgerSoFar(w, r.ledger, cs)
  {
  }

  /** The calls of any run, failed or not: bounded, growing, and paired. */
  lemma {:induction false} CallsBounded(w: World, calls: seq<Call>, cs: seq<Completion>)
    requires Follows(w, cs) && (CallsSoFar(w, calls, cs) || (calls == MainCalls(w, cs) + [MainCall(w, cs)] && |cs| < Budget(w)))
    ensures CallsSoFar(w, calls, cs)
    ensures |cs| <= Budget(w) && |calls| <= Budget(w) + 2 && Growing(calls) && AllPaired(calls) && Transcript(w, calls)
  {
    hide AllPaired, Growing, AllBelow, MainCall, EndingCalls, MainCalls, Transcript, Told, AskedIn;
    FollowsWithin(w, cs);
    MainCallsWellFormed(w, cs);
    NextCallWellFormed(w, cs);
    TurnsTold(w, cs);
    NextCallTold(w, cs);
    if cs != [] {
      EveryCallWellFormed(w, cs);
      EveryCallTold(w, cs);
    }
  }

  lemma {:induction false} AllLogged(w: World, cs: seq<Completion>)
    ensures LedgerSoFar(w, LedgerAt(w, cs), cs)
  {
  }

  lemma {:induction false} TurnWithoutTools(w: World, cs: seq<Completion>, c: Completion, r: Run)
    requires Follows(w, cs) && StillWorking(cs) && |cs| < Budget(w) && MainCall(w, cs).reply == Replied(c)
    requires c.toolCalls == [] && NoLoop(w, Actions(cs)) && r == Recorded(w, cs, c)
    ensures r == MainRun(w, cs + [c]) && NoLoop(w, Actions(cs + [c]))
  {
    hide HistoryAt, AfterTurns, MainCall, MainCalls, LedgerAt, Actions, NoLoop, Follows;
    TurnAdded(w, cs, c);
    EmptyBlock(w, Actions(cs), |cs| + 1);
    assert r.messages + [] == r.messages && r.ledger + [] == r.ledger && Actions(cs) + [] == Actions(cs);
  }

  /** Before and after the tool calls of a turn. */
  lemma {:induction false} TurnWithTools(w: World, cs: seq<Completion>, c: Completion, r: Run)
    requires Follows(w, cs) && StillWorking(cs) && |cs| < Budget(w) && MainCall(w, cs).reply == Replied(c)
    requires r == Recorded(w, cs, c)
    ensures NoFinal(r.ledger)
    ensures
      r.(messages := r.messages + ToolBlock(w, Actions(cs), c.toolCalls),
         ledger := r.ledger + ResultEvents(w, |Actions(cs)|, |cs| + 1, c.toolCalls),
         appends := r.appends + |c.toolCalls|, executed := r.executed + |c.toolCalls|) == MainRun(w, cs + [c])
    ensures r.calls == MainCalls(w, cs + [c])
  {
    hide HistoryAt, AfterTurns, MainCall, MainCalls, LedgerAt, Actions, Follows, ToolBlock, ResultEvents;
    TurnAdded(w, cs, c);
    LedgerNotFinal(w, cs);
  }

  lemma {:induction false} ToolsFailed(w: World, r: Run, cs: seq<Completion>, c: Completion, error: RunnerError)
    requires Follows(w, cs + [c]) && Actions(cs + [c]) == Actions(cs) + c.toolCalls && r.calls == MainCalls(w, cs + [c])
    requires r.ledger <= LedgerAt(w, cs + [c])
    requires
      if error == IoError then Lost(w, r.appends)
      else exists k :: 0 <= k < |c.toolCalls| && error == LoopError(c.toolCalls[k].name)
                       && LoopVerdict(w, Actions(cs) + c.toolCalls[..k + 1]) == LoopDetected
    ensures Explained(w, r, cs + [c], error) && LedgerSoFar(w, r.ledger, cs + [c])
    ensures CallsSoFar(w, r.calls, cs + [c]) && |cs| < Budget(w) && |r.calls| <= Budget(w) + 2 && Growing(r.calls) && AllPaired(r.calls)
    ensures Transcript(w, r.calls)
  {
    hide Transcript, LedgerAt, Follows, Actions, LoopVerdict, AllPaired, Growing, Lost, MainCalls, EndingCalls;
    CallsBounded(w, r.calls, cs + [c]);
    if error != IoError {
      var k :| 0 <= k < |c.toolCalls| && error == LoopError(c.toolCalls[k].name)
               && LoopVerdict(w, Actions(cs) + c.toolCalls[..k + 1]) == LoopDetected;
      HardStop(w, r, cs + [c], Actions(cs), c.toolCalls, k);
    }
  }

  /** The final event completes the ledger. */
  lemma {:induction false} WriteFinal(w: World, cs: seq<Completion>, r: Run, text: FinalText, status: Status)
    requires Ended(w, r.calls, r.ledger, cs, text) && StatusOf(w, cs) == status
    ensures NoFinal(r.ledger) && CallsSoFar(w, r.calls, cs) && text == TextOf(w, cs)
    ensures Concluded(w, cs) && r.ledger + [Final(|cs|, status, text)] == FullLedger(w, cs)
    ensures ResultOf(w, cs) == SessionResult(text, |cs|, Budget(w), status)
    ensures r.calls == MainCalls(w, cs) + EndingCalls(w, cs)
  {
    hide Follows, NoLoop, PromptCall, TextOf, StatusOf, EndingEvents, LedgerAt, Kept, MainCalls, EndingCalls;
    LedgerNotFinal(w, cs);
    EndingNotFinal(w, cs);
    KeptNotFinal(w, |LedgerAt(w, cs)|, EndingEvents(w, cs));
  }
}
