/** What holds of every session run: the history only grows, every tool call is answered, the budget
    notice comes once, the calls are bounded, and the loop breaker keeps its promise. */
module SessionLaws {
  import opened Text
  import opened LoopDetection
  import opened Wire
  import opened Session

  // -------------------------------------------------------------------------
  // Every tool call is answered before the assistant speaks again
  // -------------------------------------------------------------------------

  function Ids(tcs: seq<ToolCall>): seq<string> {
    if tcs == [] then [] else Ids(tcs[..|tcs| - 1]) + [tcs[|tcs| - 1].id]
  }

  /** The ids answered by the tool messages of a stretch of history. */
  function Answers(ms: seq<Message>): seq<string> {
    if ms == [] then []
    else Answers(ms[..|ms| - 1]) + match ms[|ms| - 1] case Tool(id, _) => [id] case _ => []
  }

  predicate NoAssistant(ms: seq<Message>) {
    forall k :: 0 <= k < |ms| ==> !ms[k].Assistant?
  }

  /** Position `i` holds an assistant message, and `j` is where the next one stands, or the end. */
  predicate SpeaksUntil(ms: seq<Message>, i: nat, j: nat) {
    i < j <= |ms| && ms[i].Assistant? && NoAssistant(ms[i + 1..j]) && (j < |ms| ==> ms[j].Assistant?)
  }

  /** Between an assistant message and the next one stand exactly one tool message for each of its
      tool calls, in order; before the first assistant message stands none. */
  ghost predicate Paired(ms: seq<Message>) {
    && (forall i: nat, j: nat :: SpeaksUntil(ms, i, j) ==> Answers(ms[i + 1..j]) == Ids(ms[i].toolCalls))
    && (forall j: nat :: j <= |ms| && NoAssistant(ms[..j]) ==> Answers(ms[..j]) == [])
  }

  lemma {:induction false} AnswersAppend(a: seq<Message>, b: seq<Message>)
    ensures Answers(a + b) == Answers(a) + Answers(b)
  {
    if b == [] {
      assert a + b == a;
    } else {
      assert (a + b)[..|a + b| - 1] == a + b[..|b| - 1];
      AnswersAppend(a, b[..|b| - 1]);
    }
  }

  lemma {:induction false} Silence(ms: seq<Message>, from: nat, to: nat)
    requires from <= to <= |ms|
    ensures NoAssistant(ms[from..to]) <==> forall k :: from <= k < to ==> !ms[k].Assistant?
  {
    assert forall k :: 0 <= k < to - from ==> ms[from..to][k] == ms[from + k];
    assert forall k :: from <= k < to ==> ms[k] == ms[from..to][k - from];
  }

  lemma {:induction false} AnswersNote(ms: seq<Message>, m: Message)
    requires !m.Tool?
    ensures Answers(ms + [m]) == Answers(ms)
  {
    assert (ms + [m])[..|ms|] == ms;
    assert Answers(ms) + [] == Answers(ms);
  }

  lemma {:induction false} NoteTurn(ms: seq<Message>, m: Message, i: nat, j: nat)
    requires Paired(ms) && !m.Assistant? && !m.Tool? && SpeaksUntil(ms + [m], i, j)
    ensures Answers((ms + [m])[i + 1..j]) == Ids((ms + [m])[i].toolCalls)
  {
    hide Ids, Answers;
    var longer := ms + [m];
    Silence(longer, i + 1, j);
    if j <= |ms| {
      assert longer[i + 1..j] == ms[i + 1..j];
      assert SpeaksUntil(ms, i, j);
    } else {
      assert i < |ms| && forall k :: i <= k < |ms| ==> ms[k] == longer[k];
      Silence(ms, i + 1, |ms|);
      assert SpeaksUntil(ms, i, |ms|);
      assert longer[i + 1..j] == ms[i + 1..|ms|] + [m];
      AnswersNote(ms[i + 1..|ms|], m);
    }
  }

  lemma {:induction false} NoteOpening(ms: seq<Message>, m: Message, j: nat)
    requires Paired(ms) && !m.Assistant? && !m.Tool? && j <= |ms| + 1 && NoAssistant((ms + [m])[..j])
    ensures Answers((ms + [m])[..j]) == []
  {
    hide Ids, Answers;
    var longer := ms + [m];
    Silence(longer, 0, j);
    if j <= |ms| {
      assert longer[..j] == ms[..j];
    } else {
      assert forall k :: 0 <= k < |ms| ==> ms[k] == longer[k];
      Silence(ms, 0, |ms|);
      assert ms[0..|ms|] == ms == ms[..|ms|] && NoAssistant(ms[..|ms|]);
      assert longer[..j] == ms + [m];
      AnswersNote(ms, m);
    }
  }

  /** A message that is neither an assistant's nor a tool's leaves the pairing alone. */
  lemma {:induction false} PairedNote(ms: seq<Message>, m: Message)
    requires Paired(ms) && !m.Assistant? && !m.Tool?
    ensures Paired(ms + [m])
  {
    hide Ids, Answers;
    forall i: nat, j: nat | SpeaksUntil(ms + [m], i, j)
      ensures Answers((ms + [m])[i + 1..j]) == Ids((ms + [m])[i].toolCalls)
    {
      NoteTurn(ms, m, i, j);
    }
    forall j: nat | j <= |ms + [m]| && NoAssistant((ms + [m])[..j])
      ensures Answers((ms + [m])[..j]) == []
    {
      NoteOpening(ms, m, j);
    }
  }

  /** An assistant message followed by its tool messages keeps the pairing. */
  lemma {:induction false} PairedTurn(ms: seq<Message>, content: string, tcs: seq<ToolCall>, block: seq<Message>)
    requires Paired(ms) && NoAssistant(block) && Answers(block) == Ids(tcs)
    ensures Paired(ms + [Assistant(content, tcs)] + block)
  {
    hide Ids, Answers;
    var longer := ms + [Assistant(content, tcs)] + block;
    forall i: nat, j: nat | SpeaksUntil(longer, i, j)
      ensures Answers(longer[i + 1..j]) == Ids(longer[i].toolCalls)
    {
      if i < |ms| {
        Silence(longer, i + 1, j);
        assert longer[|ms|].Assistant?;
        assert j <= |ms|;
        assert longer[i + 1..j] == ms[i + 1..j];
        assert SpeaksUntil(ms, i, j);
      } else {
        assert i == |ms|;
        assert j == |longer|;
        assert longer[i + 1..j] == block;
      }
    }
    forall j: nat | j <= |longer| && NoAssistant(longer[..j])
      ensures Answers(longer[..j]) == []
    {
      Silence(longer, 0, j);
      assert longer[|ms|].Assistant?;
      assert j <= |ms|;
      assert longer[..j] == ms[..j];
    }
  }

  lemma {:induction false} ToolBlockAnswers(w: World, acts: seq<ToolCall>, tcs: seq<ToolCall>)
    ensures NoAssistant(ToolBlock(w, acts, tcs)) && Answers(ToolBlock(w, acts, tcs)) == Ids(tcs)
  {
    if tcs != [] {
      hide LoopVerdict, OutcomeText;
      var n := |tcs| - 1;
      ToolBlockAnswers(w, acts, tcs[..n]);
      var step := ToolStep(w, acts + tcs[..n], tcs[n]);
      AnswersAppend(ToolBlock(w, acts, tcs[..n]), step);
      StepAnswers(w, acts + tcs[..n], tcs[n]);
    }
  }

  lemma {:induction false} StepAnswers(w: World, acts: seq<ToolCall>, tc: ToolCall)
    ensures NoAssistant(ToolStep(w, acts, tc)) && Answers(ToolStep(w, acts, tc)) == [tc.id]
  {
    hide LoopVerdict, OutcomeText;
    var step := ToolStep(w, acts, tc);
    assert step[..1] == [ToolMessage(w, |acts|, tc)] && step[..1][..0] == [];
    assert Answers(step[..1]) == [tc.id];
    if |step| == 2 {
      assert step[1] == AdvisoryFor(tc.name);
    } else {
      assert step == step[..1];
    }
  }

  lemma {:induction false} SalvageBlockAnswers(w: World, done: nat, tcs: seq<ToolCall>)
    ensures NoAssistant(SalvageBlock(w, done, tcs)) && Answers(SalvageBlock(w, done, tcs)) == Ids(tcs)
  {
    if tcs != [] {
      hide OutcomeText;
      var n := |tcs| - 1;
      SalvageBlockAnswers(w, done, tcs[..n]);
      assert SalvageBlock(w, done, tcs)[..|SalvageBlock(w, done, tcs)| - 1] == SalvageBlock(w, done, tcs[..n]);
    }
  }

  lemma {:induction false} AfterTurnsPaired(w: World, cs: seq<Completion>)
    ensures Paired(AfterTurns(w, cs))
    decreases |cs|, 0
  {
    hide Paired, ToolBlock, Actions;
    if cs == [] {
      OpeningPaired(w);
    } else {
      var earlier, c := cs[..|cs| - 1], cs[|cs| - 1];
      HistoryPaired(w, earlier);
      ToolBlockAnswers(w, Actions(earlier), c.toolCalls);
      PairedTurn(HistoryAt(w, earlier), c.content, c.toolCalls, ToolBlock(w, Actions(earlier), c.toolCalls));
    }
  }

  lemma {:induction false} OpeningPaired(w: World)
    ensures Paired([System(w.system), User(w.user)])
  {
    var ms := [System(w.system), User(w.user)];
    forall j: nat | j <= 2
      ensures Answers(ms[..j]) == []
    {
      assert ms[..j] == if j == 0 then [] else if j == 1 then [System(w.system)] else ms;
      assert [System(w.system)][..0] == [] && ms[..1] == [System(w.system)];
      assert Answers(ms[..1]) == [];
    }
  }

  lemma {:induction false} HistoryPaired(w: World, cs: seq<Completion>)
    ensures Paired(HistoryAt(w, cs))
    decreases |cs|, 1
  {
    hide Paired, AfterTurns;
    AfterTurnsPaired(w, cs);
    if Landing(w, |cs|) != [] {
      PairedNote(AfterTurns(w, cs), Note(BudgetNotice(Budget(w) - |cs|)));
    } else {
      assert AfterTurns(w, cs) + [] == AfterTurns(w, cs);
    }
  }

  // -------------------------------------------------------------------------
  // Every call sends an extension of what every earlier call sent
  // -------------------------------------------------------------------------

  ghost predicate Growing(calls: seq<Call>) {
    forall i, j :: 0 <= i < j < |calls| ==> calls[i].messages < calls[j].messages
  }

  ghost predicate AllPaired(calls: seq<Call>) {
    forall i :: 0 <= i < |calls| ==> Paired(calls[i].messages)
  }

  ghost predicate AllBelow(calls: seq<Call>, messages: seq<Message>) {
    forall i :: 0 <= i < |calls| ==> calls[i].messages < messages
  }

  lemma {:induction false} OneMoreCall(calls: seq<Call>, call: Call)
    requires Growing(calls) && AllPaired(calls) && AllBelow(calls, call.messages) && Paired(call.messages)
    ensures Growing(calls + [call]) && AllPaired(calls + [call])
  {
    hide Paired;
  }

  lemma {:induction false} BelowLonger(calls: seq<Call>, ms: seq<Message>, longer: seq<Message>)
    requires AllBelow(calls, ms) && ms <= longer
    ensures AllBelow(calls, longer)
  {
  }

  /** The main calls of a run. */
  lemma {:induction false} MainCallsWellFormed(w: World, cs: seq<Completion>)
    ensures Growing(MainCalls(w, cs)) && AllPaired(MainCalls(w, cs)) && AllBelow(MainCalls(w, cs), AfterTurns(w, cs))
  {
    if cs != [] {
      hide Paired, Growing, AllPaired, Actions, ToolBlock, Landing;
      var earlier := cs[..|cs| - 1];
      MainCallsWellFormed(w, earlier);
      HistoryPaired(w, earlier);
      BelowLonger(MainCalls(w, earlier), AfterTurns(w, earlier), HistoryAt(w, earlier));
      OneMoreCall(MainCalls(w, earlier), MainCall(w, earlier));
      BelowLonger(MainCalls(w, earlier), HistoryAt(w, earlier), AfterTurns(w, cs));
    }
  }

  /** One more main call after them. */
  lemma {:induction false} NextCallWellFormed(w: World, cs: seq<Completion>)
    ensures Growing(MainCalls(w, cs) + [MainCall(w, cs)]) && AllPaired(MainCalls(w, cs) + [MainCall(w, cs)])
  {
    var n := |cs|;
    hide Paired, Growing, AllPaired, AfterTurns, Landing, MainCalls;
    MainCallsWellFormed(w, cs);
    HistoryPaired(w, cs);
    BelowLonger(MainCalls(w, cs), AfterTurns(w, cs), HistoryAt(w, cs));
    OneMoreCall(MainCalls(w, cs), MainCall(w, cs));
  }

  lemma {:induction false} PromptPaired(calls: seq<Call>, ms: seq<Message>, prompt: Notice)
    requires AllBelow(calls, ms) && Paired(ms)
    ensures AllBelow(calls, ms + [Note(prompt)]) && Paired(ms + [Note(prompt)])
  {
    hide Paired;
    PairedNote(ms, Note(prompt));
    BelowLonger(calls, ms, ms + [Note(prompt)]);
  }

  lemma {:induction false} SalvageCallsWellFormed(w: World, calls: seq<Call>, done: nat, ms: seq<Message>)
    requires Growing(calls) && AllPaired(calls) && AllBelow(calls, ms) && Paired(ms)
    ensures Growing(calls + CeilingCalls(w, |calls|, done, ms)) && AllPaired(calls + CeilingCalls(w, |calls|, done, ms))
  {
    hide Paired, Growing, AllPaired, SalvageBlock, NoAssistant;
    var prompt := ms + [Note(SalvagePrompt)];
    var salvage := CeilingCalls(w, |calls|, done, ms);
    PromptPaired(calls, ms, SalvagePrompt);
    OneMoreCall(calls, salvage[0]);
    if |salvage| == 2 {
      var c := salvage[0].reply.completion;
      SalvageBlockAnswers(w, done, c.toolCalls);
      PairedTurn(prompt, c.content, c.toolCalls, SalvageBlock(w, done, c.toolCalls));
      BelowLonger(calls, prompt, salvage[1].messages);
      assert prompt < salvage[1].messages;
      OneMoreCall(calls + [salvage[0]], salvage[1]);
      assert calls + [salvage[0]] + [salvage[1]] == calls + salvage;
    } else {
      assert [salvage[0]] == salvage;
    }
  }

  /** All the calls of a run, with the extra ones after its main loop: at most two more than turns. */
  lemma {:induction false} EveryCallWellFormed(w: World, cs: seq<Completion>)
    requires cs != []
    ensures Growing(MainCalls(w, cs) + EndingCalls(w, cs)) && AllPaired(MainCalls(w, cs) + EndingCalls(w, cs))
    ensures |EndingCalls(w, cs)| <= 2 && (EndingOf(cs) != Ceiling ==> |EndingCalls(w, cs)| <= 1)
  {
    hide Paired, Growing, AllPaired, AfterTurns, MainCalls, CeilingCalls;
    var calls, ms := MainCalls(w, cs), AfterTurns(w, cs);
    MainCallsWellFormed(w, cs);
    AfterTurnsPaired(w, cs);
    match EndingOf(cs) {
      case Landed =>
        assert calls + [] == calls;
      case Ceiling =>
        SalvageCallsWellFormed(w, calls, |Actions(cs)|, ms);
      case EmptyFinal =>
        PromptPaired(calls, ms, EmptySalvagePrompt);
        OneMoreCall(calls, EndingCalls(w, cs)[0]);
      case OutOfTurns =>
        PromptPaired(calls, ms, FinalPrompt);
        OneMoreCall(calls, EndingCalls(w, cs)[0]);
    }
  }

  // -------------------------------------------------------------------------
  // The budget notice
  // -------------------------------------------------------------------------

  /** The numbers of remaining turns that the history has announced. */
  function Announced(ms: seq<Message>): seq<nat> {
    if ms == [] then []
    else Announced(ms[..|ms| - 1]) + match ms[|ms| - 1] case Note(BudgetNotice(n)) => [n] case _ => []
  }

  lemma {:induction false} AnnouncedAppend(a: seq<Message>, b: seq<Message>)
    ensures Announced(a + b) == Announced(a) + Announced(b)
  {
    if b == [] {
      assert a + b == a;
    } else {
      assert (a + b)[..|a + b| - 1] == a + b[..|b| - 1];
      AnnouncedAppend(a, b[..|b| - 1]);
    }
  }

  lemma {:induction false} AnnouncedOne(m: Message)
    ensures Announced([m]) == match m case Note(BudgetNotice(n)) => [n] case _ => []
  {
    assert [m][..0] == [];
  }

  lemma {:induction false} AnnouncedNone()
    ensures Announced([]) == []
  {
  }

  lemma {:induction false} BlockAnnouncesNothing(w: World, acts: seq<ToolCall>, tcs: seq<ToolCall>)
    ensures Announced(ToolBlock(w, acts, tcs)) == []
  {
    if tcs != [] {
      hide LoopVerdict, OutcomeText;
      var n := |tcs| - 1;
      var step := ToolStep(w, acts + tcs[..n], tcs[n]);
      BlockAnnouncesNothing(w, acts, tcs[..n]);
      AnnouncedAppend(ToolBlock(w, acts, tcs[..n]), step);
      assert step[..1] == [step[0]] && Announced(step[..1]) == [];
    }
  }

  lemma {:induction false} Announcements(w: World, cs: seq<Completion>)
    ensures Announced(AfterTurns(w, cs)) == if |cs| > LandingTurn(w) then [Budget(w) - LandingTurn(w)] else []
    ensures Announced(HistoryAt(w, cs)) == if |cs| >= LandingTurn(w) then [Budget(w) - LandingTurn(w)] else []
  {
    hide ToolBlock, Actions, Announced;
    AnnouncedOne(Note(BudgetNotice(Budget(w) - LandingTurn(w))));
    AnnouncedNone();
    if cs == [] {
      AnnouncedOne(System(w.system));
      AnnouncedOne(User(w.user));
      AnnouncedAppend([System(w.system)], [User(w.user)]);
      assert [System(w.system)] + [User(w.user)] == AfterTurns(w, cs);
    } else {
      var earlier, c := cs[..|cs| - 1], cs[|cs| - 1];
      Announcements(w, earlier);
      BlockAnnouncesNothing(w, Actions(earlier), c.toolCalls);
      var turn: seq<Message> := [Assistant(c.content, c.toolCalls)];
      AnnouncedOne(turn[0]);
      AnnouncedAppend(HistoryAt(w, earlier), turn);
      AnnouncedAppend(HistoryAt(w, earlier) + turn, ToolBlock(w, Actions(earlier), c.toolCalls));
    }
    AnnouncedAppend(AfterTurns(w, cs), Landing(w, |cs|));
  }

  /** The notice is in the history of a call exactly when five turns or fewer were left at it, this one
      included; it is there once, and gives the turns left when it came: five, or the whole of a
      smaller budget. */
  lemma {:induction false} LandingAnnouncedOnce(w: World, cs: seq<Completion>)
    requires |cs| < Budget(w)
    ensures Announced(HistoryAt(w, cs)) ==
      if Budget(w) - |cs| > 5 then [] else [if Budget(w) < 5 then Budget(w) else 5]
  {
    hide HistoryAt, AfterTurns, Announced;
    Announcements(w, cs);
  }

  // -------------------------------------------------------------------------
  // The loop breaker
  // -------------------------------------------------------------------------

  predicate SameAction(a: ToolCall, b: ToolCall) {
    a.name == b.name && a.arguments == b.arguments
  }

  /** The `n` actions before position `end` are one and the same. */
  ghost predicate SameRun(acts: seq<ToolCall>, end: nat, n: nat) {
    1 <= n <= end <= |acts| && forall i :: end - n <= i < end ==> SameAction(acts[i], acts[end - 1])
  }

  lemma {:induction false} HashAt(w: World, acts: seq<ToolCall>, i: nat)
    requires i < |acts|
    ensures Hashes(w, acts)[i] == w.hash(acts[i].name, acts[i].arguments)
  {
    if i < |acts| - 1 {
      HashAt(w, acts[..|acts| - 1], i);
    }
  }

  lemma {:induction false} HashesPrefix(w: World, acts: seq<ToolCall>, k: nat)
    requires k <= |acts|
    ensures Hashes(w, acts)[..k] == Hashes(w, acts[..k])
  {
    forall i | 0 <= i < k
      ensures Hashes(w, acts)[i] == Hashes(w, acts[..k])[i]
    {
      HashAt(w, acts, i);
      HashAt(w, acts[..k], i);
    }
  }

  lemma {:induction false} SameRunRepeats(w: World, acts: seq<ToolCall>, end: nat, n: nat)
    requires SameRun(acts, end, n)
    ensures Repeats(Hashes(w, acts)[..end], n)
  {
    var hs := Hashes(w, acts)[..end];
    HashAt(w, acts, end - 1);
    forall i | end - n <= i < end
      ensures hs[i] == hs[end - 1]
    {
      assert SameAction(acts[i], acts[end - 1]);
      HashAt(w, acts, i);
    }
  }

  /** A run the loop breaker let pass has no four identical actions in a row, and three in a row at
      most once. */
  lemma {:induction false} LoopBreakerHolds(w: World, acts: seq<ToolCall>)
    requires NoLoop(w, acts)
    ensures forall end: nat :: !SameRun(acts, end, 4)
    ensures forall i: nat, j: nat :: i < j ==> !(SameRun(acts, i, 3) && SameRun(acts, j, 3))
  {
    hide StateAfter, SameRun, Repeats, Hashes;
    var hs := Hashes(w, acts);
    forall k | 0 < k <= |hs|
      ensures StateAfter(hs[..k], LOOP_WINDOW, LOOP_THRESHOLD) != LoopDetected
    {
      HashesPrefix(w, acts, k);
      assert LoopVerdict(w, acts[..k]) != LoopDetected;
    }
    NeverDetectedMeans(hs, LOOP_WINDOW, LOOP_THRESHOLD);
    forall end: nat
      ensures !SameRun(acts, end, 4)
    {
      NoRunOfFour(w, acts, end);
    }
    forall i: nat, j: nat | i < j
      ensures !(SameRun(acts, i, 3) && SameRun(acts, j, 3))
    {
      NoTwoRuns(w, acts, i, j);
    }
  }

  lemma {:induction false} NoRunOfFour(w: World, acts: seq<ToolCall>, end: nat)
    requires forall i :: LOOP_THRESHOLD < i <= |acts| ==> !Repeats(Hashes(w, acts)[..i], LOOP_THRESHOLD + 1)
    ensures !SameRun(acts, end, 4)
  {
    hide Repeats;
    if SameRun(acts, end, 4) {
      SameRunRepeats(w, acts, end, 4);
    }
  }

  lemma {:induction false} NoTwoRuns(w: World, acts: seq<ToolCall>, i: nat, j: nat)
    requires i < j
    requires forall i, j :: 0 < i < j <= |acts| ==>
      !(Repeats(Hashes(w, acts)[..i], LOOP_THRESHOLD) && Repeats(Hashes(w, acts)[..j], LOOP_THRESHOLD))
    ensures !(SameRun(acts, i, 3) && SameRun(acts, j, 3))
  {
    hide Repeats;
    if SameRun(acts, i, 3) && SameRun(acts, j, 3) {
      SameRunRepeats(w, acts, i, 3);
      SameRunRepeats(w, acts, j, 3);
    }
  }

  /** No advisory falls on one of the first `n` calls of a turn. */
  ghost predicate NoAdvisory(w: World, acts: seq<ToolCall>, tcs: seq<ToolCall>, n: nat) {
    forall k :: 0 < k <= n && k <= |tcs| ==> LoopVerdict(w, acts + tcs[..k]) != Advisory
  }

  lemma {:induction false} NoAdvisoryPrefix(w: World, acts: seq<ToolCall>, tcs: seq<ToolCall>, m: nat, n: nat)
    requires n <= m <= |tcs|
    ensures NoAdvisory(w, acts, tcs[..m], n) <==> NoAdvisory(w, acts, tcs, n)
  {
    hide LoopVerdict;
    forall k | 0 < k <= n
      ensures LoopVerdict(w, acts + tcs[..m][..k]) == LoopVerdict(w, acts + tcs[..k])
    {
      assert tcs[..m][..k] == tcs[..k];
    }
  }

  lemma {:induction false} NoAdvisoryStep(w: World, acts: seq<ToolCall>, tcs: seq<ToolCall>, n: nat)
    requires n < |tcs|
    ensures NoAdvisory(w, acts, tcs, n + 1) <==>
      NoAdvisory(w, acts, tcs, n) && |ToolStep(w, acts + tcs[..n], tcs[n])| == 1
    ensures |ToolStep(w, acts + tcs[..n], tcs[n])| <= 2
  {
    hide LoopVerdict, ToolMessage, AdvisoryFor;
    assert acts + tcs[..n] + [tcs[n]] == acts + tcs[..n + 1];
  }

  lemma {:induction false} PlainBlock(w: World, acts: seq<ToolCall>, tcs: seq<ToolCall>)
    requires NoAdvisory(w, acts, tcs, |tcs|)
    ensures ToolBlock(w, acts, tcs) == SalvageBlock(w, |acts|, tcs)
  {
    if tcs != [] {
      hide LoopVerdict, OutcomeText, NoAdvisory, ToolMessage;
      var n := |tcs| - 1;
      NoAdvisoryStep(w, acts, tcs, n);
      NoAdvisoryPrefix(w, acts, tcs, n, n);
      PlainBlock(w, acts, tcs[..n]);
    }
  }

  /** The tool messages of a turn follow its assistant message directly if and only if no loop
      advisory falls on a call before the turn's last one: the advisory goes between. */
  lemma {:induction false} ContiguousExactly(w: World, acts: seq<ToolCall>, tcs: seq<ToolCall>)
    requires tcs != []
    ensures |ToolBlock(w, acts, tcs)| >= |tcs|
    ensures (forall p :: 0 <= p < |tcs| ==> ToolBlock(w, acts, tcs)[p].Tool?) <==> NoAdvisory(w, acts, tcs, |tcs| - 1)
  {
    hide LoopVerdict, OutcomeText, NoAdvisory;
    var n := |tcs| - 1;
    var before, step := ToolBlock(w, acts, tcs[..n]), ToolStep(w, acts + tcs[..n], tcs[n]);
    assert ToolBlock(w, acts, tcs) == before + step;
    NoAdvisoryPrefix(w, acts, tcs, n, n);
    NoAdvisoryEmpty(w, acts, tcs);
    if NoAdvisory(w, acts, tcs, n) {
      PlainBlock(w, acts, tcs[..n]);
      AllToolMessages(w, |acts|, tcs[..n]);
    } else {
      ContiguousExactly(w, acts, tcs[..n]);
      if NoAdvisory(w, acts, tcs[..n], n - 1) {
        AdvisoryLast(w, acts, tcs[..n]);
        assert ToolBlock(w, acts, tcs)[n] == before[n];
      } else {
        var p :| 0 <= p < n && !before[p].Tool?;
        assert ToolBlock(w, acts, tcs)[p] == before[p];
      }
    }
  }

  lemma {:induction false} NoAdvisoryEmpty(w: World, acts: seq<ToolCall>, tcs: seq<ToolCall>)
    ensures NoAdvisory(w, acts, tcs, 0)
  {
  }

  lemma {:induction false} AllToolMessages(w: World, done: nat, tcs: seq<ToolCall>)
    ensures |SalvageBlock(w, done, tcs)| == |tcs|
    ensures forall p :: 0 <= p < |tcs| ==> SalvageBlock(w, done, tcs)[p].Tool?
  {
    if tcs != [] {
      hide OutcomeText;
      AllToolMessages(w, done, tcs[..|tcs| - 1]);
    }
  }

  lemma {:induction false} AdvisoryLast(w: World, acts: seq<ToolCall>, tcs: seq<ToolCall>)
    requires tcs != [] && NoAdvisory(w, acts, tcs, |tcs| - 1) && !NoAdvisory(w, acts, tcs, |tcs|)
    ensures |ToolBlock(w, acts, tcs)| == |tcs| + 1 && !ToolBlock(w, acts, tcs)[|tcs|].Tool?
  {
    hide LoopVerdict, OutcomeText, NoAdvisory;
    var n := |tcs| - 1;
    NoAdvisoryStep(w, acts, tcs, n);
    NoAdvisoryPrefix(w, acts, tcs, n, n);
    PlainBlock(w, acts, tcs[..n]);
    AllToolMessages(w, |acts|, tcs[..n]);
  }

  lemma {:induction false} HashesOne(w: World, acts: seq<ToolCall>, tc: ToolCall)
    ensures Hashes(w, acts + [tc]) == Hashes(w, acts) + [w.hash(tc.name, tc.arguments)]
    ensures Hashes(w, []) == []
  {
    assert (acts + [tc])[..|acts|] == acts;
  }

  /** The loop breaker on three equal actions and a different one. */
  lemma {:induction false} ThreeThenOther(h: nat, g: nat)
    requires h != g
    ensures StateAfter([h], LOOP_WINDOW, LOOP_THRESHOLD) == LoopState.Ok
    ensures StateAfter([h, h], LOOP_WINDOW, LOOP_THRESHOLD) == LoopState.Ok
    ensures StateAfter([h, h, h], LOOP_WINDOW, LOOP_THRESHOLD) == Advisory
    ensures StateAfter([h, h, h, g], LOOP_WINDOW, LOOP_THRESHOLD) == LoopState.Ok
  {
    ShortHistory([h]);
    ShortHistory([h, h]);
    var three, four := [h, h, h], [h, h, h, g];
    assert three[..|three| - 1] == [h, h];
    assert Repeats(three, LOOP_THRESHOLD) && Fires(three, LOOP_WINDOW, LOOP_THRESHOLD);
    assert four[2] != four[3] && !Repeats(four, LOOP_THRESHOLD);
  }

  lemma {:induction false} ShortHistory(s: seq<nat>)
    requires 0 < |s| < LOOP_THRESHOLD
    ensures !HasFired(s, LOOP_WINDOW, LOOP_THRESHOLD) && StateAfter(s, LOOP_WINDOW, LOOP_THRESHOLD) == LoopState.Ok
  {
  }

  /** A turn that calls one tool three times alike and then another: the advisory goes in before the
      last tool message, and the run goes on. */
  lemma {:induction false} AdvisoryInside(w: World, a: ToolCall, b: ToolCall)
    requires w.hash(a.name, a.arguments) != w.hash(b.name, b.arguments)
    ensures
      var tcs := [a, a, a, b];
      && NoLoop(w, tcs)
      && ToolBlock(w, [], tcs) ==
         [ToolMessage(w, 0, a), ToolMessage(w, 1, a), ToolMessage(w, 2, a),
          Note(if a.name == "read_file" then ReadAdvisory else LoopAdvisory(a.name)), ToolMessage(w, 3, b)]
  {
    hide LoopVerdict, ToolBlock, ToolStep, ToolMessage;
    ThreeVerdicts(w, a, b);
    PrefixesOfFour(w, a, b);
    BlockOfFour(w, a, b);
    StepOf(w, [], a);
    assert [] + [a] == [a];
    StepOf(w, [a], a);
    assert [a] + [a] == [a, a];
    StepOf(w, [a, a], a);
    assert [a, a] + [a] == [a, a, a];
    StepOf(w, [a, a, a], b);
    assert [a, a, a] + [b] == [a, a, a, b];
  }

  lemma {:induction false} StepOf(w: World, acts: seq<ToolCall>, tc: ToolCall)
    ensures ToolStep(w, acts, tc) ==
      if LoopVerdict(w, acts + [tc]) == Advisory then [ToolMessage(w, |acts|, tc), AdvisoryFor(tc.name)]
      else [ToolMessage(w, |acts|, tc)]
  {
    hide LoopVerdict, ToolMessage, AdvisoryFor;
  }

  lemma {:induction false} PrefixesOfFour(w: World, a: ToolCall, b: ToolCall)
    requires LoopVerdict(w, [a]) != LoopDetected && LoopVerdict(w, [a, a]) != LoopDetected
    requires LoopVerdict(w, [a, a, a]) != LoopDetected && LoopVerdict(w, [a, a, a, b]) != LoopDetected
    ensures NoLoop(w, [a, a, a, b])
  {
    hide LoopVerdict;
    var tcs := [a, a, a, b];
    forall k | 0 < k <= 4
      ensures LoopVerdict(w, tcs[..k]) != LoopDetected
    {
      assert tcs[..k] == if k == 1 then [a] else if k == 2 then [a, a] else if k == 3 then [a, a, a] else tcs;
    }
  }

  lemma {:induction false} BlockOfFour(w: World, a: ToolCall, b: ToolCall)
    ensures ToolBlock(w, [], [a, a, a, b]) ==
      ToolStep(w, [], a) + ToolStep(w, [a], a) + ToolStep(w, [a, a], a) + ToolStep(w, [a, a, a], b)
  {
    hide ToolBlock, ToolStep;
    BlockStep(w, [], a);
    assert [] + [a] == [a];
    BlockStep(w, [a], a);
    assert [a] + [a] == [a, a];
    BlockStep(w, [a, a], a);
    assert [a, a] + [a] == [a, a, a];
    BlockStep(w, [a, a, a], b);
    assert [a, a, a] + [b] == [a, a, a, b];
    assert [] + ToolStep(w, [], a) == ToolStep(w, [], a);
  }

  lemma {:induction false} ThreeVerdicts(w: World, a: ToolCall, b: ToolCall)
    requires w.hash(a.name, a.arguments) != w.hash(b.name, b.arguments)
    ensures LoopVerdict(w, [a]) == LoopVerdict(w, [a, a]) == LoopVerdict(w, [a, a, a, b]) == LoopState.Ok
    ensures LoopVerdict(w, [a, a, a]) == Advisory
  {
    hide StateAfter, Hashes;
    var h, g := w.hash(a.name, a.arguments), w.hash(b.name, b.arguments);
    HashesOne(w, [], a);
    assert [] + [a] == [a] && Hashes(w, [a]) == [h];
    HashesOne(w, [a], a);
    assert [a] + [a] == [a, a] && Hashes(w, [a, a]) == [h, h];
    HashesOne(w, [a, a], a);
    assert [a, a] + [a] == [a, a, a] && Hashes(w, [a, a, a]) == [h, h, h];
    HashesOne(w, [a, a, a], b);
    assert [a, a, a] + [b] == [a, a, a, b] && Hashes(w, [a, a, a, b]) == [h, h, h, g];
    ThreeThenOther(h, g);
  }

  lemma {:induction false} BlockStep(w: World, tcs: seq<ToolCall>, tc: ToolCall)
    ensures ToolBlock(w, [], tcs + [tc]) == ToolBlock(w, [], tcs) + ToolStep(w, tcs, tc)
    ensures ToolBlock(w, [], []) == []
  {
    assert (tcs + [tc])[..|tcs|] == tcs && [] + tcs == tcs;
  }

  /** The engine's first answer asks for four tool calls, all of them run, and a message stands between
      their answers. */
  ghost predicate SplitTurn(w: World, c: Completion) {
    && Follows(w, [c]) && Actions([c]) == c.toolCalls && |c.toolCalls| == 4 && NoLoop(w, c.toolCalls)
    && |ToolBlock(w, [], c.toolCalls)| == 5 && !ToolBlock(w, [], c.toolCalls)[3].Tool?
  }

  /** There is such a run: its tool messages do not follow their assistant message directly. */
  lemma {:induction false} AdvisoryBetweenTools()
    ensures exists w, c :: SplitTurn(w, c)
  {
    var a, b := ToolCall(0, "1", "read_file", ""), ToolCall(0, "2", "read_file", "x");
    var c := Completion("", [a, a, a, b], None, None);
    var w := World("", "", 10, (n, ms, t, s) => Replied(c), (n, f, x) => Ran(""), n => true, (f, x) => |x|, s => None);
    AdvisoryInside(w, a, b);
    OneAnswer(w, c);
    hide Follows, NoLoop, Actions, ToolBlock;
    assert SplitTurn(w, c);
  }

  lemma {:induction false} OneAnswer(w: World, c: Completion)
    requires MainCall(w, []).reply == Replied(c)
    ensures Follows(w, [c]) && Actions([c]) == c.toolCalls
  {
    hide HistoryAt, MainCall;
    assert [c][..0] == [];
  }

  // -------------------------------------------------------------------------
  // The ledger and the status
  // -------------------------------------------------------------------------

  ghost predicate NoFinal(ledger: seq<Event>) {
    forall k :: 0 <= k < |ledger| ==> !ledger[k].Final?
  }

  lemma {:induction false} ResultsNotFinal(w: World, done: nat, turn: nat, tcs: seq<ToolCall>)
    ensures NoFinal(ResultEvents(w, done, turn, tcs))
  {
    if tcs != [] {
      ResultsNotFinal(w, done, turn, tcs[..|tcs| - 1]);
    }
  }

  lemma {:induction false} LedgerNotFinal(w: World, cs: seq<Completion>)
    ensures NoFinal(LedgerAt(w, cs))
  {
    if cs != [] {
      hide Actions, ResultEvents;
      var earlier := cs[..|cs| - 1];
      LedgerNotFinal(w, earlier);
      ResultsNotFinal(w, |Actions(earlier)|, |cs|, cs[|cs| - 1].toolCalls);
    }
  }

  lemma {:induction false} KeptNotFinal(w: World, from: nat, events: seq<Event>)
    requires NoFinal(events)
    ensures NoFinal(Kept(w, from, events))
  {
    if events != [] {
      KeptNotFinal(w, from, events[..|events| - 1]);
    }
  }

  lemma {:induction false} EndingNotFinal(w: World, cs: seq<Completion>)
    requires Concluded(w, cs)
    ensures NoFinal(EndingEvents(w, cs))
  {
    hide ResultEvents, Follows, NoLoop, AfterTurns;
    if EndingOf(cs) == Ceiling {
      var first := EndingCalls(w, cs)[0].reply;
      if first.Replied? {
        ResultsNotFinal(w, |Actions(cs)|, |cs| + 1, first.completion.toolCalls);
      }
    }
  }

  /** A session that ends well writes one `Final` event, and writes nothing after it. */
  lemma {:induction false} FinalOnceAndLast(w: World, cs: seq<Completion>)
    requires Concluded(w, cs)
    ensures
      var ledger := FullLedger(w, cs);
      ledger != [] && forall k :: 0 <= k < |ledger| ==> (ledger[k].Final? <==> k == |ledger| - 1)
  {
    hide EndingEvents, Kept, LedgerAt, Concluded, StatusOf, TextOf;
    LedgerNotFinal(w, cs);
    EndingNotFinal(w, cs);
    KeptNotFinal(w, |LedgerAt(w, cs)|, EndingEvents(w, cs));
  }

  /** The status is honest about the text: a salvaged text is never called a success, a session is
      called failed exactly when its text is the failure notice, and a plain text comes with
      `Completed` or `BudgetExhausted`, the latter exactly when the budget is used up. A completed
      session that ran tools has something to show. */
  lemma {:induction false} StatusMatchesText(w: World, cs: seq<Completion>)
    requires Concluded(w, cs)
    ensures
      var text, status := TextOf(w, cs), StatusOf(w, cs);
      && (status == ReasoningExhausted <==> text.SalvageSilent? || text.SalvageSummary? || text.SalvageError?)
      && (status == Failed <==> text == DegenerateFinal)
      && (status == BudgetExhausted <==> text.Content? && |cs| == Budget(w))
      && (status == Completed <==> text.Content? && |cs| < Budget(w))
      && (status == Completed && Actions(cs) != [] ==> Trim(text.content) != "")
  {
    hide Paired, AfterTurns, NoLoop, Trim, CeilingCalls;
    FollowsWithin(w, cs);
    if |cs| == 1 && cs[0].toolCalls == [] {
      assert Actions(cs[..0]) == [];
    }
  }

  /** The status, read off the last answer and the answer to the salvage: the reasoning ceiling is
      reported even on the last turn; a failure is an empty final after tool use whose salvage is
      empty too; and nothing else hides a used-up budget. */
  lemma {:induction false} StatusExactly(w: World, cs: seq<Completion>)
    requires Concluded(w, cs)
    ensures
      var last, calls, status := cs[|cs| - 1], EndingCalls(w, cs), StatusOf(w, cs);
      var ceiling := last.toolCalls == [] && last.finishReason == Some("length");
      var failed := !ceiling && last.toolCalls == [] && |cs| > 1 && Trim(last.content) == ""
        && calls != [] && calls[0].reply.Replied? && Trim(calls[0].reply.completion.content) == "";
      && (status == ReasoningExhausted <==> ceiling)
      && (status == Failed <==> failed)
      && (status == BudgetExhausted <==> !ceiling && !failed && |cs| == Budget(w))
      && (status == Completed <==> !ceiling && !failed && |cs| < Budget(w) && last.toolCalls == [])
  {
    hide AfterTurns, NoLoop, Trim, CeilingCalls, Actions;
    FollowsWithin(w, cs);
  }

  lemma {:induction false} FollowsWithin(w: World, cs: seq<Completion>)
    requires Follows(w, cs)
    ensures |cs| <= Budget(w)
  {
  }
}
