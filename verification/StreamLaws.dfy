/** What the client of a streamed answer makes of it, read off the JSON values of its frames. */
module StreamLaws {
  import opened Text
  import opened Wire
  import opened StreamClient

  // -------------------------------------------------------------------------
  // Values at a path of keys
  // -------------------------------------------------------------------------

  function At(v: Value, path: seq<string>): Option<Value>
    decreases |path|
  {
    if path == [] then Some(v)
    else if v.Obj? && path[0] in v.fields then At(v.fields[path[0]], path[1..])
    else None
  }

  function StringAt(v: Value, path: seq<string>): Option<string> {
    match At(v, path) case Some(Str(s)) => Some(s) case _ => None
  }

  function NumberAt(v: Value, path: seq<string>): Option<nat> {
    match At(v, path) case Some(Number(Some(n))) => Some(n) case _ => None
  }

  function ItemsAt(v: Value, path: seq<string>): seq<Value> {
    match At(v, path) case Some(Arr(items)) => items case _ => []
  }

  lemma {:induction false} OneKey(v: Value, key: string)
    ensures At(v, [key]) == Get(v, key)
    ensures StringAt(v, [key]) == AsStr(Get(v, key)) && NumberAt(v, [key]) == AsNat(Get(v, key))
    ensures ItemsAt(v, [key]) == AsArray(Get(v, key))
  {
    assert [key][1..] == [];
  }

  lemma {:induction false} TwoKeys(v: Value, a: string, b: string)
    ensures At(v, [a, b]) == AndThen(Get(v, a), b)
    ensures StringAt(v, [a, b]) == AsStr(AndThen(Get(v, a), b)) && NumberAt(v, [a, b]) == AsNat(AndThen(Get(v, a), b))
  {
    assert [a, b][1..] == [b];
    if v.Obj? && a in v.fields {
      OneKey(v.fields[a], b);
    }
  }

  // -------------------------------------------------------------------------
  // The frames of a stream, taken apart
  // -------------------------------------------------------------------------

  /** All entries of `choices`, in order. */
  function Choices(frames: seq<Value>): seq<Value> {
    if frames == [] then [] else Choices(frames[..|frames| - 1]) + ItemsAt(frames[|frames| - 1], ["choices"])
  }

  /** The delta of each choice, or its message when it has none. */
  function Deltas(choices: seq<Value>): seq<Value> {
    if choices == [] then []
    else
      var choice := choices[|choices| - 1];
      Deltas(choices[..|choices| - 1]) +
      if At(choice, ["delta"]).Some? then [At(choice, ["delta"]).value]
      else if At(choice, ["message"]).Some? then [At(choice, ["message"]).value]
      else []
  }

  /** All entries of `tool_calls`, in order. */
  function Entries(deltas: seq<Value>): seq<Value> {
    if deltas == [] then [] else Entries(deltas[..|deltas| - 1]) + ItemsAt(deltas[|deltas| - 1], ["tool_calls"])
  }

  /** Those with an index. */
  function EntriesOf(entries: seq<Value>, index: nat): seq<Value> {
    if entries == [] then []
    else
      var entry := entries[|entries| - 1];
      EntriesOf(entries[..|entries| - 1], index) + if NumberAt(entry, ["index"]) == Some(index) then [entry] else []
  }

  /** All strings at the path, in order. */
  function AllText(vs: seq<Value>, path: seq<string>): string {
    if vs == [] then ""
    else
      var text := StringAt(vs[|vs| - 1], path);
      AllText(vs[..|vs| - 1], path) + if text.Some? then text.value else ""
  }

  /** The last string at the path. */
  function LastText(vs: seq<Value>, path: seq<string>): Option<string> {
    if vs == [] then None
    else if StringAt(vs[|vs| - 1], path).Some? then StringAt(vs[|vs| - 1], path)
    else LastText(vs[..|vs| - 1], path)
  }

  function LastNumber(vs: seq<Value>, path: seq<string>): Option<nat> {
    if vs == [] then None
    else if NumberAt(vs[|vs| - 1], path).Some? then NumberAt(vs[|vs| - 1], path)
    else LastNumber(vs[..|vs| - 1], path)
  }

  function OrEmpty(s: Option<string>): string {
    if s.Some? then s.value else ""
  }

  /** The tool call that the entries of one index make up. */
  function CallFrom(entries: seq<Value>): ToolCall {
    ToolCall(0, OrEmpty(LastText(entries, ["id"])), OrEmpty(LastText(entries, ["function", "name"])),
             AllText(entries, ["function", "arguments"]))
  }

  /** `calls` are the tool calls of the entries, one for each index, by ascending index. */
  ghost predicate SumsCalls(calls: seq<ToolCall>, entries: seq<Value>) {
    exists order :: OrdersCalls(calls, entries, order)
  }

  ghost predicate OrdersCalls(calls: seq<ToolCall>, entries: seq<Value>, order: seq<nat>) {
    && (forall i, j :: 0 <= i < j < |order| ==> order[i] < order[j])
    && (forall n: nat :: n in order <==> exists e :: e in entries && NumberAt(e, ["index"]) == Some(n))
    && |calls| == |order|
    && forall i :: 0 <= i < |calls| ==> calls[i] == CallFrom(EntriesOf(entries, order[i]))
  }

  /** `c` is the sum of the frames. */
  ghost predicate Sums(c: Completion, frames: seq<Value>) {
    && c.content == AllText(Deltas(Choices(frames)), ["content"])
    && c.finishReason == LastText(Choices(frames), ["finish_reason"])
    && c.completionTokens == LastNumber(frames, ["usage", "completion_tokens"])
    && SumsCalls(c.toolCalls, Entries(Deltas(Choices(frames))))
  }

  // -------------------------------------------------------------------------
  // Appending
  // -------------------------------------------------------------------------

  lemma {:induction false} DeltasAppend(a: seq<Value>, b: seq<Value>)
    ensures Deltas(a + b) == Deltas(a) + Deltas(b)
  {
    if b == [] {
      assert a + b == a;
    } else {
      assert (a + b)[..|a + b| - 1] == a + b[..|b| - 1];
      DeltasAppend(a, b[..|b| - 1]);
    }
  }

  lemma {:induction false} EntriesAppend(a: seq<Value>, b: seq<Value>)
    ensures Entries(a + b) == Entries(a) + Entries(b)
  {
    if b == [] {
      assert a + b == a;
    } else {
      assert (a + b)[..|a + b| - 1] == a + b[..|b| - 1];
      EntriesAppend(a, b[..|b| - 1]);
    }
  }

  lemma {:induction false} TextAppend(a: seq<Value>, b: seq<Value>, path: seq<string>)
    ensures AllText(a + b, path) == AllText(a, path) + AllText(b, path)
  {
    if b == [] {
      assert a + b == a;
    } else {
      hide StringAt;
      assert (a + b)[..|a + b| - 1] == a + b[..|b| - 1];
      TextAppend(a, b[..|b| - 1], path);
      var text := StringAt(b[|b| - 1], path);
      Associate(AllText(a, path), AllText(b[..|b| - 1], path), if text.Some? then text.value else "");
    }
  }

  lemma {:induction false} Associate<T>(a: seq<T>, b: seq<T>, c: seq<T>)
    ensures a + b + c == a + (b + c)
  {
  }

  lemma {:induction false} LastTextAppend(a: seq<Value>, b: seq<Value>, path: seq<string>)
    ensures LastText(a + b, path) == if LastText(b, path).Some? then LastText(b, path) else LastText(a, path)
  {
    if b == [] {
      assert a + b == a;
    } else {
      hide StringAt;
      assert (a + b)[..|a + b| - 1] == a + b[..|b| - 1];
      LastTextAppend(a, b[..|b| - 1], path);
    }
  }

  /** The contributions of all frames. */
  function PatchesOf(frames: seq<Value>): seq<Patch> {
    if frames == [] then [] else PatchesOf(frames[..|frames| - 1]) + FramePatches(frames[|frames| - 1])
  }

  // -------------------------------------------------------------------------
  // Content
  // -------------------------------------------------------------------------

  lemma {:induction false} OnlyFragments(tcs: seq<Value>)
    ensures AllContent(ToolPatches(tcs)) == "" && LastFinish(ToolPatches(tcs)) == None && LastTokens(ToolPatches(tcs)) == None
  {
    if tcs != [] {
      hide FragmentOf, LastFinish, LastTokens, AllContent;
      var front := ToolPatches(tcs[..|tcs| - 1]);
      OnlyFragments(tcs[..|tcs| - 1]);
      var index := AsNat(Get(tcs[|tcs| - 1], "index"));
      if index.Some? {
        FragmentSaysNothing(front, FragmentOf(index.value, tcs[|tcs| - 1]));
      } else {
        assert front + [] == front;
      }
    } else {
      NoPatches();
    }
  }

  lemma {:induction false} FragmentSaysNothing(ps: seq<Patch>, p: Patch)
    requires p.Fragment?
    ensures AllContent(ps + [p]) == AllContent(ps) && LastFinish(ps + [p]) == LastFinish(ps) && LastTokens(ps + [p]) == LastTokens(ps)
  {
    OnePatch(ps, p);
    NoText(ps, p);
  }

  lemma {:induction false} NoPatches()
    ensures AllContent([]) == "" && LastFinish([]) == None && LastTokens([]) == None
    ensures forall i :: Fragments([], i) == []
    ensures Indices([]) == {}
  {
  }

  lemma {:induction false} SinglePatch(p: Patch)
    ensures AllContent([p]) == match p case Content(text) => text case _ => ""
    ensures LastFinish([p]) == match p case Finish(reason) => Some(reason) case _ => None
    ensures LastTokens([p]) == match p case Tokens(n) => Some(n) case _ => None
    ensures forall i :: Fragments([p], i) == if p.Fragment? && p.index == i then [p] else []
  {
    assert [p][..0] == [];
  }

  /** The delta of a choice, as a list. */
  function DeltaIn(choice: Value): seq<Value> {
    if DeltaOf(choice).Some? then [DeltaOf(choice).value] else []
  }

  lemma {:induction false} DeltasStep(choices: seq<Value>)
    requires choices != []
    ensures Deltas(choices) == Deltas(choices[..|choices| - 1]) + DeltaIn(choices[|choices| - 1])
  {
    OneKey(choices[|choices| - 1], "delta");
    OneKey(choices[|choices| - 1], "message");
  }

  lemma {:induction false} ChoiceContent(choice: Value)
    ensures AllContent(ChoicePatches(choice)) == AllText(DeltaIn(choice), ["content"])
  {
    hide AllContent, AllText, ToolPatches, FinishPatches, ContentPatches, DeltaOf, AsArray;
    NoPatches();
    NoTextIn(["content"]);
    FinishSays(choice);
    match DeltaOf(choice) {
      case None =>
        assert ChoicePatches(choice) == FinishPatches(choice) + [];
        ContentAppend(FinishPatches(choice), []);
      case Some(delta) =>
        var tcs := AsArray(Get(delta, "tool_calls"));
        assert ChoicePatches(choice) == FinishPatches(choice) + (ContentPatches(delta) + ToolPatches(tcs));
        ContentAppend(FinishPatches(choice), ContentPatches(delta) + ToolPatches(tcs));
        ContentAppend(ContentPatches(delta), ToolPatches(tcs));
        OnlyFragments(tcs);
        ContentSays(delta);
    }
  }

  lemma {:induction false} NoTextIn(path: seq<string>)
    ensures AllText([], path) == "" && LastText([], path) == None && LastNumber([], path) == None
  {
  }

  lemma {:induction false} TextOne(v: Value, path: seq<string>)
    ensures AllText([v], path) == OrEmpty(StringAt(v, path)) && LastText([v], path) == StringAt(v, path)
  {
    hide StringAt;
    assert [v][..0] == [];
    assert "" + OrEmpty(StringAt(v, path)) == OrEmpty(StringAt(v, path));
  }

  lemma {:induction false} ContentSays(delta: Value)
    ensures AllContent(ContentPatches(delta)) == AllText([delta], ["content"])
    ensures LastFinish(ContentPatches(delta)) == None && LastTokens(ContentPatches(delta)) == None
    ensures forall i :: Fragments(ContentPatches(delta), i) == []
  {
    hide AllContent, AllText, LastFinish, LastTokens, Fragments;
    NoPatches();
    OneKey(delta, "content");
    TextOne(delta, ["content"]);
    if ContentPatches(delta) != [] {
      SinglePatch(ContentPatches(delta)[0]);
    }
  }

  lemma {:induction false} FinishSays(choice: Value)
    ensures LastFinish(FinishPatches(choice)) == LastText([choice], ["finish_reason"])
    ensures AllContent(FinishPatches(choice)) == "" && LastTokens(FinishPatches(choice)) == None
    ensures forall i :: Fragments(FinishPatches(choice), i) == []
  {
    hide AllContent, LastFinish, LastTokens, Fragments, LastText, AllText;
    NoPatches();
    OneKey(choice, "finish_reason");
    TextOne(choice, ["finish_reason"]);
    if FinishPatches(choice) != [] {
      SinglePatch(FinishPatches(choice)[0]);
    }
  }

  lemma {:induction false} UsageSays(frame: Value)
    ensures LastTokens(UsagePatches(frame)) == NumberAt(frame, ["usage", "completion_tokens"])
    ensures AllContent(UsagePatches(frame)) == "" && LastFinish(UsagePatches(frame)) == None
    ensures forall i :: Fragments(UsagePatches(frame), i) == []
  {
    hide AllContent, LastFinish, LastTokens, Fragments;
    NoPatches();
    TwoKeys(frame, "usage", "completion_tokens");
    if UsagePatches(frame) != [] {
      SinglePatch(UsagePatches(frame)[0]);
    }
  }

  lemma {:induction false} ChoicesContent(choices: seq<Value>)
    ensures AllContent(ChoicesPatches(choices)) == AllText(Deltas(choices), ["content"])
  {
    hide AllContent, AllText, ChoicePatches, Deltas;
    if choices == [] {
      NoPatches();
      NoTextIn(["content"]);
      NoDeltas();
    } else {
      var front, choice := choices[..|choices| - 1], choices[|choices| - 1];
      ChoicesContent(front);
      ContentAppend(ChoicesPatches(front), ChoicePatches(choice));
      ChoiceContent(choice);
      DeltasStep(choices);
      TextAppend(Deltas(front), DeltaIn(choice), ["content"]);
    }
  }

  lemma {:induction false} NoDeltas()
    ensures Deltas([]) == [] && Entries([]) == [] && Choices([]) == [] && PatchesOf([]) == []
  {
  }

  lemma {:induction false} FrameStep(frames: seq<Value>)
    requires frames != []
    ensures
      var front, choices := frames[..|frames| - 1], AsArray(Get(frames[|frames| - 1], "choices"));
      && Choices(frames) == Choices(front) + choices
      && PatchesOf(frames) == PatchesOf(front) + (UsagePatches(frames[|frames| - 1]) + ChoicesPatches(choices))
  {
    OneKey(frames[|frames| - 1], "choices");
  }

  lemma {:induction false} FramesContent(frames: seq<Value>)
    ensures AllContent(PatchesOf(frames)) == AllText(Deltas(Choices(frames)), ["content"])
  {
    hide AllContent, AllText, Choices, Deltas, PatchesOf, UsagePatches, ChoicesPatches;
    NoPatches();
    NoDeltas();
    NoTextIn(["content"]);
    if frames != [] {
      var front, frame := frames[..|frames| - 1], frames[|frames| - 1];
      var choices := AsArray(Get(frame, "choices"));
      FramesContent(front);
      FrameStep(frames);
      ContentAppend(PatchesOf(front), UsagePatches(frame) + ChoicesPatches(choices));
      ContentAppend(UsagePatches(frame), ChoicesPatches(choices));
      UsageSays(frame);
      ChoicesContent(choices);
      DeltasAppend(Choices(front), choices);
      TextAppend(Deltas(Choices(front)), Deltas(choices), ["content"]);
    }
  }

  // -------------------------------------------------------------------------
  // Finish reason and token count
  // -------------------------------------------------------------------------

  lemma {:induction false} ChoiceLast(choice: Value)
    ensures LastFinish(ChoicePatches(choice)) == LastText([choice], ["finish_reason"]) && LastTokens(ChoicePatches(choice)) == None
  {
    hide LastFinish, LastTokens, LastText, ToolPatches, FinishPatches, ContentPatches, DeltaOf, AsArray;
    NoPatches();
    FinishSays(choice);
    match DeltaOf(choice) {
      case None =>
        assert ChoicePatches(choice) == FinishPatches(choice) + [];
        LastAppend(FinishPatches(choice), []);
      case Some(delta) =>
        var tcs := AsArray(Get(delta, "tool_calls"));
        assert ChoicePatches(choice) == FinishPatches(choice) + (ContentPatches(delta) + ToolPatches(tcs));
        LastAppend(FinishPatches(choice), ContentPatches(delta) + ToolPatches(tcs));
        LastAppend(ContentPatches(delta), ToolPatches(tcs));
        OnlyFragments(tcs);
        ContentSays(delta);
    }
  }

  lemma {:induction false} ChoicesLast(choices: seq<Value>)
    ensures LastFinish(ChoicesPatches(choices)) == LastText(choices, ["finish_reason"])
    ensures LastTokens(ChoicesPatches(choices)) == None
  {
    hide LastFinish, LastTokens, LastText, ChoicePatches;
    if choices == [] {
      NoPatches();
      NoTextIn(["finish_reason"]);
    } else {
      var front, choice := choices[..|choices| - 1], choices[|choices| - 1];
      ChoicesLast(front);
      LastAppend(ChoicesPatches(front), ChoicePatches(choice));
      ChoiceLast(choice);
      LastTextAppend(front, [choice], ["finish_reason"]);
      assert front + [choice] == choices;
    }
  }

  lemma {:induction false} FramesLast(frames: seq<Value>)
    ensures LastFinish(PatchesOf(frames)) == LastText(Choices(frames), ["finish_reason"])
    ensures LastTokens(PatchesOf(frames)) == LastNumber(frames, ["usage", "completion_tokens"])
  {
    hide LastFinish, LastTokens, LastText, NumberAt, Choices, PatchesOf, UsagePatches, ChoicesPatches;
    NoPatches();
    NoDeltas();
    NoTextIn(["finish_reason"]);
    if frames != [] {
      var front, frame := frames[..|frames| - 1], frames[|frames| - 1];
      var choices := AsArray(Get(frame, "choices"));
      FramesLast(front);
      FrameStep(frames);
      LastAppend(PatchesOf(front), UsagePatches(frame) + ChoicesPatches(choices));
      LastAppend(UsagePatches(frame), ChoicesPatches(choices));
      UsageSays(frame);
      ChoicesLast(choices);
      LastTextAppend(Choices(front), choices, ["finish_reason"]);
    }
  }

  // -------------------------------------------------------------------------
  // Tool calls
  // -------------------------------------------------------------------------

  /** The fragments of one index that these entries contribute. */
  function FragmentsIn(entries: seq<Value>, index: nat): seq<Patch> {
    if entries == [] then []
    else
      var entry := entries[|entries| - 1];
      FragmentsIn(entries[..|entries| - 1], index) +
      if NumberAt(entry, ["index"]) == Some(index) then [FragmentOf(index, entry)] else []
  }

  lemma {:induction false} FragmentsInAppend(a: seq<Value>, b: seq<Value>, index: nat)
    ensures FragmentsIn(a + b, index) == FragmentsIn(a, index) + FragmentsIn(b, index)
  {
    if b == [] {
      assert a + b == a;
    } else {
      hide FragmentOf, NumberAt;
      assert (a + b)[..|a + b| - 1] == a + b[..|b| - 1];
      FragmentsInAppend(a, b[..|b| - 1], index);
    }
  }

  lemma {:induction false} ToolFragments(tcs: seq<Value>, index: nat)
    ensures Fragments(ToolPatches(tcs), index) == FragmentsIn(tcs, index)
  {
    hide FragmentOf, NumberAt, Fragments;
    NoPatches();
    if tcs != [] {
      var front, tc := tcs[..|tcs| - 1], tcs[|tcs| - 1];
      ToolFragments(front, index);
      OneKey(tc, "index");
      var n := AsNat(Get(tc, "index"));
      var more := if n.Some? then [FragmentOf(n.value, tc)] else [];
      assert ToolPatches(tcs) == ToolPatches(front) + more;
      FragmentsAppend(ToolPatches(front), more, index);
      if n.Some? {
        FragmentIsOne(n.value, tc);
        SinglePatch(more[0]);
      }
    }
  }

  lemma {:induction false} FragmentIsOne(index: nat, tc: Value)
    ensures FragmentOf(index, tc).Fragment? && FragmentOf(index, tc).index == index
  {
  }

  lemma {:induction false} NoEntries(index: nat)
    ensures FragmentsIn([], index) == [] && EntriesOf([], index) == []
  {
  }

  lemma {:induction false} EntriesOne(delta: Value)
    ensures Entries([delta]) == AsArray(Get(delta, "tool_calls"))
  {
    OneKey(delta, "tool_calls");
    assert [delta][..0] == [];
  }

  lemma {:induction false} ChoiceFragments(choice: Value, index: nat)
    ensures Fragments(ChoicePatches(choice), index) == FragmentsIn(Entries(DeltaIn(choice)), index)
  {
    hide Fragments, FragmentsIn, Entries, ToolPatches, FinishPatches, ContentPatches, DeltaOf, AsArray;
    NoPatches();
    NoDeltas();
    NoEntries(index);
    FinishSays(choice);
    match DeltaOf(choice) {
      case None =>
        assert ChoicePatches(choice) == FinishPatches(choice) + [];
        FragmentsAppend(FinishPatches(choice), [], index);
      case Some(delta) =>
        var tcs := AsArray(Get(delta, "tool_calls"));
        assert ChoicePatches(choice) == FinishPatches(choice) + (ContentPatches(delta) + ToolPatches(tcs));
        FragmentsAppend(FinishPatches(choice), ContentPatches(delta) + ToolPatches(tcs), index);
        FragmentsAppend(ContentPatches(delta), ToolPatches(tcs), index);
        ToolFragments(tcs, index);
        ContentSays(delta);
        EntriesOne(delta);
        assert [] + ([] + FragmentsIn(tcs, index)) == FragmentsIn(tcs, index);
    }
  }

  lemma {:induction false} ChoicesFragments(choices: seq<Value>, index: nat)
    ensures Fragments(ChoicesPatches(choices), index) == FragmentsIn(Entries(Deltas(choices)), index)
  {
    hide Fragments, FragmentsIn, Entries, ChoicePatches, Deltas;
    NoPatches();
    NoDeltas();
    NoEntries(index);
    if choices != [] {
      var front, choice := choices[..|choices| - 1], choices[|choices| - 1];
      ChoicesFragments(front, index);
      FragmentsAppend(ChoicesPatches(front), ChoicePatches(choice), index);
      ChoiceFragments(choice, index);
      DeltasStep(choices);
      EntriesAppend(Deltas(front), DeltaIn(choice));
      FragmentsInAppend(Entries(Deltas(front)), Entries(DeltaIn(choice)), index);
    }
  }

  lemma {:induction false} FramesFragments(frames: seq<Value>, index: nat)
    ensures Fragments(PatchesOf(frames), index) == FragmentsIn(Entries(Deltas(Choices(frames))), index)
  {
    hide Fragments, FragmentsIn, Entries, Choices, Deltas, PatchesOf, UsagePatches, ChoicesPatches;
    NoPatches();
    NoDeltas();
    NoEntries(index);
    if frames != [] {
      var front, frame := frames[..|frames| - 1], frames[|frames| - 1];
      var choices := AsArray(Get(frame, "choices"));
      FramesFragments(front, index);
      FrameStep(frames);
      FragmentsAppend(PatchesOf(front), UsagePatches(frame) + ChoicesPatches(choices), index);
      FragmentsAppend(UsagePatches(frame), ChoicesPatches(choices), index);
      UsageSays(frame);
      ChoicesFragments(choices, index);
      DeltasAppend(Choices(front), choices);
      EntriesAppend(Deltas(Choices(front)), Deltas(choices));
      FragmentsInAppend(Entries(Deltas(Choices(front))), Entries(Deltas(choices)), index);
    }
  }

  /** The fragments of an index amount to the tool call of its entries. */
  lemma {:induction false} FragmentsCall(entries: seq<Value>, index: nat)
    ensures CallOf(FragmentsIn(entries, index)) == CallFrom(EntriesOf(entries, index))
  {
    hide LastId, LastName, AllArguments, LastText, AllText, FragmentsIn, EntriesOf, NumberAt;
    if entries == [] {
      NoEntries(index);
      EmptyCall();
    } else {
      var front, entry := entries[..|entries| - 1], entries[|entries| - 1];
      FragmentsCall(front, index);
      EntriesStep(entries, index);
      if NumberAt(entry, ["index"]) == Some(index) {
        OneFragment(FragmentsIn(front, index), FragmentOf(index, entry));
        EntryCall(EntriesOf(front, index), entry);
        EntryKeys(entry);
      }
    }
  }

  lemma {:induction false} EntriesStep(entries: seq<Value>, index: nat)
    requires entries != []
    ensures
      var front, entry := entries[..|entries| - 1], entries[|entries| - 1];
      if NumberAt(entry, ["index"]) == Some(index) then
        && FragmentsIn(entries, index) == FragmentsIn(front, index) + [FragmentOf(index, entry)]
        && EntriesOf(entries, index) == EntriesOf(front, index) + [entry]
      else
        && FragmentsIn(entries, index) == FragmentsIn(front, index)
        && EntriesOf(entries, index) == EntriesOf(front, index)
  {
  }

  lemma {:induction false} EmptyCall()
    ensures CallOf([]) == CallFrom([])
  {
  }

  lemma {:induction false} EntryCall(es: seq<Value>, e: Value)
    ensures
      var id, name, args := StringAt(e, ["id"]), StringAt(e, ["function", "name"]), StringAt(e, ["function", "arguments"]);
      CallFrom(es + [e]) ==
        ToolCall(0, if id.Some? then id.value else CallFrom(es).id, if name.Some? then name.value else CallFrom(es).name,
                 CallFrom(es).arguments + if args.Some? then args.value else "")
  {
    hide StringAt;
    assert (es + [e])[..|es|] == es;
  }

  lemma {:induction false} EntryKeys(e: Value)
    ensures StringAt(e, ["id"]) == AsStr(Get(e, "id"))
    ensures StringAt(e, ["function", "name"]) == AsStr(AndThen(Get(e, "function"), "name"))
    ensures StringAt(e, ["function", "arguments"]) == AsStr(AndThen(Get(e, "function"), "arguments"))
  {
    OneKey(e, "id");
    TwoKeys(e, "function", "name");
    TwoKeys(e, "function", "arguments");
  }

  lemma {:induction false} SeenIndex(ps: seq<Patch>, index: nat)
    ensures index in Indices(ps) <==> Fragments(ps, index) != []
  {
    hide Indices, Fragments;
    if ps == [] {
      NoPatches();
    } else {
      var front, p := ps[..|ps| - 1], ps[|ps| - 1];
      SeenIndex(front, index);
      OnePatch(front, p);
      assert front + [p] == ps;
    }
  }

  lemma {:induction false} SeenEntry(entries: seq<Value>, index: nat)
    ensures FragmentsIn(entries, index) != [] <==> exists e :: e in entries && NumberAt(e, ["index"]) == Some(index)
  {
    hide NumberAt, FragmentOf;
    if entries != [] {
      SeenEntry(entries[..|entries| - 1], index);
      assert entries == entries[..|entries| - 1] + [entries[|entries| - 1]];
    }
  }

  lemma {:induction false} FramesCalls(frames: seq<Value>)
    ensures SumsCalls(CallsOf(PatchesOf(frames)), Entries(Deltas(Choices(frames))))
  {
    hide Indices, Fragments, FragmentsIn, EntriesOf, CallOf, CallFrom, NumberAt, Entries, Deltas, Choices, PatchesOf, Ascending;
    var ps, entries := PatchesOf(frames), Entries(Deltas(Choices(frames)));
    var order := Ascending(Indices(ps));
    AscendingOrder(Indices(ps));
    forall n: nat
      ensures n in order <==> exists e :: e in entries && NumberAt(e, ["index"]) == Some(n)
    {
      SeenIndex(ps, n);
      FramesFragments(frames, n);
      SeenEntry(entries, n);
    }
    forall i | 0 <= i < |order|
      ensures CallsOf(ps)[i] == CallFrom(EntriesOf(entries, order[i]))
    {
      FramesFragments(frames, order[i]);
      FragmentsCall(entries, order[i]);
    }
    assert OrdersCalls(CallsOf(ps), entries, order);
  }

  /** What the contributions of some frames amount to is the sum of the frames. */
  lemma {:induction false} FramesSum(frames: seq<Value>)
    ensures Sums(Assembled(PatchesOf(frames)), frames)
  {
    hide AllContent, LastFinish, LastTokens, CallsOf, AllText, LastText, LastNumber, Entries, Deltas, Choices, PatchesOf, SumsCalls;
    FramesContent(frames);
    FramesLast(frames);
    FramesCalls(frames);
  }

  // -------------------------------------------------------------------------
  // The lines of the stream
  // -------------------------------------------------------------------------

  /** What a line carries behind `data:`. */
  function Payload(line: string): Option<string> {
    var t := Trim(line);
    if "data:" <= t then Some(Trim(t[5..])) else None
  }

  /** The line ends the answer. */
  predicate IsDone(line: string) {
    Payload(line) == Some("[DONE]")
  }

  /** The line carries something that is no JSON. */
  predicate IsBad(parse: string -> Option<Value>, line: string) {
    Payload(line).Some? && Payload(line).value != "" && Payload(line).value != "[DONE]" && parse(Payload(line).value).None?
  }

  predicate Clean(parse: string -> Option<Value>, lines: seq<string>) {
    forall i :: 0 <= i < |lines| ==> !IsDone(lines[i]) && !IsBad(parse, lines[i])
  }

  /** The frames that clean lines carry, in order. */
  function FramesIn(parse: string -> Option<Value>, lines: seq<string>): seq<Value> {
    if lines == [] then []
    else
      var payload := Payload(lines[|lines| - 1]);
      FramesIn(parse, lines[..|lines| - 1]) +
      if payload.Some? && payload.value != "" && parse(payload.value).Some? then [parse(payload.value).value] else []
  }

  lemma {:induction false} LineReads(parse: string -> Option<Value>, line: string)
    ensures ReadLine(parse, line) == End <==> IsDone(line)
    ensures ReadLine(parse, line) == Bad <==> IsBad(parse, line)
    ensures
      var payload := Payload(line);
      !IsDone(line) && !IsBad(parse, line) ==>
        if payload.Some? && payload.value != "" then
          parse(payload.value).Some? && ReadLine(parse, line) == Data(parse(payload.value).value)
        else
          ReadLine(parse, line) == Skip
  {
    hide Trim;
  }

  /** The client reads on while the lines are clean, and what it has is what their frames say; the first
      line that is not clean ends the answer or fails it. */
  lemma {:induction false} LinesRead(parse: string -> Option<Value>, lines: seq<string>)
    ensures ReadLines(parse, lines).Reading? <==> Clean(parse, lines)
    ensures Clean(parse, lines) ==> ReadLines(parse, lines) == Reading(PatchesOf(FramesIn(parse, lines)))
  {
    hide ReadLine, FramePatches, IsDone, IsBad, Payload, FramesIn, PatchesOf;
    if lines == [] {
      NothingRead(parse);
    } else {
      var front, line := lines[..|lines| - 1], lines[|lines| - 1];
      LinesRead(parse, front);
      LineReads(parse, line);
      assert lines == front + [line];
      assert Clean(parse, lines) <==> Clean(parse, front) && !IsDone(line) && !IsBad(parse, line);
      FramesStep(parse, lines);
    }
  }

  lemma {:induction false} NothingRead(parse: string -> Option<Value>)
    ensures ReadLines(parse, []) == Reading(PatchesOf(FramesIn(parse, [])))
  {
  }

  lemma {:induction false} FramesStep(parse: string -> Option<Value>, lines: seq<string>)
    requires lines != []
    ensures
      var front, payload := FramesIn(parse, lines[..|lines| - 1]), Payload(lines[|lines| - 1]);
      if payload.Some? && payload.value != "" && parse(payload.value).Some? then
        PatchesOf(FramesIn(parse, lines)) == PatchesOf(front) + FramePatches(parse(payload.value).value)
      else
        PatchesOf(FramesIn(parse, lines)) == PatchesOf(front)
  {
    hide FramePatches, Payload;
    var front, payload := FramesIn(parse, lines[..|lines| - 1]), Payload(lines[|lines| - 1]);
    if payload.Some? && payload.value != "" && parse(payload.value).Some? {
      assert (front + [parse(payload.value).value])[..|front|] == front;
    } else {
      assert front + [] == front;
    }
  }

  /** Line `k` is the first that is not clean, and it ends the answer. */
  ghost predicate DoneAt(parse: string -> Option<Value>, lines: seq<string>, k: nat) {
    k < |lines| && Clean(parse, lines[..k]) && IsDone(lines[k])
  }

  ghost predicate BadAt(parse: string -> Option<Value>, lines: seq<string>, k: nat) {
    k < |lines| && Clean(parse, lines[..k]) && IsBad(parse, lines[k])
  }

  lemma {:induction false} StopsThere(parse: string -> Option<Value>, lines: seq<string>, k: nat)
    ensures DoneAt(parse, lines, k) ==> ReadLines(parse, lines) == Finished(PatchesOf(FramesIn(parse, lines[..k])))
    ensures BadAt(parse, lines, k) ==> ReadLines(parse, lines) == Failed
  {
    hide ReadLine, FramePatches, IsDone, IsBad, Payload, FramesIn, PatchesOf, Clean;
    if DoneAt(parse, lines, k) || BadAt(parse, lines, k) {
      var front := lines[..k];
      LinesRead(parse, front);
      LineReads(parse, lines[k]);
      assert (front + [lines[k]])[..k] == front;
      ReadAppend(parse, front + [lines[k]], lines[k + 1..]);
      assert front + [lines[k]] + lines[k + 1..] == lines;
    }
  }

  lemma {:induction false} FirstUnclean(parse: string -> Option<Value>, lines: seq<string>) returns (k: nat)
    requires !Clean(parse, lines)
    ensures DoneAt(parse, lines, k) || BadAt(parse, lines, k)
  {
    hide IsDone, IsBad;
    k := 0;
    while k < |lines| && !IsDone(lines[k]) && !IsBad(parse, lines[k])
      invariant k <= |lines| && Clean(parse, lines[..k])
    {
      k := k + 1;
    }
    assert k < |lines| by {
      assert lines[..|lines|] == lines;
    }
  }

  /** The complete lines of the stream, each decoded with its newline. */
  lemma {:induction false} DecodedLines(reader: Reader, pieces: seq<seq<byte>>, i: nat)
    requires i < |pieces|
    ensures DecodeLines(reader, pieces)[i] == reader.lossy(pieces[i] + [10])
  {
    if i < |pieces| - 1 {
      DecodedLines(reader, pieces[..|pieces| - 1], i);
    }
  }

  /** The answer is the sum of the frames of all complete lines, or of those before the end mark; a line
      that carries no JSON before that, or a transport error without an end mark, fails it. */
  lemma {:induction false} AnswerIsSum(reader: Reader, bytes: seq<byte>, broken: bool)
    ensures
      var lines, outcome := DecodeLines(reader, Lines(bytes, 10)), Consumed(reader, bytes, broken);
      && (outcome == SseError <==> (exists k: nat :: BadAt(reader.parse, lines, k)) || (Clean(reader.parse, lines) && broken))
      && (Clean(reader.parse, lines) && !broken ==>
            outcome.Answer? && Sums(outcome.completion, FramesIn(reader.parse, lines)))
      && forall k: nat :: DoneAt(reader.parse, lines, k) ==>
           outcome.Answer? && Sums(outcome.completion, FramesIn(reader.parse, lines[..k]))
  {
    hide ReadLines, IsDone, IsBad, FramesIn, PatchesOf, Clean, Sums, Assembled, DecodeLines, Lines, DoneAt, BadAt;
    var lines := DecodeLines(reader, Lines(bytes, 10));
    LinesRead(reader.parse, lines);
    FramesSum(FramesIn(reader.parse, lines));
    forall k: nat
      ensures DoneAt(reader.parse, lines, k) ==>
        k < |lines| && ReadLines(reader.parse, lines) == Finished(PatchesOf(FramesIn(reader.parse, lines[..k])))
          && Sums(Assembled(PatchesOf(FramesIn(reader.parse, lines[..k]))), FramesIn(reader.parse, lines[..k]))
      ensures BadAt(reader.parse, lines, k) ==> ReadLines(reader.parse, lines) == Failed
    {
      StopsThere(reader.parse, lines, k);
      if DoneAt(reader.parse, lines, k) {
        DoneWithin(reader.parse, lines, k);
        FramesSum(FramesIn(reader.parse, lines[..k]));
      }
    }
    if !Clean(reader.parse, lines) {
      var k := FirstUnclean(reader.parse, lines);
    }
  }

  lemma {:induction false} DoneWithin(parse: string -> Option<Value>, lines: seq<string>, k: nat)
    requires DoneAt(parse, lines, k)
    ensures k < |lines|
  {
  }
}
