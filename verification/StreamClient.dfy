/** The engine client's reading of a streamed answer, of `src/engine/provider.rs`. */
module StreamClient {
  import opened Text
  import opened Wire

  /** `String::from_utf8_lossy` and the JSON parser. */
  datatype Reader = Reader(lossy: seq<byte> -> string, parse: string -> Option<Value>)

  const NEWLINE: byte := 10

  datatype Outcome = Answer(completion: Completion) | SseError

  // -------------------------------------------------------------------------
  // What one frame contributes
  // -------------------------------------------------------------------------

  datatype Patch =
    | Tokens(n: nat)
    | Finish(reason: string)
    | Content(text: string)
    | Fragment(index: nat, id: Option<string>, name: Option<string>, arguments: Option<string>)

  function ToolPatches(tcs: seq<Value>): seq<Patch> {
    if tcs == [] then []
    else
      var tc := tcs[|tcs| - 1];
      ToolPatches(tcs[..|tcs| - 1]) +
      match AsNat(Get(tc, "index"))
      case None => []
      case Some(index) => [FragmentOf(index, tc)]
  }

  function FragmentOf(index: nat, tc: Value): Patch {
    var fn := Get(tc, "function");
    Fragment(index, AsStr(Get(tc, "id")), AsStr(AndThen(fn, "name")), AsStr(AndThen(fn, "arguments")))
  }

  function DeltaOf(choice: Value): Option<Value> {
    if Get(choice, "delta").Some? then Get(choice, "delta") else Get(choice, "message")
  }

  function FinishPatches(choice: Value): seq<Patch> {
    match AsStr(Get(choice, "finish_reason"))
    case None => []
    case Some(reason) => [Finish(reason)]
  }

  function ContentPatches(delta: Value): seq<Patch> {
    match AsStr(Get(delta, "content"))
    case None => []
    case Some(text) => [Content(text)]
  }

  function ChoicePatches(choice: Value): seq<Patch> {
    FinishPatches(choice) +
    match DeltaOf(choice)
    case None => []
    case Some(delta) => ContentPatches(delta) + ToolPatches(AsArray(Get(delta, "tool_calls")))
  }

  function ChoicesPatches(choices: seq<Value>): seq<Patch> {
    if choices == [] then []
    else ChoicesPatches(choices[..|choices| - 1]) + ChoicePatches(choices[|choices| - 1])
  }

  function UsagePatches(frame: Value): seq<Patch> {
    match AsNat(AndThen(Get(frame, "usage"), "completion_tokens"))
    case None => []
    case Some(n) => [Tokens(n)]
  }

  function FramePatches(frame: Value): seq<Patch> {
    UsagePatches(frame) + ChoicesPatches(AsArray(Get(frame, "choices")))
  }

  // -------------------------------------------------------------------------
  // What a list of contributions amounts to
  // -------------------------------------------------------------------------

  /** All content, in order. */
  function AllContent(ps: seq<Patch>): string {
    if ps == [] then ""
    else AllContent(ps[..|ps| - 1]) + match ps[|ps| - 1] case Content(text) => text case _ => ""
  }

  /** The last finish reason given. */
  function LastFinish(ps: seq<Patch>): Option<string> {
    if ps == [] then None
    else match ps[|ps| - 1] case Finish(reason) => Some(reason) case _ => LastFinish(ps[..|ps| - 1])
  }

  function LastTokens(ps: seq<Patch>): Option<nat> {
    if ps == [] then None
    else match ps[|ps| - 1] case Tokens(n) => Some(n) case _ => LastTokens(ps[..|ps| - 1])
  }

  /** The fragments that carry an index, in order. */
  function Fragments(ps: seq<Patch>, index: nat): seq<Patch> {
    if ps == [] then []
    else
      var p := ps[|ps| - 1];
      Fragments(ps[..|ps| - 1], index) + if p.Fragment? && p.index == index then [p] else []
  }

  /** The concatenation of the argument fragments. */
  function AllArguments(fs: seq<Patch>): string {
    if fs == [] then ""
    else
      AllArguments(fs[..|fs| - 1]) +
      match fs[|fs| - 1] case Fragment(_, _, _, Some(arguments)) => arguments case _ => ""
  }

  /** The last id given, or the empty string; likewise the last name. */
  function LastId(fs: seq<Patch>): string {
    if fs == [] then ""
    else match fs[|fs| - 1] case Fragment(_, Some(id), _, _) => id case _ => LastId(fs[..|fs| - 1])
  }

  function LastName(fs: seq<Patch>): string {
    if fs == [] then ""
    else match fs[|fs| - 1] case Fragment(_, _, Some(name), _) => name case _ => LastName(fs[..|fs| - 1])
  }

  function CallOf(fs: seq<Patch>): ToolCall {
    ToolCall(0, LastId(fs), LastName(fs), AllArguments(fs))
  }

  /** The indices that some fragment carries. */
  function Indices(ps: seq<Patch>): set<nat> {
    set i | 0 <= i < |ps| && ps[i].Fragment? :: ps[i].index
  }

  predicate IsLeast(s: set<nat>, k: nat) {
    k in s && forall j :: j in s ==> k <= j
  }

  lemma {:induction false} LeastExists(s: set<nat>)
    requires s != {}
    ensures exists k :: IsLeast(s, k)
  {
    var k: nat :| k in s;
    if s == {k} {
      assert IsLeast(s, k);
    } else {
      var rest := s - {k};
      LeastExists(rest);
      var m :| IsLeast(rest, m);
      assert forall j :: j in s ==> j == k || j in rest;
      assert IsLeast(s, if k < m then k else m);
    }
  }

  ghost function Least(s: set<nat>): (k: nat)
    requires s != {}
    ensures IsLeast(s, k)
  {
    LeastExists(s);
    var k :| IsLeast(s, k);
    k
  }

  /** The elements of a set in ascending order. */
  ghost function Ascending(s: set<nat>): seq<nat> {
    if s == {} then [] else [Least(s)] + Ascending(s - {Least(s)})
  }

  lemma {:induction false} AscendingOrder(s: set<nat>)
    ensures forall i, j :: 0 <= i < j < |Ascending(s)| ==> Ascending(s)[i] < Ascending(s)[j]
    ensures forall k :: k in Ascending(s) <==> k in s
  {
    if s != {} {
      var k := Least(s);
      var rest := Ascending(s - {k});
      AscendingOrder(s - {k});
      assert forall i :: 0 <= i < |rest| ==> rest[i] in rest;
      assert forall j :: j in s <==> j == k || j in s - {k};
    }
  }

  /** One tool call for each index seen, by ascending index. */
  ghost function CallsOf(ps: seq<Patch>): (calls: seq<ToolCall>) {
    var order := Ascending(Indices(ps));
    seq(|order|, i requires 0 <= i < |order| => CallOf(Fragments(ps, order[i])))
  }

  ghost function Assembled(ps: seq<Patch>): Completion {
    Completion(AllContent(ps), CallsOf(ps), LastFinish(ps), LastTokens(ps))
  }

  // -------------------------------------------------------------------------
  // A whole stream
  // -------------------------------------------------------------------------

  datatype Line = Skip | End | Bad | Data(frame: Value)

  function ReadLine(parse: string -> Option<Value>, line: string): Line {
    match StripPrefix(Trim(line), "data:")
    case None => Skip
    case Some(rest) =>
      var payload := Trim(rest);
      if payload == "[DONE]" then End
      else if payload == "" then Skip
      else match parse(payload) case None => Bad case Some(frame) => Data(frame)
  }

  datatype Progress = Reading(patches: seq<Patch>) | Finished(patches: seq<Patch>) | Failed

  function ReadLines(parse: string -> Option<Value>, lines: seq<string>): Progress {
    if lines == [] then Reading([])
    else
      match ReadLines(parse, lines[..|lines| - 1])
      case Reading(ps) =>
        (match ReadLine(parse, lines[|lines| - 1])
         case Skip => Reading(ps)
         case End => Finished(ps)
         case Bad => Failed
         case Data(frame) => Reading(ps + FramePatches(frame)))
      case other => other
  }

  function DecodeLines(reader: Reader, pieces: seq<seq<byte>>): (lines: seq<string>)
    ensures |lines| == |pieces|
  {
    if pieces == [] then []
    else
      DecodeLines(reader, pieces[..|pieces| - 1]) + [reader.lossy(pieces[|pieces| - 1] + [NEWLINE])]
  }

  /** How far the client gets in a stream; a line without its newline is never read. */
  function ReadStream(reader: Reader, bytes: seq<byte>): Progress {
    ReadLines(reader.parse, DecodeLines(reader, Lines(bytes, NEWLINE)))
  }

  /** The result for a stream that ends after `bytes`, in a transport error if `broken`. */
  ghost function Consumed(reader: Reader, bytes: seq<byte>, broken: bool): Outcome {
    match ReadStream(reader, bytes)
    case Reading(ps) => if broken then SseError else Answer(Assembled(ps))
    case Finished(ps) => Answer(Assembled(ps))
    case Failed => SseError
  }

  // -------------------------------------------------------------------------
  // The client
  // -------------------------------------------------------------------------

  /** The local variables of `consume_stream`. */
  datatype Gathered = Gathered(
    content: string,
    finishReason: Option<string>,
    completionTokens: Option<nat>,
    toolCalls: map<nat, ToolCall>)

  /** What the variables hold once the contributions `ps` are in. */
  ghost predicate Holds(g: Gathered, ps: seq<Patch>) {
    && g.content == AllContent(ps) && g.finishReason == LastFinish(ps) && g.completionTokens == LastTokens(ps)
    && g.toolCalls.Keys == Indices(ps)
    && forall i :: i in g.toolCalls ==> g.toolCalls[i] == CallOf(Fragments(ps, i))
  }

  lemma {:induction false} OnePatch(ps: seq<Patch>, p: Patch)
    ensures AllContent(ps + [p]) == AllContent(ps) + match p case Content(text) => text case _ => ""
    ensures LastFinish(ps + [p]) == match p case Finish(reason) => Some(reason) case _ => LastFinish(ps)
    ensures LastTokens(ps + [p]) == match p case Tokens(n) => Some(n) case _ => LastTokens(ps)
    ensures Indices(ps + [p]) == Indices(ps) + if p.Fragment? then {p.index} else {}
    ensures forall i :: Fragments(ps + [p], i) == Fragments(ps, i) + if p.Fragment? && p.index == i then [p] else []
  {
    var longer := ps + [p];
    assert longer[..|ps|] == ps;
    forall i
      ensures i in Indices(longer) <==> i in Indices(ps) || (p.Fragment? && i == p.index)
    {
      if i in Indices(ps) {
        var k :| 0 <= k < |ps| && ps[k].Fragment? && ps[k].index == i;
        assert longer[k].Fragment? && longer[k].index == i;
      }
      if p.Fragment? && i == p.index {
        assert longer[|ps|].Fragment? && longer[|ps|].index == i;
      }
    }
  }

  lemma {:induction false} OneFragment(fs: seq<Patch>, p: Patch)
    requires p.Fragment?
    ensures CallOf(fs + [p]) ==
      ToolCall(0, if p.id.Some? then p.id.value else LastId(fs), if p.name.Some? then p.name.value else LastName(fs),
               AllArguments(fs) + if p.arguments.Some? then p.arguments.value else "")
    ensures CallOf([]) == ToolCall(0, "", "", "")
  {
    assert (fs + [p])[..|fs|] == fs;
  }

  lemma {:induction false} NoFragments(ps: seq<Patch>, index: nat)
    requires index !in Indices(ps)
    ensures Fragments(ps, index) == []
  {
    if ps != [] {
      var shorter := ps[..|ps| - 1];
      assert index !in Indices(shorter) by {
        assert forall k :: 0 <= k < |shorter| ==> shorter[k] == ps[k];
      }
      assert ps[|ps| - 1].Fragment? ==> ps[|ps| - 1].index in Indices(ps);
      NoFragments(shorter, index);
    }
  }

  /** The body of the loop over the tool calls of a delta. */
  method AddToolCall(g: Gathered, tc: Value, ghost ps: seq<Patch>) returns (r: Gathered)
    requires Holds(g, ps)
    ensures Holds(r, ps + ToolPatches([tc]))
  {
    hide AllContent, LastFinish, LastTokens, Fragments, AllArguments, LastId, LastName, Indices, CallOf;
    OneTool(tc);
    var idx := AsNat(Get(tc, "index"));
    if idx.None? {
      assert ps + [] == ps;
      return g;
    }
    var index := idx.value;
    var slot := if index in g.toolCalls then g.toolCalls[index] else ToolCall(0, "", "", "");
    if index !in g.toolCalls {
      NoFragments(ps, index);
    }
    var p := FragmentOf(index, tc);
    OnePatch(ps, p);
    OneFragment(Fragments(ps, index), p);
    SlotFields(Fragments(ps, index));
    var id := AsStr(Get(tc, "id"));
    if id.Some? {
      slot := slot.(id := id.value);
    }
    var fn := Get(tc, "function");
    var name := AsStr(AndThen(fn, "name"));
    if name.Some? {
      slot := slot.(name := name.value);
    }
    var args := AsStr(AndThen(fn, "arguments"));
    if args.Some? {
      slot := slot.(arguments := slot.arguments + args.value);
    } else {
      assert slot.arguments + "" == slot.arguments;
    }
    r := g.(toolCalls := g.toolCalls[index := slot]);
    NoText(ps, p);
    forall i | i in r.toolCalls
      ensures r.toolCalls[i] == CallOf(Fragments(ps + [p], i))
    {
      assert i != index ==> Fragments(ps, i) + [] == Fragments(ps, i);
    }
  }

  lemma {:induction false} OneTool(tc: Value)
    ensures ToolPatches([tc]) ==
      match AsNat(Get(tc, "index")) case None => [] case Some(index) => [FragmentOf(index, tc)]
  {
    assert [tc][..0] == [];
  }

  lemma {:induction false} SlotFields(fs: seq<Patch>)
    ensures CallOf(fs) == ToolCall(0, LastId(fs), LastName(fs), AllArguments(fs))
  {
  }

  lemma {:induction false} NoText(ps: seq<Patch>, p: Patch)
    requires !p.Content?
    ensures AllContent(ps + [p]) == AllContent(ps)
  {
    assert (ps + [p])[..|ps|] == ps;
    assert AllContent(ps) + "" == AllContent(ps);
  }

  /** One entry of `choices`. */
  method AddChoice(g: Gathered, choice: Value, ghost ps: seq<Patch>) returns (r: Gathered)
    requires Holds(g, ps)
    ensures Holds(r, ps + ChoicePatches(choice))
  {
    hide Holds, ToolPatches, FinishPatches, ContentPatches, DeltaOf, AsArray;
    r := g;
    var reason := AsStr(Get(choice, "finish_reason"));
    ghost var seen := ps + FinishPatches(choice);
    if reason.Some? {
      r := r.(finishReason := reason);
    }
    FinishHolds(g, r, ps, choice);
    var delta := DeltaOf(choice);
    if delta.None? {
      assert ps + (FinishPatches(choice) + []) == seen;
      return;
    }
    ghost var before := r;
    var text := AsStr(Get(delta.value, "content"));
    if text.Some? {
      r := r.(content := r.content + text.value);
    }
    ContentHolds(before, r, seen, delta.value);
    seen := seen + ContentPatches(delta.value);
    var tcs := AsArray(Get(delta.value, "tool_calls"));
    NoTools(seen);
    for i := 0 to |tcs|
      invariant Holds(r, seen + ToolPatches(tcs[..i]))
    {
      r := AddToolCall(r, tcs[i], seen + ToolPatches(tcs[..i]));
      ToolPatchesStep(tcs, i);
      assert seen + ToolPatches(tcs[..i]) + ToolPatches([tcs[i]]) == seen + ToolPatches(tcs[..i + 1]);
    }
    assert tcs[..|tcs|] == tcs;
    assert seen + ToolPatches(tcs) == ps + (FinishPatches(choice) + (ContentPatches(delta.value) + ToolPatches(tcs)));
  }

  lemma {:induction false} NoTools(ps: seq<Patch>)
    ensures forall tcs: seq<Value> {:trigger ToolPatches(tcs[..0])} :: ps + ToolPatches(tcs[..0]) == ps
  {
  }

  lemma {:induction false} ToolPatchesStep(tcs: seq<Value>, i: nat)
    requires i < |tcs|
    ensures ToolPatches(tcs[..i + 1]) == ToolPatches(tcs[..i]) + ToolPatches([tcs[i]])
  {
    assert tcs[..i + 1][..i] == tcs[..i];
    OneTool(tcs[i]);
  }

  lemma {:induction false} FinishHolds(g: Gathered, r: Gathered, ps: seq<Patch>, choice: Value)
    requires Holds(g, ps)
    requires
      var reason := AsStr(Get(choice, "finish_reason"));
      r == if reason.Some? then g.(finishReason := reason) else g
    ensures Holds(r, ps + FinishPatches(choice))
  {
    hide AllContent, LastFinish, LastTokens, Fragments, Indices, CallOf;
    if FinishPatches(choice) == [] {
      assert ps + [] == ps;
    } else {
      PlainHolds(g, r, ps, FinishPatches(choice)[0]);
    }
  }

  lemma {:induction false} ContentHolds(g: Gathered, r: Gathered, ps: seq<Patch>, delta: Value)
    requires Holds(g, ps)
    requires
      var text := AsStr(Get(delta, "content"));
      r == if text.Some? then g.(content := g.content + text.value) else g
    ensures Holds(r, ps + ContentPatches(delta))
  {
    hide AllContent, LastFinish, LastTokens, Fragments, Indices, CallOf;
    if ContentPatches(delta) == [] {
      assert ps + [] == ps;
    } else {
      PlainHolds(g, r, ps, ContentPatches(delta)[0]);
    }
  }

  /** A contribution that is no tool-call fragment. */
  lemma {:induction false} PlainHolds(g: Gathered, r: Gathered, ps: seq<Patch>, p: Patch)
    requires Holds(g, ps) && !p.Fragment?
    requires r == match p
      case Tokens(n) => g.(completionTokens := Some(n))
      case Finish(reason) => g.(finishReason := Some(reason))
      case Content(text) => g.(content := g.content + text)
      case _ => g
    ensures Holds(r, ps + [p])
  {
    hide AllContent, LastFinish, LastTokens, Fragments, Indices, CallOf;
    OnePatch(ps, p);
    if !p.Content? {
      NoText(ps, p);
    }
    assert Indices(ps) + {} == Indices(ps);
    forall i | i in r.toolCalls
      ensures Fragments(ps + [p], i) == Fragments(ps, i)
    {
      assert Fragments(ps, i) + [] == Fragments(ps, i);
    }
  }

  /** One frame. */
  method AddFrame(g: Gathered, frame: Value, ghost ps: seq<Patch>) returns (r: Gathered)
    requires Holds(g, ps)
    ensures Holds(r, ps + FramePatches(frame))
  {
    hide Holds, ChoicesPatches, ChoicePatches, AsArray;
    r := g;
    var usage := AsNat(AndThen(Get(frame, "usage"), "completion_tokens"));
    if usage.Some? {
      r := r.(completionTokens := usage);
      PlainHolds(g, r, ps, Tokens(usage.value));
    }
    ghost var seen := ps + UsagePatches(frame);
    assert usage.None? ==> seen == ps;
    var choices := AsArray(Get(frame, "choices"));
    NoChoices(seen);
    for i := 0 to |choices|
      invariant Holds(r, seen + ChoicesPatches(choices[..i]))
    {
      r := AddChoice(r, choices[i], seen + ChoicesPatches(choices[..i]));
      ChoicesStep(choices, i);
      assert seen + ChoicesPatches(choices[..i]) + ChoicePatches(choices[i]) == seen + ChoicesPatches(choices[..i + 1]);
    }
    assert choices[..|choices|] == choices;
    assert seen + ChoicesPatches(choices) == ps + FramePatches(frame);
  }

  lemma {:induction false} NoChoices(ps: seq<Patch>)
    ensures forall cs: seq<Value> {:trigger ChoicesPatches(cs[..0])} :: ps + ChoicesPatches(cs[..0]) == ps
  {
  }

  lemma {:induction false} ChoicesStep(choices: seq<Value>, i: nat)
    requires i < |choices|
    ensures ChoicesPatches(choices[..i + 1]) == ChoicesPatches(choices[..i]) + ChoicePatches(choices[i])
  {
    assert choices[..i + 1][..i] == choices[..i];
  }

  /** `BTreeMap::into_values`: the values leave the map by ascending key. */
  method IntoValues<T>(m: map<nat, T>) returns (values: seq<T>)
    ensures |values| == |Ascending(m.Keys)|
    ensures forall i :: 0 <= i < |values| ==> Ascending(m.Keys)[i] in m && values[i] == m[Ascending(m.Keys)[i]]
  {
    var keys: set<nat> := m.Keys;
    values := [];
    ghost var order := Ascending(keys);
    while keys != {}
      invariant |values| <= |order| && order[|values|..] == Ascending(keys) && keys <= m.Keys
      invariant forall i :: 0 <= i < |values| ==> order[i] in m && values[i] == m[order[i]]
      decreases keys
    {
      LeastExists(keys);
      var k :| IsLeast(keys, k);
      assert k == Least(keys) == order[|values|..][0];
      assert order[|values| + 1..] == order[|values|..][1..];
      values := values + [m[k]];
      keys := keys - {k};
    }
  }

  /** `assemble`. */
  method Assemble(g: Gathered, ghost ps: seq<Patch>) returns (completion: Completion)
    requires Holds(g, ps)
    ensures completion == Assembled(ps)
  {
    hide AllContent, LastFinish, LastTokens, Fragments, Indices, CallOf, Ascending;
    var values := IntoValues(g.toolCalls);
    assert values == CallsOf(ps);
    completion := Completion(g.content, values, g.finishReason, g.completionTokens);
  }

  lemma {:induction false} ReadOne(reader: Reader, lines: seq<string>, piece: seq<byte>, pieces: seq<seq<byte>>)
    requires lines == DecodeLines(reader, pieces)
    ensures DecodeLines(reader, pieces + [piece]) == lines + [reader.lossy(piece + [NEWLINE])]
    ensures ReadLines(reader.parse, lines).Reading? ==>
      var ps := ReadLines(reader.parse, lines).patches;
      ReadLines(reader.parse, lines + [reader.lossy(piece + [NEWLINE])]) ==
        match ReadLine(reader.parse, reader.lossy(piece + [NEWLINE]))
        case Skip => Reading(ps)
        case End => Finished(ps)
        case Bad => Failed
        case Data(frame) => Reading(ps + FramePatches(frame))
  {
    hide ReadLine, FramePatches;
    assert (pieces + [piece])[..|pieces|] == pieces;
    var line := reader.lossy(piece + [NEWLINE]);
    assert (lines + [line])[..|lines|] == lines;
  }

  lemma {:induction false} ReadAppend(parse: string -> Option<Value>, a: seq<string>, b: seq<string>)
    ensures !ReadLines(parse, a).Reading? ==> ReadLines(parse, a + b) == ReadLines(parse, a)
  {
    if b == [] {
      assert a + b == a;
    } else {
      ReadAppend(parse, a, b[..|b| - 1]);
      assert (a + b)[..|a + b| - 1] == a + b[..|b| - 1];
    }
  }

  lemma {:induction false} DecodeLinesAppend(reader: Reader, a: seq<seq<byte>>, b: seq<seq<byte>>)
    ensures DecodeLines(reader, a + b) == DecodeLines(reader, a) + DecodeLines(reader, b)
  {
    if b == [] {
      assert a + b == a;
    } else {
      DecodeLinesAppend(reader, a, b[..|b| - 1]);
      assert (a + b)[..|a + b| - 1] == a + b[..|b| - 1];
    }
  }

  /** A client that has stopped reading stays where it is. */
  lemma {:induction false} ReadMore(reader: Reader, a: seq<seq<byte>>, b: seq<seq<byte>>)
    requires !ReadLines(reader.parse, DecodeLines(reader, a)).Reading?
    ensures ReadLines(reader.parse, DecodeLines(reader, a + b)) == ReadLines(reader.parse, DecodeLines(reader, a))
  {
    DecodeLinesAppend(reader, a, b);
    ReadAppend(reader.parse, DecodeLines(reader, a), DecodeLines(reader, b));
  }

  ghost function ReadPieces(reader: Reader, pieces: seq<seq<byte>>): Progress {
    ReadLines(reader.parse, DecodeLines(reader, pieces))
  }

  lemma {:induction false} ReadPiece(reader: Reader, pieces: seq<seq<byte>>, piece: seq<byte>, rest: seq<seq<byte>>, line: string)
    requires ReadPieces(reader, pieces).Reading? && line == reader.lossy(piece + [NEWLINE])
    ensures
      var ps := ReadPieces(reader, pieces).patches;
      match ReadLine(reader.parse, line)
      case Skip => ReadPieces(reader, pieces + [piece]) == Reading(ps)
      case End => ReadPieces(reader, pieces + ([piece] + rest)) == Finished(ps)
      case Bad => ReadPieces(reader, pieces + ([piece] + rest)) == Failed
      case Data(frame) => ReadPieces(reader, pieces + [piece]) == Reading(ps + FramePatches(frame))
    ensures pieces + ([piece] + rest) == pieces + [piece] + rest
  {
    hide ReadLine, FramePatches, ReadLines, DecodeLines;
    ReadOne(reader, DecodeLines(reader, pieces), piece, pieces);
    assert pieces + ([piece] + rest) == pieces + [piece] + rest;
    if !ReadPieces(reader, pieces + [piece]).Reading? {
      ReadMore(reader, pieces + [piece], rest);
    }
  }

  /** The loop over the complete lines of the buffer; `stop` is a `return` from within it. */
  method ReadBuffered(reader: Reader, buf0: seq<byte>, g0: Gathered, ghost ps0: seq<Patch>, ghost before: seq<seq<byte>>)
    returns (buf: seq<byte>, g: Gathered, ghost ps: seq<Patch>, stop: Option<Outcome>)
    requires Holds(g0, ps0) && ReadPieces(reader, before) == Reading(ps0)
    ensures match ReadPieces(reader, before + Lines(buf0, NEWLINE))
      case Reading(now) => stop == None && ps == now && Holds(g, ps) && buf == Tail(buf0, NEWLINE)
      case Finished(now) => stop == Some(Answer(Assembled(now)))
      case Failed => stop == Some(SseError)
  {
    hide ReadPieces, Holds, Lines, Tail, FramePatches, Trim, Assembled;
    buf, g, ps, stop := buf0, g0, ps0, None;
    ghost var passed := before;
    while true
      invariant Holds(g, ps) && ReadPieces(reader, passed) == Reading(ps) && stop == None
      invariant before + Lines(buf0, NEWLINE) == passed + Lines(buf, NEWLINE)
      invariant Tail(buf0, NEWLINE) == Tail(buf, NEWLINE)
      decreases |buf|
    {
      var pos := Find(buf, NEWLINE);
      NextLine(buf, NEWLINE);
      if pos == |buf| {
        assert passed + [] == passed;
        return;
      }
      var line := reader.lossy(buf[..pos + 1]);
      assert buf[..pos + 1] == buf[..pos] + [NEWLINE];
      ReadPiece(reader, passed, buf[..pos], Lines(buf[pos + 1..], NEWLINE), line);
      passed := passed + [buf[..pos]];
      buf := buf[pos + 1..];
      var stripped := StripPrefix(Trim(line), "data:");
      if stripped.None? {
        continue;
      }
      var payload := Trim(stripped.value);
      if payload == "[DONE]" {
        var completion := Assemble(g, ps);
        stop := Some(Answer(completion));
        return;
      }
      if payload == "" {
        continue;
      }
      var frame := reader.parse(payload);
      if frame.None? {
        stop := Some(SseError);
        return;
      }
      g := AddFrame(g, frame.value, ps);
      ps := ps + FramePatches(frame.value);
    }
  }

  /** `consume_stream`. */
  method ConsumeStream(reader: Reader, chunks: seq<seq<byte>>, broken: bool) returns (outcome: Outcome)
    ensures outcome == Consumed(reader, Concat(chunks), broken)
  {
    hide ReadLines, DecodeLines, Holds, Lines, Tail, Assembled;
    var buf: seq<byte> := [];
    var g := Gathered("", None, None, map[]);
    ghost var ps: seq<Patch> := [];
    StartsEmpty(reader, g);
    for i := 0 to |chunks|
      invariant Holds(g, ps) && ReadPieces(reader, Lines(Concat(chunks[..i]), NEWLINE)) == Reading(ps)
      invariant buf == Tail(Concat(chunks[..i]), NEWLINE)
    {
      ghost var sofar := Concat(chunks[..i]);
      assert chunks[..i + 1][..i] == chunks[..i];
      LinesAppend(sofar, chunks[i], NEWLINE);
      buf := buf + chunks[i];
      var stop;
      buf, g, ps, stop := ReadBuffered(reader, buf, g, ps, Lines(sofar, NEWLINE));
      if stop.Some? {
        ConcatSplit(chunks, i + 1);
        ghost var rest := Concat(chunks[i + 1..]);
        LinesAppend(sofar + chunks[i], rest, NEWLINE);
        ReadMore(reader, Lines(sofar + chunks[i], NEWLINE), Lines(Tail(sofar + chunks[i], NEWLINE) + rest, NEWLINE));
        return stop.value;
      }
    }
    assert chunks[..|chunks|] == chunks;
    if broken {
      return SseError;
    }
    var completion := Assemble(g, ps);
    return Answer(completion);
  }

  lemma {:induction false} StartsEmpty(reader: Reader, g: Gathered)
    requires g == Gathered("", None, None, map[])
    ensures Holds(g, []) && ReadPieces(reader, Lines([], NEWLINE)) == Reading([]) && Tail([], NEWLINE) == []
  {
  }

  // -------------------------------------------------------------------------
  // Tool calls from fragments
  // -------------------------------------------------------------------------

  /** The tool calls come out one for each index seen, by ascending index, whatever the order and the
      interleaving of the fragments; the arguments of each are its own fragments put together. */
  lemma {:induction false} OneCallPerIndex(ps: seq<Patch>)
    ensures
      var order, calls := Ascending(Indices(ps)), CallsOf(ps);
      && |calls| == |order|
      && (forall i, j :: 0 <= i < j < |order| ==> order[i] < order[j])
      && (forall k :: k in order <==> exists i :: 0 <= i < |ps| && ps[i].Fragment? && ps[i].index == k)
      && (forall i :: 0 <= i < |order| ==> calls[i].arguments == AllArguments(Fragments(ps, order[i])) && calls[i].index == 0)
  {
    hide AllArguments, Fragments, Ascending, LastId, LastName;
    AscendingOrder(Indices(ps));
  }

  /** Fragments that arrive later only extend the arguments. */
  lemma {:induction false} ArgumentsExtend(ps: seq<Patch>, qs: seq<Patch>, index: nat)
    ensures Fragments(ps + qs, index) == Fragments(ps, index) + Fragments(qs, index)
    ensures AllArguments(Fragments(ps + qs, index)) == AllArguments(Fragments(ps, index)) + AllArguments(Fragments(qs, index))
    decreases |qs|
  {
    FragmentsAppend(ps, qs, index);
    ArgumentsAppend(Fragments(ps, index), Fragments(qs, index));
  }

  lemma {:induction false} FragmentsAppend(ps: seq<Patch>, qs: seq<Patch>, index: nat)
    ensures Fragments(ps + qs, index) == Fragments(ps, index) + Fragments(qs, index)
  {
    if qs == [] {
      assert ps + qs == ps;
    } else {
      FragmentsAppend(ps, qs[..|qs| - 1], index);
      assert (ps + qs)[..|ps + qs| - 1] == ps + qs[..|qs| - 1];
    }
  }

  lemma {:induction false} ArgumentsAppend(fs: seq<Patch>, gs: seq<Patch>)
    ensures AllArguments(fs + gs) == AllArguments(fs) + AllArguments(gs)
  {
    if gs == [] {
      assert fs + gs == fs && AllArguments(fs) + "" == AllArguments(fs);
    } else {
      ArgumentsAppend(fs, gs[..|gs| - 1]);
      assert (fs + gs)[..|fs + gs| - 1] == fs + gs[..|gs| - 1];
      var last := match gs[|gs| - 1] case Fragment(_, _, _, Some(arguments)) => arguments case _ => "";
      assert AllArguments(fs) + AllArguments(gs[..|gs| - 1]) + last == AllArguments(fs) + (AllArguments(gs[..|gs| - 1]) + last);
    }
  }

  // -------------------------------------------------------------------------
  // When further contributions change nothing
  // -------------------------------------------------------------------------

  /** The last id that the fragments give, if any; likewise the last name. */
  function IdGiven(fs: seq<Patch>): Option<string> {
    if fs == [] then None
    else match fs[|fs| - 1] case Fragment(_, Some(id), _, _) => Some(id) case _ => IdGiven(fs[..|fs| - 1])
  }

  function NameGiven(fs: seq<Patch>): Option<string> {
    if fs == [] then None
    else match fs[|fs| - 1] case Fragment(_, _, Some(name), _) => Some(name) case _ => NameGiven(fs[..|fs| - 1])
  }

  /** The contributions `qs`, after `ps`: no content; no finish reason or token count but the present one;
      no index not seen before; and for each index no arguments, and no id or name but the present one. */
  ghost predicate Inert(ps: seq<Patch>, qs: seq<Patch>) {
    && AllContent(qs) == "" && LastFinish(qs) in {None, LastFinish(ps)} && LastTokens(qs) in {None, LastTokens(ps)}
    && Indices(qs) <= Indices(ps)
    && forall k :: k in Indices(qs) ==> InertCall(Fragments(ps, k), Fragments(qs, k))
  }

  predicate InertCall(fs: seq<Patch>, gs: seq<Patch>) {
    AllArguments(gs) == "" && IdGiven(gs) in {None, Some(LastId(fs))} && NameGiven(gs) in {None, Some(LastName(fs))}
  }

  lemma {:induction false} ContentAppend(ps: seq<Patch>, qs: seq<Patch>)
    ensures AllContent(ps + qs) == AllContent(ps) + AllContent(qs)
  {
    if qs == [] {
      assert ps + qs == ps && AllContent(ps) + "" == AllContent(ps);
    } else {
      var front, q := qs[..|qs| - 1], qs[|qs| - 1];
      ContentAppend(ps, front);
      assert (ps + qs)[..|ps + qs| - 1] == ps + front;
      var text := match q case Content(text) => text case _ => "";
      assert AllContent(qs) == AllContent(front) + text;
      assert AllContent(ps + qs) == AllContent(ps + front) + text;
      assert AllContent(ps) + AllContent(front) + text == AllContent(ps) + (AllContent(front) + text);
    }
  }

  lemma {:induction false} LastAppend(ps: seq<Patch>, qs: seq<Patch>)
    ensures LastFinish(ps + qs) == if LastFinish(qs).Some? then LastFinish(qs) else LastFinish(ps)
    ensures LastTokens(ps + qs) == if LastTokens(qs).Some? then LastTokens(qs) else LastTokens(ps)
  {
    if qs == [] {
      assert ps + qs == ps;
    } else {
      LastAppend(ps, qs[..|qs| - 1]);
      assert (ps + qs)[..|ps + qs| - 1] == ps + qs[..|qs| - 1];
    }
  }

  lemma {:induction false} IndicesAppend(ps: seq<Patch>, qs: seq<Patch>)
    ensures Indices(ps + qs) == Indices(ps) + Indices(qs)
  {
    var all := ps + qs;
    forall k
      ensures k in Indices(all) <==> k in Indices(ps) || k in Indices(qs)
    {
      if i :| 0 <= i < |ps| && ps[i].Fragment? && ps[i].index == k {
        assert all[i] == ps[i];
      }
      if i :| 0 <= i < |qs| && qs[i].Fragment? && qs[i].index == k {
        assert all[|ps| + i] == qs[i];
      }
      if i :| 0 <= i < |all| && all[i].Fragment? && all[i].index == k {
        assert all[i] == if i < |ps| then ps[i] else qs[i - |ps|];
      }
    }
  }

  lemma {:induction false} NamesAppend(fs: seq<Patch>, gs: seq<Patch>)
    ensures LastId(fs + gs) == if IdGiven(gs).Some? then IdGiven(gs).value else LastId(fs)
    ensures LastName(fs + gs) == if NameGiven(gs).Some? then NameGiven(gs).value else LastName(fs)
  {
    if gs == [] {
      assert fs + gs == fs;
    } else {
      NamesAppend(fs, gs[..|gs| - 1]);
      assert (fs + gs)[..|fs + gs| - 1] == fs + gs[..|gs| - 1];
    }
  }

  lemma {:induction false} CallUnchanged(fs: seq<Patch>, gs: seq<Patch>)
    ensures CallOf(fs + gs) == CallOf(fs) <==> InertCall(fs, gs)
  {
    hide AllArguments, LastId, LastName, IdGiven, NameGiven;
    NamesAppend(fs, gs);
    ArgumentsAppend(fs, gs);
    var all, more := AllArguments(fs) + AllArguments(gs), AllArguments(gs);
    assert |all| == |AllArguments(fs)| + |more|;
    assert more == "" ==> all == AllArguments(fs);
  }

  lemma {:induction false} AscendingSize(s: set<nat>)
    ensures |Ascending(s)| == |s|
  {
    if s != {} {
      AscendingSize(s - {Least(s)});
    }
  }

  lemma {:induction false} SameSize<T>(a: set<T>, b: set<T>)
    requires a <= b && |a| == |b|
    ensures a == b
  {
    assert b == a + (b - a);
  }

  lemma {:induction false} CallsUnchanged(ps: seq<Patch>, qs: seq<Patch>)
    ensures CallsOf(ps + qs) == CallsOf(ps) <==>
      Indices(qs) <= Indices(ps) && forall k :: k in Indices(qs) ==> InertCall(Fragments(ps, k), Fragments(qs, k))
  {
    hide Indices, Ascending, Fragments, InertCall, CallOf;
    IndicesAppend(ps, qs);
    var before, after := Indices(ps), Indices(ps + qs);
    AscendingSize(before);
    AscendingSize(after);
    if CallsOf(ps + qs) == CallsOf(ps) {
      assert |CallsOf(ps + qs)| == |after| && |CallsOf(ps)| == |before|;
      SameSize(before, after);
      forall k | k in Indices(qs)
        ensures InertCall(Fragments(ps, k), Fragments(qs, k))
      {
        AscendingOrder(before);
        var i :| 0 <= i < |Ascending(before)| && Ascending(before)[i] == k;
        assert CallsOf(ps + qs)[i] == CallsOf(ps)[i];
        FragmentsAppend(ps, qs, k);
        CallUnchanged(Fragments(ps, k), Fragments(qs, k));
      }
    }
    if Indices(qs) <= Indices(ps) && forall k :: k in Indices(qs) ==> InertCall(Fragments(ps, k), Fragments(qs, k)) {
      assert after == before;
      forall i | 0 <= i < |Ascending(before)|
        ensures CallsOf(ps + qs)[i] == CallsOf(ps)[i]
      {
        var k := Ascending(before)[i];
        FragmentsAppend(ps, qs, k);
        if k in Indices(qs) {
          CallUnchanged(Fragments(ps, k), Fragments(qs, k));
        } else {
          NoFragments(qs, k);
          assert Fragments(ps, k) + [] == Fragments(ps, k);
        }
      }
    }
  }

  /** Further contributions leave the completion as it is exactly when they are inert. */
  lemma {:induction false} InertExactly(ps: seq<Patch>, qs: seq<Patch>)
    ensures Assembled(ps + qs) == Assembled(ps) <==> Inert(ps, qs)
  {
    hide AllContent, LastFinish, LastTokens, CallsOf, Indices, Fragments, InertCall;
    ContentAppend(ps, qs);
    LastAppend(ps, qs);
    CallsUnchanged(ps, qs);
    var all := AllContent(ps) + AllContent(qs);
    assert |all| == |AllContent(ps)| + |AllContent(qs)|;
    assert AllContent(qs) == "" ==> all == AllContent(ps);
  }
}
