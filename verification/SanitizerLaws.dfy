/** What a sanitized stream looks like: the upstream text, verbatim, up to at most one closing block. */
module SanitizerLaws {
  import opened Text
  import opened Wire
  import opened Repetition
  import opened Sanitizer

  function Unlines(lines: seq<string>): string {
    if lines == [] then "" else Unlines(lines[..|lines| - 1]) + lines[|lines| - 1] + "\n"
  }

  lemma {:induction false} UnlinesAppend(a: seq<string>, b: seq<string>)
    ensures Unlines(a + b) == Unlines(a) + Unlines(b)
  {
    if b == [] {
      assert a + b == a;
    } else {
      UnlinesAppend(a, b[..|b| - 1]);
      assert (a + b)[..|a + b| - 1] == a + b[..|b| - 1];
      assert Unlines(a) + Unlines(b[..|b| - 1]) + b[|b| - 1] + "\n" == Unlines(a) + (Unlines(b[..|b| - 1]) + b[|b| - 1] + "\n");
    }
  }

  lemma {:induction false} UnlinesOne(line: string)
    ensures Unlines([line]) == line + "\n"
  {
    assert [line][..0] == [] && "" + line == line;
  }

  /** Splitting into lines loses nothing. */
  lemma {:induction false} UnlinesLines(s: string)
    ensures Unlines(Lines(s, '\n')) + Tail(s, '\n') == s
    decreases |s|
  {
    hide Unlines, Lines, Tail;
    var k := Find(s, '\n');
    NextLine(s, '\n');
    if k < |s| {
      var head, rest := s[..k], s[k + 1..];
      UnlinesLines(rest);
      UnlinesAppend([head], Lines(rest, '\n'));
      UnlinesOne(head);
      calc {
        Unlines(Lines(s, '\n')) + Tail(s, '\n');
        head + "\n" + Unlines(Lines(rest, '\n')) + Tail(rest, '\n');
        { Regroup(head + "\n", Unlines(Lines(rest, '\n')), Tail(rest, '\n')); }
        head + "\n" + rest;
        { assert s[k..k + 1] == "\n"; }
        s;
      }
    } else {
      UnlinesEmpty();
      assert "" + s == s;
    }
  }

  lemma {:induction false} Regroup(a: string, b: string, c: string)
    ensures a + b + c == a + (b + c)
  {
  }

  lemma {:induction false} UnlinesEmpty()
    ensures Unlines([]) == ""
  {
  }

  /** The line on which a closed stream ended, the detector state before it, and its block. */
  ghost predicate ClosesAt(lib: Lib, lines: seq<string>, out: string, reason: Reason, k: nat, w: Window, block: string) {
    && k < |lines| && ProcessLines(lib, lines[..k]) == Open(Unlines(lines[..k]), w)
    && Process(lib, w, lines[k]) == Special(reason, block) && out == Unlines(lines[..k]) + block
  }

  ghost predicate Closes(lib: Lib, lines: seq<string>, out: string, reason: Reason) {
    exists k: nat, w, block :: ClosesAt(lib, lines, out, reason, k, w, block)
  }

  lemma {:induction false} LinesShape(lib: Lib, lines: seq<string>)
    ensures match ProcessLines(lib, lines)
      case Open(out, _) => out == Unlines(lines)
      case Closed(out, reason) => Closes(lib, lines, out, reason)
      case Lost => true
  {
    if lines != [] {
      hide Process, Closes, ClosesAt;
      var n := |lines| - 1;
      LinesShape(lib, lines[..n]);
      match ProcessLines(lib, lines[..n]) {
        case Open(out, w) =>
          ClosesNow(lib, lines, w);
        case Closed(out, reason) =>
          ClosedBefore(lib, lines, out, reason);
        case Lost =>
      }
    }
  }

  lemma {:induction false} ClosesNow(lib: Lib, lines: seq<string>, w: Window)
    requires lines != []
    requires ProcessLines(lib, lines[..|lines| - 1]) == Open(Unlines(lines[..|lines| - 1]), w)
    ensures
      var processed := Process(lib, w, lines[|lines| - 1]);
      processed.Special? ==> Closes(lib, lines, Unlines(lines[..|lines| - 1]) + processed.block, processed.reason)
  {
    hide Process, ProcessLines, Unlines;
    var processed := Process(lib, w, lines[|lines| - 1]);
    if processed.Special? {
      assert ClosesAt(lib, lines, Unlines(lines[..|lines| - 1]) + processed.block, processed.reason, |lines| - 1, w, processed.block);
    }
  }

  lemma {:induction false} ClosedBefore(lib: Lib, lines: seq<string>, out: string, reason: Reason)
    requires lines != [] && Closes(lib, lines[..|lines| - 1], out, reason)
    ensures Closes(lib, lines, out, reason)
  {
    hide Process, ProcessLines, Unlines;
    var n := |lines| - 1;
    var k: nat, w, block :| ClosesAt(lib, lines[..n], out, reason, k, w, block);
    assert lines[..n][..k] == lines[..k];
    assert ClosesAt(lib, lines, out, reason, k, w, block);
  }

  /** An upstream failure in the middle of a stream. */
  predicate Fails(v: Value) {
    v.Obj? && "error" in v.fields && "choices" !in v.fields
  }

  /** The blocks that may end a stream. */
  ghost predicate IsTerminal(lib: Lib, reason: Reason, block: string) {
    match reason
    case DoneLine => block == "data: [DONE]\n\n"
    case ErrorFrame => exists v :: Fails(v) && block == "event: error\ndata: " + lib.render(v) + "\n\n"
    case Breaker => exists verdict: Verdict :: block == "data: " + lib.breaker(verdict) + "\n\ndata: [DONE]\n\n"
  }

  lemma {:induction false} SpecialIsTerminal(lib: Lib, w: Window, line: string)
    ensures Process(lib, w, line).Special? ==> IsTerminal(lib, Process(lib, w, line).reason, Process(lib, w, line).block)
  {
    hide Trim, Step, TokenText, Frame;
    var frame := Frame(lib, line);
    if frame.Some? {
      var verdict := Step(w, TokenText(frame.value)).1;
      BreakerBlockIs(lib, verdict);
      assert ErrorBlock(lib, frame.value) == "event: error\ndata: " + lib.render(frame.value) + "\n\n";
    }
  }

  lemma {:induction false} BreakerBlockIs(lib: Lib, verdict: Verdict)
    ensures BreakerBlock(lib, verdict) == "data: " + lib.breaker(verdict) + "\n\ndata: [DONE]\n\n"
  {
    assert "\n\ndata: [DONE]\n\n" == "\n\n" + DONE_BLOCK;
  }

  function WholeText(lib: Lib, bytes: seq<byte>): string {
    Received(lib, bytes) + HeldBack(lib, bytes)
  }

  /** Some complete lines of the text, verbatim, and one closing block. */
  ghost predicate CutAfter(lib: Lib, text: string, out: string, reason: Reason, p: nat) {
    && p <= |text| && (p > 0 ==> text[p - 1] == '\n') && text[..p] <= out && IsTerminal(lib, reason, out[p..])
  }

  lemma {:induction false} CutHere(lib: Lib, text: string, before: string, rest: string, block: string, reason: Reason)
    requires text == before + rest && IsTerminal(lib, reason, block)
    requires before != "" ==> before[|before| - 1] == '\n'
    ensures CutAfter(lib, text, before + block, reason, |before|)
  {
    hide IsTerminal;
    assert (before + block)[|before|..] == block;
    assert text[..|before|] == before;
  }

  lemma {:induction false} UnlinesEnds(lines: seq<string>)
    ensures Unlines(lines) != "" ==> Unlines(lines)[|Unlines(lines)| - 1] == '\n'
  {
  }

  /** A stream that nothing closed is the upstream text, with its last newline put in if missing. A
      stream that something closed is the text of some lines, verbatim, followed by that closing
      block and by nothing else. */
  lemma {:induction false} VerbatimThenTerminal(lib: Lib, bytes: seq<byte>)
    ensures
      var text := WholeText(lib, bytes);
      match Sanitized(lib, bytes)
      case Open(out, _) => out == if text == "" || text[|text| - 1] == '\n' then text else text + "\n"
      case Closed(out, reason) => exists p :: CutAfter(lib, text, out, reason, p)
      case Lost => true
  {
    hide ProcessLines, Process, Lines, Tail, Unlines, Decode, IsTerminal, CutAfter, Closes;
    var received, text := Received(lib, bytes), WholeText(lib, bytes);
    var lines, line := Lines(received, '\n'), LastLine(lib, bytes);
    UnlinesLines(received);
    assert Unlines(lines) + line == text;
    LinesShape(lib, lines);
    match Fed(lib, bytes) {
      case Open(out, w) =>
        UnlinesEnds(lines);
        OpenText(out, line, text);
        var processed := Process(lib, w, line);
        if line != "" && processed.Special? {
          SpecialIsTerminal(lib, w, line);
          CutHere(lib, text, out, line, processed.block, processed.reason);
        }
      case Closed(out, reason) =>
        ClosedShape(lib, lines, line, out, reason);
      case Lost =>
    }
  }

  lemma {:induction false} OpenText(out: string, line: string, text: string)
    requires text == out + line && (out != "" ==> out[|out| - 1] == '\n')
    ensures (if line == "" then out else out + Ended(line)) == if text == "" then "" else Ended(text)
  {
    if line != "" {
      assert text[|text| - 1] == line[|line| - 1];
      assert out + (line + "\n") == out + line + "\n";
    }
  }

  lemma {:induction false} ClosedShape(lib: Lib, lines: seq<string>, line: string, out: string, reason: Reason)
    requires Closes(lib, lines, out, reason)
    ensures exists p :: CutAfter(lib, Unlines(lines) + line, out, reason, p)
  {
    hide Process, ProcessLines, Unlines, IsTerminal, CutAfter;
    var k: nat, w, block :| ClosesAt(lib, lines, out, reason, k, w, block);
    SpecialIsTerminal(lib, w, lines[k]);
    assert lines == lines[..k] + lines[k..];
    UnlinesAppend(lines[..k], lines[k..]);
    UnlinesEnds(lines[..k]);
    Regroup(Unlines(lines[..k]), Unlines(lines[k..]), line);
    CutHere(lib, Unlines(lines) + line, Unlines(lines[..k]), Unlines(lines[k..]) + line, block, reason);
  }

  /** Nothing the upstream sends after the closing block has any effect. */
  lemma {:induction false} ClosedForGood(lib: Lib, a: seq<byte>, b: seq<byte>)
    requires Fed(lib, a).Closed?
    ensures Sanitized(lib, a + b) == Sanitized(lib, a) == Fed(lib, a)
  {
    hide ProcessLines, Process, Lines, Tail, Decode;
    ReceivedAppend(lib, a, b);
    var text := Decode(lib.decoder, Decode(lib.decoder, FRESH_DECODER, a).0, b).1;
    ProcessAppend(lib, Lines(Received(lib, a), '\n'), Lines(Tail(Received(lib, a), '\n') + text, '\n'));
  }

  // -------------------------------------------------------------------------
  // The repetition breaker
  // -------------------------------------------------------------------------

  /** What a passed-on line adds to the answer. */
  function TokenOf(lib: Lib, line: string): seq<string> {
    match Frame(lib, line) case None => [] case Some(v) => [TokenText(v)]
  }

  function TokensOf(lib: Lib, lines: seq<string>): seq<string> {
    if lines == [] then [] else TokensOf(lib, lines[..|lines| - 1]) + TokenOf(lib, lines[|lines| - 1])
  }

  lemma {:induction false} WatchedOneMore(texts: seq<string>, text: string)
    ensures Watched(texts).Some? && Step(Watched(texts).value, text).1 == Quiet ==>
      Watched(texts + [text]) == Some(Step(Watched(texts).value, text).0)
  {
    hide Step;
    assert (texts + [text])[..|texts|] == texts;
  }

  lemma {:induction false} PassedIsWatched(lib: Lib, w: Window, line: string)
    ensures Process(lib, w, line).Pass? ==>
      match Frame(lib, line)
      case None => Process(lib, w, line).window == w
      case Some(v) => Step(w, TokenText(v)) == (Process(lib, w, line).window, Quiet)
  {
    hide Step, Trim, Frame, TokenText, IsErrorFrame, ErrorBlock, BreakerBlock;
  }

  lemma {:induction false} TokensOneMore(lib: Lib, lines: seq<string>, line: string)
    ensures TokensOf(lib, lines + [line]) == TokensOf(lib, lines) + TokenOf(lib, line)
  {
    hide TokenOf;
    assert (lines + [line])[..|lines|] == lines;
  }

  lemma {:induction false} WatchedLine(lib: Lib, texts: seq<string>, w: Window, line: string)
    requires Watched(texts) == Some(w) && Process(lib, w, line).Pass?
    ensures Watched(texts + TokenOf(lib, line)) == Some(Process(lib, w, line).window)
  {
    hide Step, Frame, TokenText, Watched, Process;
    PassedIsWatched(lib, w, line);
    if Frame(lib, line).Some? {
      WatchedOneMore(texts, TokenText(Frame(lib, line).value));
    } else {
      assert texts + [] == texts;
    }
  }

  /** While the stream is open, the detector has watched exactly the answer's text. */
  lemma {:induction false} OpenIsWatched(lib: Lib, lines: seq<string>)
    ensures ProcessLines(lib, lines).Open? ==> Watched(TokensOf(lib, lines)) == Some(ProcessLines(lib, lines).window)
  {
    if lines == [] {
      NothingWatched();
    } else {
      hide TokensOf, TokenOf, Watched, Process;
      var front, line := lines[..|lines| - 1], lines[|lines| - 1];
      OpenIsWatched(lib, front);
      assert lines == front + [line];
      TokensOneMore(lib, front, line);
      if ProcessLines(lib, lines).Open? {
        WatchedLine(lib, TokensOf(lib, front), ProcessLines(lib, front).window, line);
      }
    }
  }

  lemma {:induction false} NothingWatched()
    ensures Watched([]) == Some(NEW_WINDOW)
  {
  }

  /** On an ASCII answer the breaker closes the stream at a frame exactly when the unbounded detector
      would: a run in the answer so far reaches its limit within the frame, or the answer with the
      frame ends in forty copies of a unit. The frame is never lost to a panic. */
  lemma {:induction false} BreakerExactly(lib: Lib, lines: seq<string>, line: string)
    requires ProcessLines(lib, lines).Open? && Trim(line) != DONE_LINE
    requires Frame(lib, line).Some? && !IsErrorFrame(Frame(lib, line).value)
    requires Ascii(Concat(TokensOf(lib, lines)) + TokenText(Frame(lib, line).value))
    ensures
      var answer, text := Concat(TokensOf(lib, lines)), TokenText(Frame(lib, line).value);
      match Process(lib, ProcessLines(lib, lines).window, line)
      case Pass(_) => (forall k :: !FirstTrip(answer, text, k)) && !LoopsBelow(answer + text, MAX_UNIT + 1)
      case Special(reason, _) => reason == Breaker && ((exists k :: FirstTrip(answer, text, k)) || LoopsBelow(answer + text, MAX_UNIT + 1))
      case Crash => false
  {
    hide Step, Trim, Frame, TokenText, IsErrorFrame, Watched, ErrorBlock, BreakerBlock, FirstTrip, LoopOf, ProcessLines;
    OpenIsWatched(lib, lines);
    RunRefines(TokensOf(lib, lines), TokenText(Frame(lib, line).value));
  }

  /** A frame whose delta carries `text`. */
  function ContentFrame(text: string): Value {
    Obj(map["choices" := Arr([Obj(map["delta" := Obj(map["content" := Str(text)])])])])
  }

  lemma {:induction false} ContentToken(text: string)
    ensures TokenText(ContentFrame(text)) == text && !IsErrorFrame(ContentFrame(text))
  {
    var content, delta := map["content" := Str(text)], map["delta" := Obj(map["content" := Str(text)])];
    assert "content" in content && "delta" in delta;
  }

  /** Outside ASCII the proxy can go down: any frame, whatever else is in its text, that reads as a delta
      with 54 times a Chinese character is lost in the detector's panic, and the stream with it. */
  lemma {:induction false} ChineseFrameCrashes(lib: Lib, payload: string)
    requires "{" <= payload && Trim(payload) == payload
    requires lib.parse(payload) == Some(ContentFrame(Times('\U{4E2D}', 54)))
    ensures Process(lib, NEW_WINDOW, "data: " + payload) == Crash && ProcessLines(lib, ["data: " + payload]) == Lost
  {
    hide Trim, Step, TokenText, IsErrorFrame, Times, ContentFrame, ErrorBlock, BreakerBlock;
    var text, line := Times('\U{4E2D}', 54), "data: " + payload;
    LastVisible(payload);
    TrimFixed(line);
    assert line[|"data: "|..] == payload && line[6] == '{';
    ContentToken(text);
    ChinesePanics();
    assert [line][..0] == [];
    assert ProcessLines(lib, []) == Open("", NEW_WINDOW);
  }

  lemma {:induction false} LastVisible(s: string)
    requires s != "" && Trim(s) == s
    ensures !IsSpace(s[|s| - 1])
  {
    TrimEndKeeps(TrimStart(s));
  }

  // -------------------------------------------------------------------------
  // Which line ends a stream, and with what
  // -------------------------------------------------------------------------

  /** The line is a frame whose payload parses to `v`. */
  predicate Carries(lib: Lib, line: string, v: Value) {
    var t := Trim(line);
    "data: " <= t && "{" <= Trim(t[6..]) && lib.parse(Trim(t[6..])) == Some(v)
  }

  /** The line says that the stream is over, or that it failed. */
  ghost predicate Ends(lib: Lib, line: string) {
    Trim(line) == "data: [DONE]" || exists v :: Carries(lib, line, v) && Fails(v)
  }

  /** None of these lines ends the stream, and the repetition detector is quiet on their text. */
  ghost predicate Flows(lib: Lib, lines: seq<string>) {
    && (forall i :: 0 <= i < |lines| ==> !Ends(lib, lines[i]))
    && Watched(TokensOf(lib, lines)).Some?
  }

  /** What the repetition detector answers to the frame `v` after those lines. */
  function Alarm(lib: Lib, lines: seq<string>, v: Value): Verdict {
    match Watched(TokensOf(lib, lines))
    case None => Quiet
    case Some(w) => Step(w, TokenText(v)).1
  }

  /** Line `k` is the first that does not flow, for that reason, and `block` is what is said instead. */
  ghost predicate Stops(lib: Lib, lines: seq<string>, k: nat, reason: Reason, block: string) {
    && k < |lines| && Flows(lib, lines[..k])
    && match reason
       case DoneLine => Trim(lines[k]) == "data: [DONE]" && block == "data: [DONE]\n\n"
       case ErrorFrame =>
         exists v :: Carries(lib, lines[k], v) && Fails(v) && block == "event: error\ndata: " + lib.render(v) + "\n\n"
       case Breaker =>
         exists v :: Carries(lib, lines[k], v) && !Fails(v) && TripsOn(lib, lines[..k], v, block)
  }

  predicate TripsOn(lib: Lib, lines: seq<string>, v: Value, block: string) {
    var alarm := Alarm(lib, lines, v);
    alarm != Quiet && alarm != Panicked && block == "data: " + lib.breaker(alarm) + "\n\ndata: [DONE]\n\n"
  }

  /** Line `k` is the first that does not flow, because the detector panics on it. */
  ghost predicate Panics(lib: Lib, lines: seq<string>, k: nat) {
    && k < |lines| && Flows(lib, lines[..k])
    && exists v :: Carries(lib, lines[k], v) && !Fails(v) && Alarm(lib, lines[..k], v) == Panicked
  }

  lemma {:induction false} FrameIsCarried(lib: Lib, line: string, v: Value)
    ensures Frame(lib, line) == Some(v) <==> Carries(lib, line, v)
    ensures Trim(line) == "data: [DONE]" ==> !Carries(lib, line, v)
    ensures IsErrorFrame(v) <==> Fails(v)
  {
    hide Trim;
    if Trim(line) == "data: [DONE]" {
      assert Trim(line)[6..] == "[DONE]";
      TrimFixed("[DONE]");
    }
  }

  /** One line, read without `Process`. */
  lemma {:induction false} LineIs(lib: Lib, lines: seq<string>, w: Window, line: string)
    requires Watched(TokensOf(lib, lines)) == Some(w)
    ensures Process(lib, w, line) == Crash <==> exists v :: Carries(lib, line, v) && !Fails(v) && Alarm(lib, lines, v) == Panicked
    ensures Process(lib, w, line).Pass? <==> !Ends(lib, line) && forall v :: Carries(lib, line, v) ==> Alarm(lib, lines, v) == Quiet
    ensures forall block :: Process(lib, w, line) == Special(DoneLine, block) <==>
      Trim(line) == "data: [DONE]" && block == "data: [DONE]\n\n"
    ensures forall block :: Process(lib, w, line) == Special(ErrorFrame, block) <==>
      exists v :: Carries(lib, line, v) && Fails(v) && block == "event: error\ndata: " + lib.render(v) + "\n\n"
    ensures forall block :: Process(lib, w, line) == Special(Breaker, block) <==>
      exists v :: Carries(lib, line, v) && !Fails(v) && TripsOn(lib, lines, v, block)
  {
    hide Trim, Step, TokenText, Frame, Watched, TokensOf, Carries, Fails, IsErrorFrame, BreakerBlock;
    forall v
      ensures Frame(lib, line) == Some(v) <==> Carries(lib, line, v)
      ensures Trim(line) == "data: [DONE]" ==> !Carries(lib, line, v)
      ensures IsErrorFrame(v) <==> Fails(v)
      ensures BreakerBlock(lib, Alarm(lib, lines, v)) == "data: " + lib.breaker(Alarm(lib, lines, v)) + "\n\ndata: [DONE]\n\n"
    {
      FrameIsCarried(lib, line, v);
      BreakerBlockIs(lib, Alarm(lib, lines, v));
    }
  }

  lemma {:induction false} FlowsOne(lib: Lib, lines: seq<string>, line: string)
    requires Flows(lib, lines)
    ensures Flows(lib, lines + [line]) <==> !Ends(lib, line) && forall v :: Carries(lib, line, v) ==> Alarm(lib, lines, v) == Quiet
  {
    hide Trim, Step, TokenText, Frame, Watched, TokensOf, Carries, Ends;
    TokensOneMore(lib, lines, line);
    var texts := TokensOf(lib, lines);
    if Frame(lib, line).None? {
      assert texts + [] == texts;
    } else {
      WatchedExactly(texts, TokenText(Frame(lib, line).value));
    }
    forall v
      ensures Frame(lib, line) == Some(v) <==> Carries(lib, line, v)
    {
      FrameIsCarried(lib, line, v);
    }
    assert (lines + [line])[|lines|] == line;
    assert forall i :: 0 <= i < |lines| ==> (lines + [line])[i] == lines[i];
  }

  lemma {:induction false} WatchedExactly(texts: seq<string>, text: string)
    requires Watched(texts).Some?
    ensures Watched(texts + [text]).Some? <==> Step(Watched(texts).value, text).1 == Quiet
  {
    hide Step;
    assert (texts + [text])[..|texts|] == texts;
  }

  lemma {:induction false} FlowsPrefix(lib: Lib, lines: seq<string>, k: nat)
    requires k <= |lines| && Flows(lib, lines)
    ensures Flows(lib, lines[..k])
  {
    hide Ends, Watched, TokensOf;
    if k < |lines| {
      var front := lines[..|lines| - 1];
      WatchedPrefix(lib, lines);
      FlowsPrefix(lib, front, k);
      assert front[..k] == lines[..k];
    } else {
      assert lines[..k] == lines;
    }
  }

  lemma {:induction false} WatchedPrefix(lib: Lib, lines: seq<string>)
    requires lines != [] && Watched(TokensOf(lib, lines)).Some?
    ensures Watched(TokensOf(lib, lines[..|lines| - 1])).Some?
  {
    hide Frame, TokenText, Step, TokensOf;
    var front, line := lines[..|lines| - 1], lines[|lines| - 1];
    assert lines == front + [line];
    TokensOneMore(lib, front, line);
    var texts := TokensOf(lib, front);
    if TokenOf(lib, line) == [] {
      assert texts + [] == texts;
    } else {
      assert (texts + TokenOf(lib, line))[..|texts|] == texts;
    }
  }

  /** The lines so far all flow exactly while the stream is open. */
  lemma {:induction false} OpenExactly(lib: Lib, lines: seq<string>)
    ensures ProcessLines(lib, lines).Open? <==> Flows(lib, lines)
  {
    hide Process, Ends, TokensOf, Watched, Carries, Flows;
    if lines == [] {
      NothingFlows(lib);
    } else {
      var front, line := lines[..|lines| - 1], lines[|lines| - 1];
      assert lines == front + [line];
      OpenExactly(lib, front);
      if ProcessLines(lib, front).Open? {
        OpenIsWatched(lib, front);
        LineIs(lib, front, ProcessLines(lib, front).window, line);
        FlowsOne(lib, front, line);
      } else if Flows(lib, lines) {
        FlowsPrefix(lib, lines, |front|);
      }
    }
  }

  lemma {:induction false} NothingFlows(lib: Lib)
    ensures Flows(lib, [])
  {
  }

  /** Line `k` decides, whatever comes after it. */
  lemma {:induction false} DecidedAt(lib: Lib, lines: seq<string>, k: nat)
    requires k < |lines| && Flows(lib, lines[..k])
    ensures ProcessLines(lib, lines[..k]).Open?
    ensures
      var before := ProcessLines(lib, lines[..k]);
      && before == Open(Unlines(lines[..k]), before.window) && Watched(TokensOf(lib, lines[..k])) == Some(before.window)
      && match Process(lib, before.window, lines[k])
         case Pass(_) => true
         case Special(reason, block) => ProcessLines(lib, lines) == Closed(before.out + block, reason)
         case Crash => ProcessLines(lib, lines) == Lost
  {
    hide Process, ProcessLines, TokensOf, Watched, Flows, Unlines;
    var front := lines[..k];
    OpenExactly(lib, front);
    OpenIsWatched(lib, front);
    LinesShape(lib, front);
    ProcessOne(lib, front, lines[k]);
    ProcessAppend(lib, front + [lines[k]], lines[k + 1..]);
    assert front + [lines[k]] + lines[k + 1..] == lines;
  }

  /** Where the stream was closed, or lost. */
  lemma {:induction false} DecidedSomewhere(lib: Lib, lines: seq<string>) returns (k: nat)
    requires !ProcessLines(lib, lines).Open?
    ensures k < |lines| && Flows(lib, lines[..k]) && !Flows(lib, lines[..k + 1])
  {
    hide Process, Flows;
    var front := lines[..|lines| - 1];
    if ProcessLines(lib, front).Open? {
      k := |front|;
      OpenExactly(lib, front);
      OpenExactly(lib, lines);
      assert lines[..k + 1] == lines;
    } else {
      k := DecidedSomewhere(lib, front);
      assert front[..k] == lines[..k] && front[..k + 1] == lines[..k + 1];
    }
  }

  lemma {:induction false} StopsIsSpecial(lib: Lib, lines: seq<string>, k: nat, reason: Reason, block: string)
    requires k < |lines| && Flows(lib, lines[..k])
    ensures
      var before := ProcessLines(lib, lines[..k]);
      && before.Open?
      && (Stops(lib, lines, k, reason, block) <==> Process(lib, before.window, lines[k]) == Special(reason, block))
      && (Panics(lib, lines, k) <==> Process(lib, before.window, lines[k]) == Crash)
      && (Process(lib, before.window, lines[k]).Pass? <==> Flows(lib, lines[..k + 1]))
  {
    hide Process, ProcessLines, TokensOf, Watched, Flows, Unlines, Trim, TripsOn, Carries, Fails, Ends, Alarm;
    var front := lines[..k];
    DecidedAt(lib, lines, k);
    LineIs(lib, front, ProcessLines(lib, front).window, lines[k]);
    FlowsOne(lib, front, lines[k]);
    assert lines[..k + 1] == front + [lines[k]];
  }

  /** The lines of a whole stream, the unfinished last one included. */
  function AllLines(lib: Lib, bytes: seq<byte>): seq<string> {
    Lines(Received(lib, bytes), '\n') + if LastLine(lib, bytes) == "" then [] else [LastLine(lib, bytes)]
  }

  lemma {:induction false} SanitizedIs(lib: Lib, bytes: seq<byte>)
    ensures
      var whole := ProcessLines(lib, AllLines(lib, bytes));
      if whole.Open? then Sanitized(lib, bytes).Open? else Sanitized(lib, bytes) == whole
  {
    hide Process, ProcessLines, Lines, Tail, LastLine, Received;
    var lines, line := Lines(Received(lib, bytes), '\n'), LastLine(lib, bytes);
    if line == "" {
      assert lines + [] == lines;
    } else {
      ProcessOne(lib, lines, line);
      ProcessAppend(lib, lines, [line]);
    }
  }

  /** A stream stays open exactly when all its lines flow. It is closed, with this text and for this
      reason, exactly when its first line that does not flow is the end mark, an upstream failure, or a
      frame that trips the repetition detector: the text is the lines before it and the block for
      that reason. It is lost exactly when the detector panics on that line. */
  lemma {:induction false} ClosedExactly(lib: Lib, bytes: seq<byte>)
    ensures
      var lines := AllLines(lib, bytes);
      && (Sanitized(lib, bytes).Open? <==> Flows(lib, lines))
      && (Sanitized(lib, bytes).Lost? <==> exists k :: Panics(lib, lines, k))
      && forall out, reason :: Sanitized(lib, bytes) == Closed(out, reason) <==> ClosedBy(lib, lines, out, reason)
  {
    hide ProcessLines, Process, Flows, AllLines, Stops, Panics, Sanitized, ClosedBy;
    var lines := AllLines(lib, bytes);
    SanitizedIs(lib, bytes);
    OpenExactly(lib, lines);
    forall out, reason
      ensures ProcessLines(lib, lines) == Closed(out, reason) <==> ClosedBy(lib, lines, out, reason)
    {
      ClosedExactlyBy(lib, lines, out, reason);
    }
    LostExactly(lib, lines);
  }

  ghost predicate ClosedBy(lib: Lib, lines: seq<string>, out: string, reason: Reason) {
    exists k: nat, block :: StopsWith(lib, lines, k, reason, block, out)
  }

  ghost predicate StopsWith(lib: Lib, lines: seq<string>, k: nat, reason: Reason, block: string, out: string) {
    Stops(lib, lines, k, reason, block) && out == Unlines(lines[..k]) + block
  }

  lemma {:induction false} ClosedExactlyBy(lib: Lib, lines: seq<string>, out: string, reason: Reason)
    ensures ProcessLines(lib, lines) == Closed(out, reason) <==> ClosedBy(lib, lines, out, reason)
  {
    hide ProcessLines, Process, Flows, Unlines, Stops, StopsWith, Panics, TokensOf, Watched;
    if ProcessLines(lib, lines) == Closed(out, reason) {
      var k := DecidedSomewhere(lib, lines);
      DecidedAt(lib, lines, k);
      var processed := Process(lib, ProcessLines(lib, lines[..k]).window, lines[k]);
      StopsIsSpecial(lib, lines, k, reason, if processed.Special? then processed.block else "");
      StopsThere(lib, lines, k, reason, processed.block);
      assert StopsWith(lib, lines, k, reason, processed.block, out);
    }
    if ClosedBy(lib, lines, out, reason) {
      var k: nat, block :| StopsWith(lib, lines, k, reason, block, out);
      StopsFlows(lib, lines, k, reason, block, out);
      DecidedAt(lib, lines, k);
      StopsIsSpecial(lib, lines, k, reason, block);
    }
  }

  lemma {:induction false} StopsThere(lib: Lib, lines: seq<string>, k: nat, reason: Reason, block: string)
    requires k < |lines| && Stops(lib, lines, k, reason, block)
    ensures StopsWith(lib, lines, k, reason, block, Unlines(lines[..k]) + block)
  {
  }

  lemma {:induction false} StopsFlows(lib: Lib, lines: seq<string>, k: nat, reason: Reason, block: string, out: string)
    requires StopsWith(lib, lines, k, reason, block, out)
    ensures k < |lines| && Flows(lib, lines[..k])
    ensures Stops(lib, lines, k, reason, block) && out == Unlines(lines[..k]) + block
  {
  }

  lemma {:induction false} LostExactly(lib: Lib, lines: seq<string>)
    ensures ProcessLines(lib, lines) == Lost <==> exists k :: Panics(lib, lines, k)
  {
    hide ProcessLines, Process, Flows, Unlines, Stops, Panics, TokensOf, Watched;
    if ProcessLines(lib, lines) == Lost {
      var k := DecidedSomewhere(lib, lines);
      DecidedAt(lib, lines, k);
      StopsIsSpecial(lib, lines, k, Breaker, "");
      assert Panics(lib, lines, k);
    }
    if exists k :: Panics(lib, lines, k) {
      var k :| Panics(lib, lines, k);
      PanicsFlows(lib, lines, k);
      DecidedAt(lib, lines, k);
      StopsIsSpecial(lib, lines, k, Breaker, "");
    }
  }

  lemma {:induction false} PanicsFlows(lib: Lib, lines: seq<string>, k: nat)
    requires Panics(lib, lines, k)
    ensures k < |lines| && Flows(lib, lines[..k])
  {
  }

  // -------------------------------------------------------------------------
  // The text of a frame
  // -------------------------------------------------------------------------

  /** `delta` is that of the first choice of the frame. */
  predicate HasDelta(v: Value, delta: Value) {
    && v.Obj? && "choices" in v.fields
    && var choices := v.fields["choices"];
       || (choices.Arr? && choices.items != [] && choices.items[0].Obj? && "delta" in choices.items[0].fields
           && delta == choices.items[0].fields["delta"])
       || (choices.Obj? && "0" in choices.fields && choices.fields["0"].Obj? && "delta" in choices.fields["0"].fields
           && delta == choices.fields["0"].fields["delta"])
  }

  function TextAt(delta: Value, key: string): string {
    if delta.Obj? && key in delta.fields && delta.fields[key].Str? then delta.fields[key].s else ""
  }

  /** The breaker watches the content of the first delta, or when there is none its reasoning, under
      the one or the other name; a key that is there but holds no string hides the later ones. */
  lemma {:induction false} TokenTextIs(v: Value, delta: Value)
    ensures HasDelta(v, delta) && delta.Obj? ==>
      TokenText(v) ==
        TextAt(delta, if "content" in delta.fields then "content"
                      else if "reasoning" in delta.fields then "reasoning" else "reasoning_content")
    ensures HasDelta(v, delta) && !delta.Obj? ==> TokenText(v) == ""
    ensures (forall d :: !HasDelta(v, d)) ==> TokenText(v) == ""
  {
    if TokenText(v) != "" {
      var d := AndThen(match Get(v, "choices") case None => None case Some(c) => GetFirst(c), "delta").value;
      assert HasDelta(v, d);
    }
  }
}
