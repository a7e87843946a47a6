/** The streaming proxy's response sanitizer of `src/proxy/sanitize.rs`. */
module Sanitizer {
  import opened Text
  import opened Wire
  import opened Repetition

  /** The libraries the sanitizer leans on. `breaker` prints the frame that closes a runaway stream;
      it includes the clock. */
  datatype Lib = Lib(
    decoder: Decoder,
    parse: string -> Option<Value>,
    render: Value -> string,
    breaker: Verdict -> string)

  const DONE_LINE := "data: [DONE]"
  const DONE_BLOCK := "data: [DONE]\n\n"

  // -------------------------------------------------------------------------
  // One line
  // -------------------------------------------------------------------------

  /** What becomes of a line: passed on, replaced by the block that ends the stream, or the panic of
      the repetition detector. */
  datatype Processed = Pass(window: Window) | Special(reason: Reason, block: string) | Crash

  datatype Reason = DoneLine | ErrorFrame | Breaker

  /** The frame that a line carries, when it is a JSON object behind `data: `. */
  function Frame(lib: Lib, line: string): Option<Value> {
    match StripPrefix(Trim(line), "data: ")
    case None => None
    case Some(stripped) =>
      var payload := Trim(stripped);
      if "{" <= payload then lib.parse(payload) else None
  }

  predicate IsErrorFrame(v: Value) {
    Get(v, "error").Some? && Get(v, "choices").None?
  }

  /** The text that a frame adds to the answer, as the repetition breaker sees it. */
  function TokenText(v: Value): string {
    match AndThen(match Get(v, "choices") case None => None case Some(c) => GetFirst(c), "delta")
    case None => ""
    case Some(delta) =>
      var token :=
        if Get(delta, "content").Some? then Get(delta, "content")
        else if Get(delta, "reasoning").Some? then Get(delta, "reasoning")
        else Get(delta, "reasoning_content");
      if AsStr(token).Some? then AsStr(token).value else ""
  }

  function ErrorBlock(lib: Lib, v: Value): string {
    "event: error\ndata: " + lib.render(v) + "\n\n"
  }

  function BreakerBlock(lib: Lib, verdict: Verdict): string {
    "data: " + lib.breaker(verdict) + "\n\n" + DONE_BLOCK
  }

  function Process(lib: Lib, w: Window, line: string): Processed {
    if Trim(line) == DONE_LINE then Special(DoneLine, DONE_BLOCK)
    else
      match Frame(lib, line)
      case None => Pass(w)
      case Some(v) =>
        if IsErrorFrame(v) then Special(ErrorFrame, ErrorBlock(lib, v))
        else
          var (next, verdict) := Step(w, TokenText(v));
          match verdict
          case Quiet => Pass(next)
          case Panicked => Crash
          case _ => Special(Breaker, BreakerBlock(lib, verdict))
  }

  // -------------------------------------------------------------------------
  // A whole stream
  // -------------------------------------------------------------------------

  /** The stream so far: still open with what was written and the detector's state, closed after
      what was written, or lost in a panic. */
  datatype Progress = Open(out: string, window: Window) | Closed(out: string, reason: Reason) | Lost

  function ProcessLines(lib: Lib, lines: seq<string>): Progress {
    if lines == [] then Open("", NEW_WINDOW)
    else
      var line := lines[|lines| - 1];
      match ProcessLines(lib, lines[..|lines| - 1])
      case Open(out, w) =>
        (match Process(lib, w, line)
         case Pass(next) => Open(out + line + "\n", next)
         case Special(reason, block) => Closed(out + block, reason)
         case Crash => Lost)
      case other => other
  }

  function Received(lib: Lib, bytes: seq<byte>): string {
    Decode(lib.decoder, FRESH_DECODER, bytes).1
  }

  /** What the decoder still holds when the stream ends after `bytes`. */
  function HeldBack(lib: Lib, bytes: seq<byte>): string {
    lib.decoder.flush(Decode(lib.decoder, FRESH_DECODER, bytes).0)
  }

  /** What is fed, whatever the chunks. */
  function Fed(lib: Lib, bytes: seq<byte>): Progress {
    ProcessLines(lib, Lines(Received(lib, bytes), '\n'))
  }

  function LastLine(lib: Lib, bytes: seq<byte>): string {
    Tail(Received(lib, bytes), '\n') + HeldBack(lib, bytes)
  }

  function Ended(line: string): string {
    if line != "" && line[|line| - 1] == '\n' then line else line + "\n"
  }

  /** What a whole stream becomes. */
  function Sanitized(lib: Lib, bytes: seq<byte>): Progress {
    match Fed(lib, bytes)
    case Open(out, w) =>
      var line := LastLine(lib, bytes);
      if line == "" then Open(out, w)
      else
        (match Process(lib, w, line)
         case Pass(next) => Open(out + Ended(line), next)
         case Special(reason, block) => Closed(out + block, reason)
         case Crash => Lost)
    case other => other
  }

  /** Once closed or lost, a stream stays as it is. */
  lemma {:induction false} ProcessAppend(lib: Lib, lines: seq<string>, more: seq<string>)
    ensures !ProcessLines(lib, lines).Open? ==> ProcessLines(lib, lines + more) == ProcessLines(lib, lines)
  {
    if more == [] {
      assert lines + more == lines;
    } else {
      ProcessAppend(lib, lines, more[..|more| - 1]);
      assert (lines + more)[..|lines + more| - 1] == lines + more[..|more| - 1];
    }
  }

  lemma {:induction false} ProcessOne(lib: Lib, lines: seq<string>, line: string)
    ensures ProcessLines(lib, lines).Open? ==>
      var before := ProcessLines(lib, lines);
      ProcessLines(lib, lines + [line]) ==
        match Process(lib, before.window, line)
        case Pass(next) => Open(before.out + line + "\n", next)
        case Special(reason, block) => Closed(before.out + block, reason)
        case Crash => Lost
  {
    hide Process;
    assert (lines + [line])[..|lines|] == lines;
  }

  lemma {:induction false} ReceivedAppend(lib: Lib, a: seq<byte>, b: seq<byte>)
    ensures
      var (state, text) := Decode(lib.decoder, Decode(lib.decoder, FRESH_DECODER, a).0, b);
      && Decode(lib.decoder, FRESH_DECODER, a + b).0 == state
      && Lines(Received(lib, a + b), '\n')
         == Lines(Received(lib, a), '\n') + Lines(Tail(Received(lib, a), '\n') + text, '\n')
      && Tail(Received(lib, a + b), '\n') == Tail(Tail(Received(lib, a), '\n') + text, '\n')
  {
    hide Lines, Tail, Decode;
    DecodeAppend(lib.decoder, FRESH_DECODER, a, b);
    var text := Decode(lib.decoder, Decode(lib.decoder, FRESH_DECODER, a).0, b).1;
    LinesAppend(Received(lib, a), text, '\n');
  }

  // -------------------------------------------------------------------------
  // The sanitizer
  // -------------------------------------------------------------------------

  class SseSanitizer {
    const lib: Lib
    const detector: RepetitionDetector
    var decoder: nat
    var lineBuf: string
    var done: bool
    /** All bytes fed, and all text returned. */
    ghost var fed: seq<byte>
    ghost var written: string

    ghost predicate Valid()
      reads this, detector
    {
      match Fed(lib, fed)
         case Open(out, w) =>
           && !done && written == out && detector.State() == w
           && decoder == Decode(lib.decoder, FRESH_DECODER, fed).0
           && lineBuf == Tail(Received(lib, fed), '\n')
         case Closed(out, _) => done && written == out
         case Lost => false
    }

    constructor (lib: Lib)
      ensures Valid() && this.lib == lib && fresh(detector) && fed == [] && written == ""
    {
      this.lib := lib;
      detector := new RepetitionDetector();
      decoder, lineBuf, done := FRESH_DECODER, "", false;
      fed, written := [], "";
    }

    /** `process_line`. */
    method ProcessLine(line: string) returns (special: Option<string>, crashed: bool)
      modifies this`done, detector
      ensures match Process(lib, old(detector.State()), line)
        case Pass(w) => special == None && !crashed && done == old(done) && detector.State() == w
        case Special(_, block) => special == Some(block) && !crashed && done
        case Crash => crashed
    {
      hide Trim, Step;
      crashed, special := false, None;
      var trimmed := Trim(line);
      if trimmed == DONE_LINE {
        done := true;
        return Some(DONE_BLOCK), false;
      }
      var stripped := StripPrefix(trimmed, "data: ");
      if stripped.Some? {
        var payload := Trim(stripped.value);
        if "{" <= payload {
          var parsed := lib.parse(payload);
          if parsed.Some? {
            if IsErrorFrame(parsed.value) {
              done := true;
              return Some(ErrorBlock(lib, parsed.value)), false;
            }
            var tokenText := TokenText(parsed.value);
            var verdict := detector.Feed(tokenText);
            if verdict == Panicked {
              return None, true;
            }
            if verdict != Quiet {
              done := true;
              return Some(BreakerBlock(lib, verdict)), false;
            }
          }
        }
      }
    }

    /** The decoded text of a chunk, line by line. */
    method SplitLines(ghost before: seq<string>, ghost ready: string) returns (out: string, crashed: bool)
      requires !done
      requires ProcessLines(lib, before) == Open(ready, detector.State())
      modifies this`done, this`lineBuf, detector
      ensures match ProcessLines(lib, before + Lines(old(lineBuf), '\n'))
        case Open(total, w) =>
          !crashed && !done && total == ready + out && detector.State() == w && lineBuf == Tail(old(lineBuf), '\n')
        case Closed(total, _) => !crashed && done && total == ready + out
        case Lost => crashed
    {
      hide ProcessLines, Process, Lines, Tail;
      out, crashed := "", false;
      ghost var passed := before;
      assert before + Lines(lineBuf, '\n') == passed + Lines(lineBuf, '\n');
      assert ready + "" == ready;
      while true
        invariant !done && !crashed
        invariant before + Lines(old(lineBuf), '\n') == passed + Lines(lineBuf, '\n')
        invariant Tail(old(lineBuf), '\n') == Tail(lineBuf, '\n')
        invariant ProcessLines(lib, passed) == Open(ready + out, detector.State())
        decreases |lineBuf|
      {
        var pos := Find(lineBuf, '\n');
        NextLine(lineBuf, '\n');
        if pos == |lineBuf| {
          assert passed + [] == passed;
          return;
        }
        var line := lineBuf[..pos];
        lineBuf := lineBuf[pos + 1..];
        assert passed + ([line] + Lines(lineBuf, '\n')) == passed + [line] + Lines(lineBuf, '\n');
        ProcessOne(lib, passed, line);
        ProcessAppend(lib, passed + [line], Lines(lineBuf, '\n'));
        var special;
        special, crashed := ProcessLine(line);
        if crashed {
          return;
        }
        if special.Some? {
          assert ready + out + special.value == ready + (out + special.value);
          out := out + special.value;
          return;
        }
        assert ready + out + line + "\n" == ready + (out + line + "\n");
        out := out + line + "\n";
        passed := passed + [line];
      }
    }

    /** `feed`. A panic loses what the call had gathered, and the sanitizer with it. */
    method Feed(chunk: seq<byte>) returns (out: string, crashed: bool)
      requires Valid()
      modifies this, detector
      ensures fed == old(fed) + chunk
      ensures crashed <==> Fed(lib, fed) == Lost
      ensures !crashed ==> Valid() && written == old(written) + out
    {
      hide ProcessLines, Process, Lines, Tail, Decode;
      ghost var before := Lines(Received(lib, fed), '\n');
      ReceivedAppend(lib, fed, chunk);
      fed := fed + chunk;
      out, crashed := "", false;
      if done {
        ghost var text := Decode(lib.decoder, Decode(lib.decoder, FRESH_DECODER, old(fed)).0, chunk).1;
        ProcessAppend(lib, before, Lines(Tail(Received(lib, old(fed)), '\n') + text, '\n'));
        assert written + "" == written;
        return;
      }
      var (state, text) := Decode(lib.decoder, decoder, chunk);
      decoder := state;
      if text == "" {
        NothingNew(lineBuf, Received(lib, old(fed)), before);
        assert written + "" == written;
        return;
      }
      lineBuf := lineBuf + text;
      out, crashed := SplitLines(before, written);
      written := written + out;
    }

    /** `finish`: whatever is left is one more line. */
    method Finish() returns (out: string, crashed: bool)
      requires Valid()
      modifies this, detector
      ensures fed == old(fed)
      ensures match Sanitized(lib, fed)
        case Lost => crashed
        case ended => !crashed && written == ended.out == old(written) + out
    {
      hide ProcessLines, Process, Lines, Tail, Decode;
      out, crashed := "", false;
      assert written + "" == written;
      if done {
        return;
      }
      lineBuf := lineBuf + lib.decoder.flush(decoder);
      if lineBuf != "" {
        var line := lineBuf;
        lineBuf := "";
        var special;
        special, crashed := ProcessLine(line);
        if crashed {
          return;
        }
        if special.Some? {
          out := special.value;
        } else {
          out := line;
          if line[|line| - 1] != '\n' {
            out := out + "\n";
          }
        }
        written := written + out;
      }
    }
  }

  /** A client of the proxy, whatever the chunks the upstream delivers. */
  method SanitizeAll(lib: Lib, chunks: seq<seq<byte>>) returns (out: string, crashed: bool)
    ensures match Sanitized(lib, Concat(chunks))
      case Lost => crashed
      case ended => !crashed && out == ended.out
  {
    hide ProcessLines, Process, Lines, Tail, Decode;
    var sanitizer := new SseSanitizer(lib);
    out := "";
    for i := 0 to |chunks|
      invariant fresh(sanitizer) && fresh(sanitizer.detector)
      invariant sanitizer.Valid() && sanitizer.lib == lib && sanitizer.fed == Concat(chunks[..i])
      invariant out == sanitizer.written
    {
      assert chunks[..i + 1][..i] == chunks[..i];
      var more;
      more, crashed := sanitizer.Feed(chunks[i]);
      if crashed {
        ConcatSplit(chunks, i + 1);
        LostForGood(lib, Concat(chunks[..i + 1]), Concat(chunks[i + 1..]));
        return;
      }
      out := out + more;
    }
    assert chunks[..|chunks|] == chunks;
    var more;
    more, crashed := sanitizer.Finish();
    out := out + more;
  }

  lemma {:induction false} LostForGood(lib: Lib, a: seq<byte>, b: seq<byte>)
    requires Fed(lib, a) == Lost
    ensures Sanitized(lib, a + b) == Lost
  {
    hide ProcessLines, Lines, Tail, Decode;
    ReceivedAppend(lib, a, b);
    var text := Decode(lib.decoder, Decode(lib.decoder, FRESH_DECODER, a).0, b).1;
    ProcessAppend(lib, Lines(Received(lib, a), '\n'), Lines(Tail(Received(lib, a), '\n') + text, '\n'));
  }

  lemma {:induction false} NothingNew(buffer: string, received: string, before: seq<string>)
    requires buffer == Tail(received, '\n')
    ensures before + Lines(buffer + "", '\n') == before && Tail(buffer + "", '\n') == buffer
  {
    TailClean(received, '\n');
    assert buffer + "" == buffer;
    TailClean(buffer, '\n');
  }
}
