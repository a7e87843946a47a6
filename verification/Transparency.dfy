/** The streaming proxy is transparent: a client behind it gets what it would have got from the
    engine. */
module Transparency {
  import opened Text
  import opened Wire
  import opened Repetition
  import opened Sanitizer
  import opened SanitizerLaws
  import opened StreamClient

  // -------------------------------------------------------------------------
  // UTF-8 text on the wire
  // -------------------------------------------------------------------------

  function EncodeChar(c: char): (bytes: seq<byte>)
    ensures |bytes| == Width(c)
  {
    var n := c as int;
    if n < 0x80 then [n]
    else if n < 0x800 then [0xC0 + n / 0x40, 0x80 + n % 0x40]
    else if n < 0x10000 then [0xE0 + n / 0x1000, 0x80 + n / 0x40 % 0x40, 0x80 + n % 0x40]
    else [0xF0 + n / 0x40000, 0x80 + n / 0x1000 % 0x40, 0x80 + n / 0x40 % 0x40, 0x80 + n % 0x40]
  }

  function Encode(s: string): seq<byte> {
    if s == "" then [] else Encode(s[..|s| - 1]) + EncodeChar(s[|s| - 1])
  }

  lemma {:induction false} EncodeAppend(s: string, t: string)
    ensures Encode(s + t) == Encode(s) + Encode(t)
  {
    hide Encode;
    if t == "" {
      EncodeEmpty();
      assert s + t == s;
    } else {
      var front, c := t[..|t| - 1], t[|t| - 1];
      EncodeAppend(s, front);
      EncodeLast(s, front, c);
      assert t == front + [c];
    }
  }

  lemma {:induction false} EncodeEmpty()
    ensures Encode("") == []
  {
  }

  lemma {:induction false} EncodeLast(s: string, t: string, c: char)
    requires Encode(s + t) == Encode(s) + Encode(t)
    ensures Encode(s + (t + [c])) == Encode(s) + Encode(t + [c])
  {
    hide EncodeChar;
    assert (s + (t + [c]))[..|s| + |t|] == s + t && (t + [c])[..|t|] == t;
    assert Encode(s) + Encode(t) + EncodeChar(c) == Encode(s) + (Encode(t) + EncodeChar(c));
  }

  lemma {:induction false} EncodeNewline()
    ensures Encode("\n") == [NEWLINE]
  {
    assert "\n"[..0] == "";
  }

  /** A newline byte stands for a newline character and for nothing else. */
  lemma {:induction false} NoNewline(s: string)
    requires '\n' !in s
    ensures NEWLINE !in Encode(s)
  {
    if s != "" {
      NoNewline(s[..|s| - 1]);
      assert s[|s| - 1] in s;
    }
  }

  lemma {:induction false} EncodeParts(s: string)
    requires s != ""
    ensures
      var bytes, last := Encode(s), EncodeChar(s[|s| - 1]);
      && |last| <= |bytes| && bytes[|bytes| - |last|..] == last
      && bytes[..|bytes| - |last|] == Encode(s[..|s| - 1])
  {
    hide EncodeChar;
  }

  /** A number with six more bits, those of a byte that continues a character. */
  function SixMore(n: int, b: byte): int {
    n * 0x40 + b as int - 0x80
  }

  /** The number that the bytes of a character stand for. */
  function CodePoint(bytes: seq<byte>): int {
    if |bytes| == 1 then bytes[0]
    else if |bytes| == 2 then SixMore(bytes[0] as int - 0xC0, bytes[1])
    else if |bytes| == 3 then SixMore(SixMore(bytes[0] as int - 0xE0, bytes[1]), bytes[2])
    else if |bytes| == 4 then SixMore(SixMore(SixMore(bytes[0] as int - 0xF0, bytes[1]), bytes[2]), bytes[3])
    else 0
  }

  lemma {:induction false} SixBits(n: nat)
    ensures SixMore(n / 0x40, 0x80 + n % 0x40) == n
    ensures n / 0x1000 == n / 0x40 / 0x40 && n / 0x40000 == n / 0x1000 / 0x40
  {
  }

  lemma {:induction false} CodePointBack(c: char)
    ensures CodePoint(EncodeChar(c)) == c as int
  {
    hide SixMore;
    var n := c as int;
    SixBits(n);
    SixBits(n / 0x40);
    SixBits(n / 0x1000);
  }

  /** How many bytes there are from the last one that does not continue a character. */
  function FromLead(bytes: seq<byte>): nat {
    if bytes == [] then 0
    else if 0x80 <= bytes[|bytes| - 1] < 0xC0 then 1 + FromLead(bytes[..|bytes| - 1])
    else 1
  }

  lemma {:induction false} LeadOfCharacter(before: seq<byte>, last: seq<byte>)
    requires last != [] && !(0x80 <= last[0] < 0xC0) && forall i :: 1 <= i < |last| ==> 0x80 <= last[i] < 0xC0
    ensures FromLead(before + last) == |last|
  {
    var n := |last| - 1;
    assert (before + last)[..|before| + n] == before + last[..n];
    if n > 0 {
      LeadOfCharacter(before, last[..n]);
    }
  }

  lemma {:induction false} Leads(c: char)
    ensures
      var bytes := EncodeChar(c);
      bytes != [] && !(0x80 <= bytes[0] < 0xC0) && forall i :: 1 <= i < |bytes| ==> 0x80 <= bytes[i] < 0xC0
  {
  }

  lemma {:induction false} LastCharacter(s: string)
    requires s != ""
    ensures
      var bytes := Encode(s);
      var n := FromLead(bytes);
      n <= |bytes| && CodePoint(bytes[|bytes| - n..]) == s[|s| - 1] as int && bytes[..|bytes| - n] == Encode(s[..|s| - 1])
  {
    hide Encode, EncodeChar, CodePoint, FromLead;
    EncodeParts(s);
    var c := s[|s| - 1];
    Leads(c);
    LeadOfCharacter(Encode(s[..|s| - 1]), EncodeChar(c));
    assert Encode(s) == Encode(s[..|s| - 1]) + EncodeChar(c);
    CodePointBack(c);
  }

  /** No two texts share their bytes: a decoder that loses nothing is possible. */
  lemma {:induction false} EncodeInjective(s: string, t: string)
    requires Encode(s) == Encode(t)
    ensures s == t
  {
    hide Encode, EncodeChar, CodePoint, FromLead;
    EncodeEmpty();
    if s != "" {
      EncodeParts(s);
      LastCharacter(s);
    }
    if t != "" {
      EncodeParts(t);
      LastCharacter(t);
    }
    if s != "" && t != "" {
      EncodeInjective(s[..|s| - 1], t[..|t| - 1]);
      assert s == s[..|s| - 1] + [s[|s| - 1]] && t == t[..|t| - 1] + [t[|t| - 1]];
    }
  }

  function EncodeAll(lines: seq<string>): seq<seq<byte>> {
    if lines == [] then [] else EncodeAll(lines[..|lines| - 1]) + [Encode(lines[|lines| - 1])]
  }

  lemma {:induction false} EncodeAllCons(line: string, lines: seq<string>)
    ensures EncodeAll([line] + lines) == [Encode(line)] + EncodeAll(lines)
  {
    hide Encode;
    if lines == [] {
      assert [line] + lines == [line] && [line][..0] == [];
    } else {
      EncodeAllCons(line, lines[..|lines| - 1]);
      assert ([line] + lines)[..|lines|] == [line] + lines[..|lines| - 1];
    }
  }

  /** Lines of bytes are encoded lines of text. */
  lemma {:induction false} EncodeLines(s: string)
    ensures Lines(Encode(s), NEWLINE) == EncodeAll(Lines(s, '\n'))
    decreases |s|
  {
    hide Encode, Lines;
    var k := Find(s, '\n');
    NextLine(s, '\n');
    if k < |s| {
      var head, rest := s[..k], s[k + 1..];
      EncodeLines(rest);
      EncodeAllCons(head, Lines(rest, '\n'));
      assert s == head + "\n" + rest;
      EncodeAppend(head + "\n", rest);
      EncodeAppend(head, "\n");
      EncodeNewline();
      NoNewline(head);
      SplitHead(Encode(head), Encode(rest), NEWLINE);
    } else {
      assert s[..k] == s;
      NoNewline(s);
      TailClean(Encode(s), NEWLINE);
    }
  }

  // -------------------------------------------------------------------------
  // What the client reads from encoded text
  // -------------------------------------------------------------------------

  /** `from_utf8_lossy` gives back valid UTF-8. */
  ghost predicate Lossless(lossy: seq<byte> -> string) {
    forall t: string :: lossy(Encode(t)) == t
  }

  lemma {:induction false} ReadLineTrims(parse: string -> Option<Value>, line: string)
    ensures ReadLine(parse, line + "\n") == ReadLine(parse, line)
  {
    hide Trim;
    TrimNewline(line);
  }

  lemma {:induction false} ReadEncoded(reader: Reader, lines: seq<string>)
    requires Lossless(reader.lossy)
    ensures ReadPieces(reader, EncodeAll(lines)) == ReadLines(reader.parse, lines)
  {
    if lines != [] {
      hide ReadLine, FramePatches, Encode, Lossless;
      var n := |lines| - 1;
      ReadEncoded(reader, lines[..n]);
      LineComesBack(reader, lines[n]);
      ReadLineTrims(reader.parse, lines[n]);
      var pieces := EncodeAll(lines[..n]);
      ReadOne(reader, DecodeLines(reader, pieces), Encode(lines[n]), pieces);
      if !ReadPieces(reader, pieces).Reading? {
        ReadMore(reader, pieces, [Encode(lines[n])]);
      }
    }
  }

  lemma {:induction false} LineComesBack(reader: Reader, line: string)
    requires Lossless(reader.lossy)
    ensures reader.lossy(Encode(line) + [NEWLINE]) == line + "\n"
  {
    hide Encode;
    EncodeAppend(line, "\n");
    EncodeNewline();
  }

  /** The client's view of encoded text is a matter of its complete lines. */
  lemma {:induction false} ReadText(reader: Reader, text: string)
    requires Lossless(reader.lossy)
    ensures ReadStream(reader, Encode(text)) == ReadLines(reader.parse, Lines(text, '\n'))
  {
    hide ReadLines, DecodeLines, Encode, Lines, Lossless;
    EncodeLines(text);
    ReadEncoded(reader, Lines(text, '\n'));
    assert ReadPieces(reader, EncodeAll(Lines(text, '\n'))) == ReadStream(reader, Encode(text));
  }

  // -------------------------------------------------------------------------
  // Transparency
  // -------------------------------------------------------------------------

  /** The text with its last newline put in if missing. */
  function Terminated(text: string): string {
    if text == "" then "" else Ended(text)
  }

  /** The upstream bytes are `text` in UTF-8, and the proxy's decoder reads them as such: no byte
      order mark, nothing held back at the end. */
  ghost predicate Reads(lib: Lib, raw: seq<byte>, text: string) {
    raw == Encode(text) && Received(lib, raw) == text && HeldBack(lib, raw) == ""
  }

  /** The sanitizer had no reason to interfere: neither an error frame nor the repetition breaker
      nor a panic. */
  ghost predicate Undisturbed(lib: Lib, raw: seq<byte>) {
    var result := Sanitized(lib, raw);
    result.Open? || (result.Closed? && result.reason == DoneLine)
  }

  lemma {:induction false} DoneEnds(parse: string -> Option<Value>, line: string)
    requires Trim(line) == DONE_LINE
    ensures ReadLine(parse, line) == End
  {
    var rest := DONE_LINE[|"data:"|..];
    assert rest == " [DONE]";
    DonePayload();
  }

  lemma {:induction false} DonePayload()
    ensures Trim(" [DONE]") == "[DONE]"
  {
    assert " [DONE]"[1..] == "[DONE]";
  }

  lemma {:induction false} DoneLineTrimmed()
    ensures Trim(DONE_LINE) == DONE_LINE
  {
  }

  /** A line that ends the stream ends it, whatever follows. */
  lemma {:induction false} EndStops(parse: string -> Option<Value>, before: seq<string>, line: string, more: seq<string>)
    requires ReadLine(parse, line) == End
    ensures ReadLines(parse, before + [line] + more) ==
      match ReadLines(parse, before) case Reading(ps) => Finished(ps) case other => other
  {
    hide ReadLine, FramePatches;
    assert (before + [line])[..|before|] == before;
    ReadAppend(parse, before + [line], more);
  }

  ghost predicate CleanLines(lines: seq<string>) {
    forall i :: 0 <= i < |lines| ==> '\n' !in lines[i]
  }

  lemma {:induction false} LinesUnlines(lines: seq<string>, rest: string)
    requires CleanLines(lines)
    ensures Lines(Unlines(lines) + rest, '\n') == lines + Lines(rest, '\n')
  {
    hide Lines, Unlines;
    if lines == [] {
      UnlinesEmpty();
      assert "" + rest == rest;
    } else {
      var n := |lines| - 1;
      var line, after := lines[n], lines[n] + "\n" + rest;
      LinesUnlines(lines[..n], after);
      assert lines == lines[..n] + [line];
      UnlinesAppend(lines[..n], [line]);
      UnlinesOne(line);
      Regroup(Unlines(lines[..n]), line + "\n", rest);
      SplitHead(line, rest, '\n');
      assert lines[..n] + ([line] + Lines(rest, '\n')) == lines + Lines(rest, '\n');
    }
  }

  lemma {:induction false} LinesOfBlock(line: string)
    requires '\n' !in line
    ensures Lines(line + "\n" + "\n", '\n') == [line, ""]
  {
    hide Lines;
    SplitHead(line, "\n", '\n');
    SplitHead("", "", '\n');
    assert "" + "\n" + "" == "\n";
    TailClean("", '\n');
  }

  lemma {:induction false} LinesOfDone()
    ensures Lines(DONE_BLOCK, '\n') == [DONE_LINE, ""]
  {
    hide Lines;
    LinesOfBlock(DONE_LINE);
    assert DONE_BLOCK == DONE_LINE + "\n" + "\n";
  }

  /** The stream that is closed by the done line of its line `k`, and the terminated original. */
  lemma {:induction false} ClosedReadsAlike(parse: string -> Option<Value>, lines: seq<string>, k: nat)
    requires k < |lines| && CleanLines(lines) && Trim(lines[k]) == DONE_LINE
    ensures ReadLines(parse, Lines(Unlines(lines[..k]) + DONE_BLOCK, '\n')) == ReadLines(parse, lines)
  {
    hide ReadLines, ReadLine, Lines, Unlines, Trim;
    var before := lines[..k];
    LinesUnlines(before, DONE_BLOCK);
    LinesOfDone();
    DoneLineTrimmed();
    DoneEnds(parse, DONE_LINE);
    DoneEnds(parse, lines[k]);
    assert before + [DONE_LINE, ""] == before + [DONE_LINE] + [""];
    EndStops(parse, before, DONE_LINE, [""]);
    assert lines == before + [lines[k]] + lines[k + 1..];
    EndStops(parse, before, lines[k], lines[k + 1..]);
  }

  lemma {:induction false} DoneLineExactly(lib: Lib, w: Window, line: string)
    ensures
      var processed := Process(lib, w, line);
      processed.Special? && processed.reason == DoneLine ==> Trim(line) == DONE_LINE && processed.block == DONE_BLOCK
  {
    hide Trim, Frame, Step, BreakerBlock, ErrorBlock, TokenText, IsErrorFrame;
  }

  lemma {:induction false} LinesOfTerminated(text: string)
    ensures Lines(Terminated(text), '\n') == Lines(text, '\n') + if Tail(text, '\n') == "" then [] else [Tail(text, '\n')]
    ensures CleanLines(Lines(Terminated(text), '\n'))
  {
    hide Lines, Tail, Unlines;
    var lines, tail := Lines(text, '\n'), Tail(text, '\n');
    UnlinesLines(text);
    UnlinesEnds(lines);
    TailClean(text, '\n');
    TailClean(Terminated(text), '\n');
    var all := if tail == "" then lines else lines + [tail];
    if tail == "" {
      assert Unlines(lines) + tail == Unlines(lines);
      assert lines + [] == lines;
    } else {
      assert tail[|tail| - 1] in tail && text[|text| - 1] == tail[|tail| - 1];
      assert Terminated(text) == text + "\n";
      assert text + "\n" == Unlines(lines) + (tail + "\n" + "");
      LinesUnlines(lines, tail + "\n" + "");
      SplitHead(tail, "", '\n');
      TailClean("", '\n');
      assert [tail] + [] == [tail];
    }
  }

  /** For every undisturbed stream the client reads from the proxy exactly what it would read from
      the upstream bytes with their last newline put in if missing. */
  lemma {:induction false} ProxyReadsAlike(lib: Lib, lossy: seq<byte> -> string, raw: seq<byte>, text: string)
    requires Lossless(lossy) && Reads(lib, raw, text) && Undisturbed(lib, raw)
    ensures
      var reader := Reader(lossy, lib.parse);
      ReadStream(reader, Encode(Sanitized(lib, raw).out)) == ReadStream(reader, Encode(Terminated(text)))
  {
    hide Lossless, Encode, Lines, Tail, Unlines, Decode, ProcessLines, Process, ReadLines, Terminated, ReadStream, Closes, Trim,
      CutAfter;
    var reader := Reader(lossy, lib.parse);
    var result, lines, tail := Sanitized(lib, raw), Lines(text, '\n'), Tail(text, '\n');
    assert text + "" == text && tail + "" == tail;
    if result.Open? {
      VerbatimThenTerminal(lib, raw);
      assert WholeText(lib, raw) == text;
      OpenTerminated(text, result.out);
    } else {
      ReadText(reader, result.out);
      ReadText(reader, Terminated(text));
      LinesOfTerminated(text);
      LinesShape(lib, lines);
      match ProcessLines(lib, lines) {
        case Open(out, w) =>
          DoneLineExactly(lib, w, tail);
          assert (lines + [tail])[..|lines|] == lines;
          ClosedReadsAlike(lib.parse, lines + [tail], |lines|);
        case Closed(out, _) =>
          ClosedInside(lib, lib.parse, text, out);
        case Lost =>
      }
    }
  }

  lemma {:induction false} OpenTerminated(text: string, out: string)
    requires out == if text == "" then "" else Ended(text)
    ensures out == Terminated(text)
  {
  }

  lemma {:induction false} ClosedInside(lib: Lib, parse: string -> Option<Value>, text: string, out: string)
    requires Closes(lib, Lines(text, '\n'), out, DoneLine)
    ensures ReadLines(parse, Lines(out, '\n')) == ReadLines(parse, Lines(Terminated(text), '\n'))
  {
    hide Lines, Tail, Unlines, ProcessLines, Process, ReadLines, Terminated, Trim;
    var lines, all := Lines(text, '\n'), Lines(Terminated(text), '\n');
    var k: nat, w, block :| ClosesAt(lib, lines, out, DoneLine, k, w, block);
    DoneLineExactly(lib, w, lines[k]);
    LinesOfTerminated(text);
    assert all[..k] == lines[..k] && all[k] == lines[k];
    ClosedReadsAlike(parse, all, k);
  }

  /** Transparency: for a newline-terminated stream that the sanitizer leaves undisturbed, the client
      behind the proxy gets the same content, tool calls and finish reason, or the same failure, as
      from the engine itself. */
  lemma {:induction false} ProxyIsTransparent(lib: Lib, lossy: seq<byte> -> string, raw: seq<byte>, text: string, broken: bool)
    requires Lossless(lossy) && Reads(lib, raw, text) && Undisturbed(lib, raw)
    requires text == "" || text[|text| - 1] == '\n'
    ensures
      var reader := Reader(lossy, lib.parse);
      Consumed(reader, Encode(Sanitized(lib, raw).out), broken) == Consumed(reader, raw, broken)
  {
    hide Lossless, Encode, Sanitized, Assembled, ReadStream, Undisturbed, Received, HeldBack;
    ProxyReadsAlike(lib, lossy, raw, text);
    assert Terminated(text) == text;
  }

  /** Without the final newline the client's results agree exactly when it had stopped before, or the
      unfinished last line does not matter: on a clean end, a line it skips, a done line, or a frame
      that changes nothing; on a transport error, any line but a done line. */
  lemma {:induction false} UnterminatedExactly(
    lib: Lib, lossy: seq<byte> -> string, raw: seq<byte>, text: string, broken: bool)
    requires Lossless(lossy) && Reads(lib, raw, text) && Undisturbed(lib, raw)
    requires text != "" && text[|text| - 1] != '\n'
    ensures
      var reader := Reader(lossy, lib.parse);
      var alone := ReadStream(reader, raw);
      var last := ReadLine(lib.parse, Tail(text, '\n'));
      Consumed(reader, Encode(Sanitized(lib, raw).out), broken) == Consumed(reader, raw, broken) <==>
        || !alone.Reading?
        || if broken then last != End
           else last == Skip || last == End || (last.Data? && Inert(alone.patches, FramePatches(last.frame)))
  {
    hide Lossless, Encode, Sanitized, ReadLine, ReadLines, ReadStream, Undisturbed, Received, HeldBack, Lines, Tail, FramePatches,
      Unlines, Terminated, Assembled, Inert;
    var reader, lines, tail := Reader(lossy, lib.parse), Lines(text, '\n'), Tail(text, '\n');
    ProxyReadsAlike(lib, lossy, raw, text);
    ReadText(reader, text);
    ReadText(reader, Terminated(text));
    LinesOfTerminated(text);
    UnlinesLines(text);
    UnlinesEnds(lines);
    assert tail == "" ==> Unlines(lines) + tail == Unlines(lines);
    OneMoreLine(lib.parse, lines, tail);
    var last, alone := ReadLine(lib.parse, tail), ReadStream(reader, raw);
    if alone.Reading? && last.Data? {
      InertExactly(alone.patches, FramePatches(last.frame));
    }
  }

  lemma {:induction false} OneMoreLine(parse: string -> Option<Value>, lines: seq<string>, line: string)
    ensures ReadLines(parse, lines + [line]) ==
      match ReadLines(parse, lines)
      case Reading(ps) =>
        (match ReadLine(parse, line)
         case Skip => Reading(ps)
         case End => Finished(ps)
         case Bad => Failed
         case Data(frame) => Reading(ps + FramePatches(frame)))
      case other => other
  {
    hide ReadLine, FramePatches;
    assert (lines + [line])[..|lines|] == lines;
  }

  /** Without the final newline it is not: the client alone never reads the last line, which the
      proxy completes. Here that line holds no JSON. */
  lemma {:induction false} MissingNewlineShows(lib: Lib, lossy: seq<byte> -> string, raw: seq<byte>)
    requires Lossless(lossy) && Reads(lib, raw, "data: x") && lib.parse("x") == None
    ensures Undisturbed(lib, raw)
    ensures
      var reader := Reader(lossy, lib.parse);
      && Consumed(reader, raw, false) == Answer(Assembled([]))
      && Consumed(reader, Encode(Sanitized(lib, raw).out), false) == SseError
  {
    hide Lossless, Encode, Lines, Tail, Decode, Process, ReadLines, FramePatches, Assembled, Trim, DecodeLines;
    var reader, text := Reader(lossy, lib.parse), "data: x";
    TailClean(text, '\n');
    PlainLine(lib, lib.parse);
    assert ProcessLines(lib, []) == Open("", NEW_WINDOW);
    assert text + "" == text;
    assert Sanitized(lib, raw) == Open("" + Ended(text), NEW_WINDOW);
    assert "" + Ended(text) == text + "\n" + "";
    assert text + "\n" + "" == text + "\n";
    SplitHead(text, "", '\n');
    TailClean("", '\n');
    ReadText(reader, text);
    ReadText(reader, text + "\n");
    BadAlone(lib.parse, text);
    assert [text] + [] == [text];
    assert ReadStream(reader, raw) == Reading([]);
    assert ReadStream(reader, Encode(text + "\n")) == Failed;
  }

  /** The line of the counterexample: the sanitizer passes it on, the client rejects it. */
  lemma {:induction false} PlainLine(lib: Lib, parse: string -> Option<Value>)
    requires parse("x") == None
    ensures Process(lib, NEW_WINDOW, "data: x") == Pass(NEW_WINDOW) && ReadLine(parse, "data: x") == Bad
  {
    var line := "data: x";
    hide Trim;
    TrimFixed(line);
    TrimFixed("x");
    assert line[6..] == "x" && line[5..] == " x";
    SpacedPayload();
  }

  lemma {:induction false} SpacedPayload()
    ensures Trim(" x") == "x"
  {
    assert " x"[1..] == "x";
  }

  lemma {:induction false} BadAlone(parse: string -> Option<Value>, line: string)
    requires ReadLine(parse, line) == Bad
    ensures ReadLines(parse, []) == Reading([]) && ReadLines(parse, [line]) == Failed
  {
    hide ReadLine;
    assert [line][..0] == [];
  }
}
