/** The runaway-repetition detector of `src/proxy/sanitize.rs`. */
module Repetition {
  import opened Text

  const CODE_REPEAT_CHARS := "+./\\<>|:;()[]{}'\"!?,~^&%$@"
  const DIVIDER_CHARS := "-=*# \t\n_"
  const CODE_LIMIT := 1000
  const DIVIDER_LIMIT := 250
  const DEFAULT_LIMIT := 100
  const PATTERN_REPEAT_COUNT := 40
  const ROLLING_WINDOW := 1500
  const MIN_UNIT := 4
  const MAX_UNIT := 32

  /** `Panicked` is a slice of the rolling text off a character boundary. */
  datatype Verdict = Quiet | CharacterRun(ch: char, count: nat) | PatternLoop(unit: string) | Panicked

  function LimitFor(ch: char): nat {
    if ch in CODE_REPEAT_CHARS then CODE_LIMIT else if ch in DIVIDER_CHARS then DIVIDER_LIMIT else DEFAULT_LIMIT
  }

  /** Nothing but code and divider characters. */
  predicate IsPure(unit: string) {
    forall c :: c in unit ==> c in CODE_REPEAT_CHARS || c in DIVIDER_CHARS
  }

  // -------------------------------------------------------------------------
  // The detector without a window
  // -------------------------------------------------------------------------

  /** The length of the run of equal characters that ends the text. */
  function RunLength(s: string): (n: nat)
    ensures n <= |s| && (s != "" ==> n > 0)
  {
    if s == "" then 0
    else if |s| >= 2 && s[|s| - 2] == s[|s| - 1] then RunLength(s[..|s| - 1]) + 1
    else 1
  }

  lemma {:induction false} RunLengthExact(s: string)
    requires s != ""
    ensures
      var n := RunLength(s);
      && (forall i :: |s| - n <= i < |s| ==> s[i] == s[|s| - 1])
      && (n < |s| ==> s[|s| - 1 - n] != s[|s| - 1])
  {
    if |s| >= 2 && s[|s| - 2] == s[|s| - 1] {
      RunLengthExact(s[..|s| - 1]);
    }
  }

  lemma {:induction false} RunLengthStep(s: string, c: char)
    ensures RunLength(s + [c]) == if s != "" && s[|s| - 1] == c then RunLength(s) + 1 else 1
  {
    assert (s + [c])[..|s|] == s;
  }

  /** The run that ends the text has reached its character's limit. */
  predicate RunTrips(s: string) {
    s != "" && RunLength(s) >= LimitFor(s[|s| - 1])
  }

  /** The text ends in `PATTERN_REPEAT_COUNT` copies of its last `u` characters. */
  ghost predicate EndsInCopies(s: string, u: nat) {
    && u * PATTERN_REPEAT_COUNT <= |s|
    && forall r, k :: 0 <= r < PATTERN_REPEAT_COUNT && 0 <= k < u ==> SameInCopy(s, u, r, k)
  }

  predicate SameInCopy(s: string, u: nat, r: nat, k: nat)
    requires r < PATTERN_REPEAT_COUNT && u * PATTERN_REPEAT_COUNT <= |s| && k < u
  {
    CopyFits(s, u, r);
    s[|s| - (r + 1) * u + k] == s[|s| - u + k]
  }

  lemma {:induction false} CopyFits(s: string, u: nat, r: nat)
    requires r < PATTERN_REPEAT_COUNT && u * PATTERN_REPEAT_COUNT <= |s|
    ensures u <= (r + 1) * u <= u * PATTERN_REPEAT_COUNT && (r + 1) * u == r * u + u
  {
  }

  /** A loop of a unit of `u` characters, not all of them code or dividers. */
  ghost predicate LoopOf(s: string, u: nat) {
    EndsInCopies(s, u) && !IsPure(s[|s| - u..])
  }

  ghost predicate LoopsBelow(s: string, u: nat) {
    exists v :: MIN_UNIT <= v < u && LoopOf(s, v)
  }

  /** What the unbounded detector finds at the end of a text: its shortest unit. */
  ghost predicate FindsLoop(s: string, verdict: Verdict) {
    match verdict
    case Quiet => !LoopsBelow(s, MAX_UNIT + 1)
    case PatternLoop(unit) =>
      && MIN_UNIT <= |unit| <= MAX_UNIT && LoopOf(s, |unit|) && !LoopsBelow(s, |unit|)
      && unit == s[|s| - |unit|..]
    case _ => false
  }

  // -------------------------------------------------------------------------
  // Byte positions
  // -------------------------------------------------------------------------

  /** The UTF-8 length of a character. */
  function Width(c: char): nat {
    if c as int < 0x80 then 1 else if c as int < 0x800 then 2 else if c as int < 0x10000 then 3 else 4
  }

  function ByteLen(s: string): nat {
    if s == "" then 0 else ByteLen(s[..|s| - 1]) + Width(s[|s| - 1])
  }

  predicate Ascii(s: string) {
    forall i :: 0 <= i < |s| ==> s[i] as int < 0x80
  }

  /** `s` without its last `n` bytes, unless that cuts a character. */
  function DropTail(s: string, n: nat): (r: Option<string>)
    ensures r.Some? ==> r.value <= s
  {
    if n == 0 then Some(s)
    else if s == "" || Width(s[|s| - 1]) > n then None
    else DropTail(s[..|s| - 1], n - Width(s[|s| - 1]))
  }

  /** The slice of `n` bytes that ends `skip` bytes before the end of `s`. */
  function Segment(s: string, skip: nat, n: nat): Option<string> {
    match DropTail(s, skip)
    case None => None
    case Some(t) =>
      match DropTail(t, n)
      case None => None
      case Some(before) => Some(t[|before|..])
  }

  lemma {:induction false} AsciiLength(s: string)
    requires Ascii(s)
    ensures ByteLen(s) == |s|
  {
    if s != "" {
      AsciiLength(s[..|s| - 1]);
    }
  }

  lemma {:induction false} AsciiDropTail(s: string, n: nat)
    requires Ascii(s) && n <= |s|
    ensures DropTail(s, n) == Some(s[..|s| - n])
  {
    if n > 0 {
      AsciiDropTail(s[..|s| - 1], n - 1);
      assert s[..|s| - 1][..|s| - n] == s[..|s| - n];
    } else {
      assert s[..|s|] == s;
    }
  }

  lemma {:induction false} AsciiSegment(s: string, skip: nat, n: nat)
    requires Ascii(s) && skip + n <= |s|
    ensures Segment(s, skip, n) == Some(s[|s| - skip - n..|s| - skip])
  {
    hide DropTail;
    AsciiDropTail(s, skip);
    AsciiDropTail(s[..|s| - skip], n);
    assert s[..|s| - skip][..|s| - skip - n] == s[..|s| - skip - n];
  }

  // -------------------------------------------------------------------------
  // The pattern scan
  // -------------------------------------------------------------------------

  datatype Copies = AllSame | Differs | OffBoundary

  function CopiesFrom(s: string, unit: string, u: nat, r: nat): Copies
    decreases PATTERN_REPEAT_COUNT - r
  {
    if r >= PATTERN_REPEAT_COUNT then AllSame
    else
      match Segment(s, r * u, u)
      case None => OffBoundary
      case Some(seg) => if seg == unit then CopiesFrom(s, unit, u, r + 1) else Differs
  }

  /** The scan from unit length `u` on. */
  function ScanFrom(s: string, u: nat): Verdict
    decreases MAX_UNIT + 1 - u
  {
    if u > MAX_UNIT then Quiet
    else if ByteLen(s) < u * PATTERN_REPEAT_COUNT then ScanFrom(s, u + 1)
    else
      match Segment(s, 0, u)
      case None => Panicked
      case Some(unit) =>
        if IsPure(unit) then ScanFrom(s, u + 1)
        else
          match CopiesFrom(s, unit, u, 1)
          case AllSame => PatternLoop(unit)
          case Differs => ScanFrom(s, u + 1)
          case OffBoundary => Panicked
  }

  method CompareCopies(rolling: string, unit: string, u: nat) returns (copies: Copies)
    ensures copies == CopiesFrom(rolling, unit, u, 1)
  {
    hide Segment;
    for r := 1 to PATTERN_REPEAT_COUNT
      invariant CopiesFrom(rolling, unit, u, 1) == CopiesFrom(rolling, unit, u, r)
    {
      var seg := Segment(rolling, r * u, u);
      if seg.None? {
        return OffBoundary;
      }
      if seg.value != unit {
        return Differs;
      }
    }
    return AllSame;
  }

  /** The second half of `feed`. */
  method ScanPatterns(rolling: string) returns (verdict: Verdict)
    ensures verdict == ScanFrom(rolling, MIN_UNIT)
  {
    hide Segment, IsPure, ByteLen, CopiesFrom;
    var len := ByteLen(rolling);
    for u := MIN_UNIT to MAX_UNIT + 1
      invariant ScanFrom(rolling, MIN_UNIT) == ScanFrom(rolling, u)
    {
      if len < u * PATTERN_REPEAT_COUNT {
        continue;
      }
      var tail := Segment(rolling, 0, u);
      if tail.None? {
        return Panicked;
      }
      var unit := tail.value;
      if IsPure(unit) {
        continue;
      }
      var copies := CompareCopies(rolling, unit, u);
      if copies == OffBoundary {
        return Panicked;
      }
      if copies == AllSame {
        return PatternLoop(unit);
      }
    }
    return Quiet;
  }

  /** On ASCII text, every copy is compared and none is off a boundary. */
  lemma {:induction false} AsciiCopies(s: string, u: nat, r: nat)
    requires Ascii(s) && u * PATTERN_REPEAT_COUNT <= |s| && 1 <= r <= PATTERN_REPEAT_COUNT
    ensures CopiesFrom(s, s[|s| - u..], u, r) ==
      if (forall q, k :: r <= q < PATTERN_REPEAT_COUNT && 0 <= k < u ==> SameInCopy(s, u, q, k)) then AllSame else Differs
    decreases PATTERN_REPEAT_COUNT - r
  {
    hide Segment, SameInCopy;
    if r < PATTERN_REPEAT_COUNT {
      CopyFits(s, u, r);
      AsciiSegment(s, r * u, u);
      OneCopy(s, u, r);
      AsciiCopies(s, u, r + 1);
    }
  }

  lemma {:induction false} OneCopy(s: string, u: nat, r: nat)
    requires u * PATTERN_REPEAT_COUNT <= |s| && r < PATTERN_REPEAT_COUNT
    ensures u <= (r + 1) * u <= |s| && r * u + u == (r + 1) * u
    ensures s[|s| - r * u - u..|s| - r * u] == s[|s| - u..] <==> forall k :: 0 <= k < u ==> SameInCopy(s, u, r, k)
  {
    CopyFits(s, u, r);
    var a, b := s[|s| - r * u - u..|s| - r * u], s[|s| - u..];
    assert |a| == |b| == u;
    forall k | 0 <= k < u
      ensures a[k] == b[k] <==> SameInCopy(s, u, r, k)
    {
    }
  }

  /** On ASCII text the scan never panics and finds exactly the shortest loop. */
  lemma {:induction false} AsciiScan(s: string, u: nat)
    requires Ascii(s) && MIN_UNIT <= u <= MAX_UNIT + 1 && !LoopsBelow(s, u)
    ensures FindsLoop(s, ScanFrom(s, u))
    decreases MAX_UNIT + 1 - u
  {
    hide CopiesFrom, Segment, IsPure, SameInCopy;
    if u <= MAX_UNIT {
      AsciiLength(s);
      if u * PATTERN_REPEAT_COUNT <= |s| {
        AsciiSegment(s, 0, u);
        assert s[|s| - 0 - u..|s| - 0] == s[|s| - u..];
        AsciiCopies(s, u, 1);
        FirstCopy(s, u);
      }
      if !LoopOf(s, u) {
        AsciiScan(s, u + 1);
      }
    }
  }

  lemma {:induction false} FirstCopy(s: string, u: nat)
    requires u * PATTERN_REPEAT_COUNT <= |s|
    ensures EndsInCopies(s, u) <==>
      forall q, k :: 1 <= q < PATTERN_REPEAT_COUNT && 0 <= k < u ==> SameInCopy(s, u, q, k)
  {
    OneCopy(s, u, 0);
  }

  /** The window is wide enough: forty copies of the longest unit fit. */
  lemma {:induction false} LoopInWindow(s: string, u: nat)
    requires u <= MAX_UNIT
    ensures LoopOf(LastOf(s, ROLLING_WINDOW), u) <==> LoopOf(s, u)
  {
    hide IsPure;
    var w := LastOf(s, ROLLING_WINDOW);
    if |s| > ROLLING_WINDOW {
      assert w[|w| - u..] == s[|s| - u..];
      forall r: nat, k: nat | r < PATTERN_REPEAT_COUNT && k < u
        ensures SameInCopy(w, u, r, k) <==> SameInCopy(s, u, r, k)
      {
        CopyFits(s, u, r);
      }
    }
  }

  lemma {:induction false} FindsInWindow(s: string, verdict: Verdict)
    requires FindsLoop(LastOf(s, ROLLING_WINDOW), verdict)
    ensures FindsLoop(s, verdict)
  {
    hide LoopOf;
    var w := LastOf(s, ROLLING_WINDOW);
    forall u | MIN_UNIT <= u <= MAX_UNIT
      ensures LoopOf(w, u) <==> LoopOf(s, u)
    {
      LoopInWindow(s, u);
    }
    if verdict.PatternLoop? {
      LoopNeeds(w, |verdict.unit|);
    }
  }

  lemma {:induction false} LoopNeeds(s: string, u: nat)
    requires LoopOf(s, u)
    ensures u <= |s|
  {
  }

  // -------------------------------------------------------------------------
  // One `feed`, as a step of the detector's state
  // -------------------------------------------------------------------------

  datatype Window = Window(lastChar: char, count: nat, rolling: string)

  const NEW_WINDOW := Window('\0', 0, "")

  function RunsFrom(w: Window, text: string): (Window, Verdict)
    decreases |text|
  {
    if text == "" then (w, Quiet)
    else if text[0] != w.lastChar then RunsFrom(w.(lastChar := text[0], count := 1), text[1..])
    else if w.count + 1 >= LimitFor(text[0]) then (w.(count := w.count + 1), CharacterRun(text[0], w.count + 1))
    else RunsFrom(w.(count := w.count + 1), text[1..])
  }

  /** The rolling text cut to the window; the cut counts bytes over but drops characters. */
  function CutRolling(rolling: string): string {
    var len := ByteLen(rolling);
    if len > ROLLING_WINDOW && len - ROLLING_WINDOW < |rolling| then rolling[len - ROLLING_WINDOW..] else rolling
  }

  function Step(w: Window, text: string): (Window, Verdict) {
    if text == "" then (w, Quiet)
    else
      var (runs, verdict) := RunsFrom(w, text);
      if verdict != Quiet then (runs, verdict)
      else
        var rolling := CutRolling(w.rolling + text);
        (runs.(rolling := rolling), ScanFrom(rolling, MIN_UNIT))
  }

  lemma {:induction false} RunsKeepRolling(w: Window, text: string)
    ensures RunsFrom(w, text).0.rolling == w.rolling
    ensures RunsFrom(w, text).1 == Quiet || RunsFrom(w, text).1.CharacterRun?
    decreases |text|
  {
    if text != "" {
      RunsKeepRolling(w.(lastChar := text[0], count := 1), text[1..]);
      RunsKeepRolling(w.(count := w.count + 1), text[1..]);
    }
  }

  // -------------------------------------------------------------------------
  // The step refines the detector without a window
  // -------------------------------------------------------------------------

  /** The first character of `text`, fed after `before`, at which a run reaches its limit. */
  ghost predicate FirstTrip(before: string, text: string, k: nat) {
    && 0 < k <= |text| && RunTrips(before + text[..k])
    && forall j :: 0 <= j < k ==> !RunTrips(before + text[..j])
  }

  /** What the detector with no window answers to `text` after `before`. */
  ghost predicate Answers(before: string, text: string, verdict: Verdict) {
    if exists k :: FirstTrip(before, text, k) then
      exists k :: FirstTrip(before, text, k) && verdict == CharacterRun(text[k - 1], LimitFor(text[k - 1]))
    else
      && !verdict.CharacterRun?
      && (Ascii(before + text) ==> FindsLoop(before + text, verdict))
  }

  ghost predicate NeverTripped(s: string) {
    forall k :: 0 <= k <= |s| ==> !RunTrips(s[..k])
  }

  ghost predicate CountsRun(w: Window, s: string) {
    if s == "" then w.count == 0 else w.lastChar == s[|s| - 1] && w.count == RunLength(s)
  }

  /** The state after `s` was fed, in whatever chunks, with no alarm. */
  ghost predicate Tracks(w: Window, s: string) {
    && CountsRun(w, s) && NeverTripped(s)
    && (Ascii(s) ==> w.rolling == LastOf(s, ROLLING_WINDOW) && FindsLoop(s, Quiet))
  }

  lemma {:induction false} RunsRefine(w0: Window, before: string, text: string)
    requires CountsRun(w0, before) && NeverTripped(before)
    ensures
      var (w, verdict) := RunsFrom(w0, text);
      if verdict == Quiet then CountsRun(w, before + text) && NeverTripped(before + text)
      else exists k :: FirstTrip(before, text, k) && verdict == CharacterRun(text[k - 1], LimitFor(text[k - 1]))
  {
    hide RunLength, LimitFor;
    assert before + text[..0] == before && text[0..] == text;
    var w := w0;
    for i := 0 to |text|
      invariant RunsFrom(w0, text) == RunsFrom(w, text[i..])
      invariant CountsRun(w, before + text[..i]) && NeverTripped(before + text[..i])
    {
      assert text[i..][1..] == text[i + 1..];
      var ch, sofar := text[i], before + text[..i];
      assert before + text[..i + 1] == sofar + [ch];
      RunLengthStep(sofar, ch);
      LimitsAboveOne(ch);
      if ch == w.lastChar && w.count + 1 >= LimitFor(ch) {
        TripIsFirst(before, text, i);
        return;
      }
      w := if ch == w.lastChar then w.(count := w.count + 1) else w.(lastChar := ch, count := 1);
      NeverTrippedStep(sofar, ch);
    }
    assert text[..|text|] == text;
  }

  /** Chunk by chunk, the windowed detector answers what the unbounded one answers: a run exactly at
      its limit; else, on ASCII text, the shortest loop at the end of all that was fed, and never a
      panic. */
  lemma {:induction false} StepRefines(w: Window, before: string, text: string)
    requires Tracks(w, before)
    ensures Answers(before, text, Step(w, text).1)
    ensures Step(w, text).1 == Quiet ==> Tracks(Step(w, text).0, before + text)
  {
    hide RunTrips, RunLength, LimitFor, FindsLoop, LastOf, CutRolling, ScanFrom, FirstTrip, RunsFrom, NeverTripped;
    if text == "" {
      assert before + text == before;
      NothingFed(before);
    } else {
      RunsKeepRolling(w, text);
      RunsRefine(w, before, text);
      if RunsFrom(w, text).1 == Quiet {
        NoTripBefore(before, text);
        ScanIsNoRun(CutRolling(w.rolling + text), MIN_UNIT);
        if Ascii(before + text) {
          WindowStep(before, text);
          ScanRefines(before + text);
        }
      }
    }
  }

  /** The state after feeding `texts` one by one; `None` once one of them raised an alarm. */
  function Watched(texts: seq<string>): Option<Window> {
    if texts == [] then Some(NEW_WINDOW)
    else
      match Watched(texts[..|texts| - 1])
      case None => None
      case Some(w) =>
        var (next, verdict) := Step(w, texts[|texts| - 1]);
        if verdict == Quiet then Some(next) else None
  }

  /** Over any run, in any chunks: the state sums up all the text fed so far, and the answer to the
      next chunk is the unbounded detector's. */
  lemma {:induction false} RunRefines(texts: seq<string>, text: string)
    ensures Watched(texts).Some? ==>
      && Tracks(Watched(texts).value, Concat(texts))
      && Answers(Concat(texts), text, Step(Watched(texts).value, text).1)
  {
    hide Tracks, Answers, Step;
    if texts == [] {
      NewTracks();
    } else {
      var n := |texts| - 1;
      RunRefines(texts[..n], texts[n]);
      if Watched(texts[..n]).Some? {
        StepRefines(Watched(texts[..n]).value, Concat(texts[..n]), texts[n]);
      }
    }
    if Watched(texts).Some? {
      StepRefines(Watched(texts).value, Concat(texts), text);
    }
  }

  lemma {:induction false} NewTracks()
    ensures Tracks(NEW_WINDOW, "")
  {
    hide IsPure;
  }

  lemma {:induction false} NothingFed(s: string)
    ensures forall k: nat :: !FirstTrip(s, "", k)
  {
  }

  lemma {:induction false} ScanIsNoRun(s: string, u: nat)
    ensures !ScanFrom(s, u).CharacterRun?
    decreases MAX_UNIT + 1 - u
  {
    if u <= MAX_UNIT {
      hide Segment, IsPure, CopiesFrom, ByteLen;
      ScanIsNoRun(s, u + 1);
    }
  }

  lemma {:induction false} NoTripBefore(before: string, text: string)
    requires NeverTripped(before + text)
    ensures forall k: nat :: !FirstTrip(before, text, k)
  {
    hide RunTrips;
    forall k: nat
      ensures !FirstTrip(before, text, k)
    {
      if 0 < k <= |text| {
        assert (before + text)[..|before| + k] == before + text[..k];
      }
    }
  }

  /** The window after one more chunk of ASCII text. */
  lemma {:induction false} WindowStep(before: string, text: string)
    requires Ascii(before + text)
    ensures Ascii(before) && CutRolling(LastOf(before, ROLLING_WINDOW) + text) == LastOf(before + text, ROLLING_WINDOW)
  {
    var all, longer := before + text, LastOf(before, ROLLING_WINDOW) + text;
    var off := |all| - |longer|;
    assert forall i :: 0 <= i < |before| ==> before[i] == all[i];
    assert longer == all[off..];
    AsciiLength(longer);
  }

  /** On ASCII text the windowed scan answers for the whole text. */
  lemma {:induction false} ScanRefines(s: string)
    requires Ascii(s)
    ensures FindsLoop(s, ScanFrom(LastOf(s, ROLLING_WINDOW), MIN_UNIT))
  {
    hide FindsLoop, ScanFrom, LoopOf;
    var w := LastOf(s, ROLLING_WINDOW);
    assert Ascii(w);
    AsciiScan(w, MIN_UNIT);
    FindsInWindow(s, ScanFrom(w, MIN_UNIT));
  }

  lemma {:induction false} LimitsAboveOne(ch: char)
    ensures LimitFor(ch) > 1
  {
  }

  lemma {:induction false} NeverTrippedStep(s: string, ch: char)
    requires NeverTripped(s) && !RunTrips(s + [ch])
    ensures NeverTripped(s + [ch])
  {
    hide RunTrips;
    forall k | 0 <= k <= |s| + 1
      ensures !RunTrips((s + [ch])[..k])
    {
      assert (s + [ch])[..k] == if k <= |s| then s[..k] else s + [ch];
    }
  }

  /** A run is caught at its limit, not beyond. */
  lemma {:induction false} TripIsFirst(before: string, text: string, i: nat)
    requires i < |text| && NeverTripped(before + text[..i]) && RunTrips(before + text[..i + 1])
    ensures FirstTrip(before, text, i + 1) && RunLength(before + text[..i + 1]) == LimitFor(text[i])
  {
    hide LimitFor, RunLength;
    var s := before + text[..i];
    assert before + text[..i + 1] == s + [text[i]];
    RunLengthStep(s, text[i]);
    LimitsAboveOne(text[i]);
    assert s[..|s|] == s;
    forall j | 0 <= j < i + 1
      ensures !RunTrips(before + text[..j])
    {
      assert before + text[..j] == s[..|before| + j];
    }
  }

  // -------------------------------------------------------------------------
  // The detector
  // -------------------------------------------------------------------------

  class RepetitionDetector {
    var lastChar: char
    var charRepeatCount: nat
    var rolling: string

    function State(): Window
      reads this
    {
      Window(lastChar, charRepeatCount, rolling)
    }

    constructor ()
      ensures State() == NEW_WINDOW
    {
      lastChar, charRepeatCount, rolling := '\0', 0, "";
    }

    /** The first half of `feed`: the run of equal characters. */
    method CountRuns(text: string) returns (verdict: Verdict)
      modifies this`lastChar, this`charRepeatCount
      ensures (State(), verdict) == RunsFrom(old(State()), text)
    {
      assert text[0..] == text;
      for i := 0 to |text|
        invariant RunsFrom(old(State()), text) == RunsFrom(State(), text[i..])
      {
        assert text[i..][1..] == text[i + 1..];
        var ch := text[i];
        if ch == lastChar {
          charRepeatCount := charRepeatCount + 1;
          if charRepeatCount >= LimitFor(ch) {
            return CharacterRun(ch, charRepeatCount);
          }
        } else {
          lastChar := ch;
          charRepeatCount := 1;
        }
      }
      return Quiet;
    }

    /** `feed`. */
    method Feed(text: string) returns (verdict: Verdict)
      modifies this
      ensures (State(), verdict) == Step(old(State()), text)
    {
      hide RunsFrom, CutRolling, ScanFrom;
      if text == "" {
        return Quiet;
      }
      RunsKeepRolling(State(), text);
      verdict := CountRuns(text);
      if verdict != Quiet {
        return;
      }
      rolling := CutRolling(rolling + text);
      verdict := ScanPatterns(rolling);
    }
  }

  // -------------------------------------------------------------------------
  // Chunks, and text that is not ASCII
  // -------------------------------------------------------------------------

  /** No run in `text`, fed after `before`, reaches its limit. */
  ghost predicate NoTrip(before: string, text: string) {
    forall j :: 0 <= j <= |text| ==> !RunTrips(before + text[..j])
  }

  /** Where a run is caught does not depend on how the text is cut into chunks. */
  lemma {:induction false} RunsIgnoreChunks(before: string, a: string, b: string, k: nat)
    ensures FirstTrip(before, a + b, k) <==>
      if k <= |a| then FirstTrip(before, a, k) else NoTrip(before, a) && FirstTrip(before + a, b, k - |a|)
    ensures NoTrip(before, a + b) <==> NoTrip(before, a) && NoTrip(before + a, b)
  {
    hide RunTrips;
    forall j | 0 <= j <= |a|
      ensures (a + b)[..j] == a[..j]
    {
    }
    forall j | |a| <= j <= |a| + |b|
      ensures before + (a + b)[..j] == before + a + b[..j - |a|]
    {
    }
    forall j | 0 <= j <= |b|
      ensures before + a + b[..j] == before + (a + b)[..|a| + j]
    {
    }
    assert a[..|a|] == a;
  }

  /** `n` bytes from the end of the text lies a boundary between characters. */
  ghost predicate Boundary(s: string, n: nat) {
    exists k: nat :: k <= |s| && ByteLen(s[k..]) == n
  }

  lemma {:induction false} ByteLenAppend(a: string, b: string)
    ensures ByteLen(a + b) == ByteLen(a) + ByteLen(b)
  {
    if b == "" {
      assert a + b == a;
    } else {
      ByteLenAppend(a, b[..|b| - 1]);
      assert (a + b)[..|a + b| - 1] == a + b[..|b| - 1];
    }
  }

  lemma {:induction false} SuffixBytes(s: string, k: nat)
    requires k < |s|
    ensures ByteLen(s[k..]) == ByteLen(s[..|s| - 1][k..]) + Width(s[|s| - 1]) >= Width(s[|s| - 1])
  {
    assert s[k..][..|s[k..]| - 1] == s[..|s| - 1][k..];
  }

  /** A slice from the end exists exactly when it begins on a boundary. */
  lemma {:induction false} DropTailExact(s: string, n: nat)
    ensures DropTail(s, n).Some? <==> Boundary(s, n)
    ensures DropTail(s, n).Some? ==> ByteLen(s) == ByteLen(DropTail(s, n).value) + n
  {
    if n == 0 {
      assert s[|s|..] == "";
    } else if s != "" {
      var front, w := s[..|s| - 1], Width(s[|s| - 1]);
      forall k | 0 <= k < |s|
        ensures ByteLen(s[k..]) == ByteLen(front[k..]) + w
      {
        SuffixBytes(s, k);
      }
      assert s[|s|..] == "";
      if n >= w {
        DropTailExact(front, n - w);
        if k: nat :| k <= |s| && ByteLen(s[k..]) == n {
          assert k <= |front| && ByteLen(front[k..]) == n - w;
        }
        if k: nat :| k <= |front| && ByteLen(front[k..]) == n - w {
          assert ByteLen(s[k..]) == n;
        }
      }
    }
  }

  lemma {:induction false} BoundaryWithin(s: string, skip: nat, t: string, n: nat)
    requires DropTail(s, skip) == Some(t)
    ensures Boundary(t, n) <==> Boundary(s, skip + n)
  {
    if skip > 0 {
      var front, w := s[..|s| - 1], Width(s[|s| - 1]);
      BoundaryWithin(front, skip - w, t, n);
      DropTailExact(s, skip + n);
      DropTailExact(front, skip + n - w);
    }
  }

  /** A segment can be sliced exactly when it begins and ends on boundaries. */
  lemma {:induction false} SegmentExact(s: string, skip: nat, n: nat)
    ensures Segment(s, skip, n).Some? <==> Boundary(s, skip) && Boundary(s, skip + n)
  {
    hide DropTail, Boundary;
    DropTailExact(s, skip);
    if DropTail(s, skip).Some? {
      var t := DropTail(s, skip).value;
      DropTailExact(t, n);
      BoundaryWithin(s, skip, t, n);
    }
  }

  /** Copy `p` of the last `u` bytes, counted from the end. */
  function CopyAt(s: string, u: nat, p: nat): Option<string> {
    Segment(s, p * u, u)
  }

  /** Copy `q` cuts a character, and the copies behind it are all alike. */
  ghost predicate CutCopy(s: string, unit: string, u: nat, q: nat) {
    CopyAt(s, u, q) == None && forall p: nat :: 1 <= p < q ==> CopyAt(s, u, p) == Some(unit)
  }

  lemma {:induction false} CopiesAt(s: string, unit: string, u: nat, r: nat)
    ensures CopiesFrom(s, unit, u, r) ==
      if r >= PATTERN_REPEAT_COUNT then AllSame
      else if CopyAt(s, u, r) == Some(unit) then CopiesFrom(s, unit, u, r + 1)
      else if CopyAt(s, u, r) == None then OffBoundary
      else Differs
  {
    hide Segment;
  }

  lemma {:induction false} CopiesExact(s: string, unit: string, u: nat, r: nat)
    requires 1 <= r <= PATTERN_REPEAT_COUNT && forall p: nat :: 1 <= p < r ==> CopyAt(s, u, p) == Some(unit)
    ensures CopiesFrom(s, unit, u, r) == OffBoundary <==>
      exists q: nat :: r <= q < PATTERN_REPEAT_COUNT && CutCopy(s, unit, u, q)
    ensures CopiesFrom(s, unit, u, r) == AllSame <==>
      forall p: nat :: 1 <= p < PATTERN_REPEAT_COUNT ==> CopyAt(s, u, p) == Some(unit)
    decreases PATTERN_REPEAT_COUNT - r
  {
    hide CopyAt, CopiesFrom;
    CopiesAt(s, unit, u, r);
    if r < PATTERN_REPEAT_COUNT {
      if CopyAt(s, u, r) == Some(unit) {
        CopiesExact(s, unit, u, r + 1);
        assert !CutCopy(s, unit, u, r);
      } else {
        assert CopyAt(s, u, r) == None ==> CutCopy(s, unit, u, r);
        forall q: nat | r < q < PATTERN_REPEAT_COUNT
          ensures !CutCopy(s, unit, u, q)
        {
        }
      }
    }
  }

  /** At unit length `v` the scan slices inside a character: at the start of the last `v` bytes, or, when
      those are not all code and dividers, at the first copy that is not like them. */
  ghost predicate CutsAt(s: string, v: nat) {
    && v * PATTERN_REPEAT_COUNT <= ByteLen(s)
    && match Segment(s, 0, v)
       case None => true
       case Some(unit) => !IsPure(unit) && exists q: nat :: 1 <= q < PATTERN_REPEAT_COUNT && CutCopy(s, unit, v, q)
  }

  /** The text ends in forty copies of its last `v` bytes, which are not all code and dividers. */
  ghost predicate LoopsAt(s: string, v: nat) {
    && v * PATTERN_REPEAT_COUNT <= ByteLen(s)
    && match Segment(s, 0, v)
       case None => false
       case Some(unit) =>
         !IsPure(unit) && forall p: nat :: 1 <= p < PATTERN_REPEAT_COUNT ==> CopyAt(s, v, p) == Some(unit)
  }

  ghost predicate PanicsFrom(s: string, u: nat) {
    exists v: nat :: u <= v <= MAX_UNIT && CutsAt(s, v) && forall w: nat :: u <= w < v ==> !LoopsAt(s, w)
  }

  /** For any text, the scan panics exactly when at some unit length it cuts a character and no shorter
      unit loops. */
  lemma {:induction false} ScanPanicsExactly(s: string, u: nat)
    ensures ScanFrom(s, u) == Panicked <==> PanicsFrom(s, u)
    decreases MAX_UNIT + 1 - u
  {
    hide ScanFrom, PanicsFrom, CutsAt, LoopsAt;
    PanicsStep(s, u);
    if u <= MAX_UNIT {
      ScanPanicsExactly(s, u + 1);
      ScanAt(s, u);
    } else {
      ScanOver(s, u);
    }
  }

  lemma {:induction false} ScanOver(s: string, u: nat)
    requires u > MAX_UNIT
    ensures ScanFrom(s, u) == Quiet
  {
  }

  lemma {:induction false} PanicsStep(s: string, u: nat)
    ensures PanicsFrom(s, u) <==> u <= MAX_UNIT && (CutsAt(s, u) || (!LoopsAt(s, u) && PanicsFrom(s, u + 1)))
  {
    hide CutsAt, LoopsAt;
    if v: nat :| u + 1 <= v <= MAX_UNIT && CutsAt(s, v) && forall w: nat :: u + 1 <= w < v ==> !LoopsAt(s, w) {
      assert forall w: nat :: u <= w < v && w != u ==> !LoopsAt(s, w);
    }
    if v: nat :| u <= v <= MAX_UNIT && CutsAt(s, v) && forall w: nat :: u <= w < v ==> !LoopsAt(s, w) {
      assert v > u ==> !LoopsAt(s, u);
    }
  }

  /** What the scan does at one unit length. */
  lemma {:induction false} ScanAt(s: string, u: nat)
    requires u <= MAX_UNIT
    ensures !(CutsAt(s, u) && LoopsAt(s, u))
    ensures CutsAt(s, u) ==> ScanFrom(s, u) == Panicked
    ensures LoopsAt(s, u) ==> ScanFrom(s, u).PatternLoop?
    ensures !CutsAt(s, u) && !LoopsAt(s, u) ==> ScanFrom(s, u) == ScanFrom(s, u + 1)
  {
    hide Segment, IsPure, ByteLen, CopiesFrom, CutCopy, CopyAt;
    var tail := Segment(s, 0, u);
    if tail.Some? {
      CopiesExact(s, tail.value, u, 1);
    }
  }

  /** So the detector panics on a chunk exactly when no run trips in it and the window then cuts. */
  lemma {:induction false} StepPanicsExactly(w: Window, text: string)
    ensures Step(w, text).1 == Panicked <==>
      text != "" && RunsFrom(w, text).1 == Quiet && PanicsFrom(CutRolling(w.rolling + text), MIN_UNIT)
  {
    hide RunsFrom, ScanFrom, PanicsFrom, CutRolling;
    RunsKeepRolling(w, text);
    ScanPanicsExactly(CutRolling(w.rolling + text), MIN_UNIT);
  }

  predicate ThreeByte(s: string) {
    forall i :: 0 <= i < |s| ==> Width(s[i]) == 3
  }

  lemma {:induction false} ThreeByteTail(s: string, n: nat)
    requires ThreeByte(s) && n % 3 != 0
    ensures DropTail(s, n) == None && ByteLen(s) == 3 * |s|
  {
    if s != "" {
      ThreeByteTail(s[..|s| - 1], if n > 3 then n - 3 else n);
    }
  }

  lemma {:induction false} ShortScan(s: string, u: nat)
    requires ByteLen(s) < u * PATTERN_REPEAT_COUNT
    ensures ScanFrom(s, u) == Quiet
    decreases MAX_UNIT + 1 - u
  {
    if u <= MAX_UNIT {
      hide Segment, IsPure, CopiesFrom, ByteLen;
      ShortScan(s, u + 1);
    }
  }

  /** Text of three-byte characters, such as Chinese, panics as soon as the window holds 54 of them. */
  lemma {:induction false} ThreeByteTextPanics(s: string)
    requires ThreeByte(s)
    ensures ScanFrom(s, MIN_UNIT) == if |s| >= 54 then Panicked else Quiet
  {
    hide IsPure, CopiesFrom;
    ThreeByteTail(s, MIN_UNIT);
    if |s| < 54 {
      ShortScan(s, MIN_UNIT);
    }
  }

  function Times(c: char, n: nat): string {
    if n == 0 then "" else Times(c, n - 1) + [c]
  }

  lemma {:induction false} TimesAll(c: char, n: nat)
    ensures |Times(c, n)| == n && forall i :: 0 <= i < n ==> Times(c, n)[i] == c
  {
    if n > 0 {
      TimesAll(c, n - 1);
    }
  }

  lemma {:induction false} RunsOfOne(w: Window, c: char, n: nat, text: string)
    requires w.lastChar == c && text == Times(c, n) && w.count + n < LimitFor(c)
    ensures RunsFrom(w, text) == (w.(count := w.count + n), Quiet)
    decreases n
  {
    hide LimitFor;
    TimesAll(c, n);
    if n > 0 {
      TimesAll(c, n - 1);
      assert text[1..] == Times(c, n - 1);
      RunsOfOne(w.(count := w.count + 1), c, n - 1, text[1..]);
    }
  }

  /** A fresh detector panics on one chunk of 54 times a Chinese character. */
  lemma {:induction false} ChinesePanics()
    ensures Step(NEW_WINDOW, Times('\U{4E2D}', 54)).1 == Panicked
  {
    hide RunsFrom, ScanFrom, Times, LimitFor, CutRolling;
    var text := Times('\U{4E2D}', 54);
    TimesAll('\U{4E2D}', 54);
    DefaultLimit();
    NewRun('\U{4E2D}', 53);
    assert "" + text == text;
    ChineseScan(text);
  }

  lemma {:induction false} DefaultLimit()
    ensures LimitFor('\U{4E2D}') == DEFAULT_LIMIT
  {
  }

  lemma {:induction false} NewRun(c: char, n: nat)
    requires n + 1 < LimitFor(c) && c != '\0'
    ensures RunsFrom(NEW_WINDOW, Times(c, n + 1)) == (NEW_WINDOW.(lastChar := c, count := n + 1), Quiet)
  {
    hide LimitFor;
    TimesAll(c, n + 1);
    TimesAll(c, n);
    assert Times(c, n + 1)[1..] == Times(c, n);
    RunsOfOne(NEW_WINDOW.(lastChar := c, count := 1), c, n, Times(c, n));
  }

  lemma {:induction false} ChineseScan(text: string)
    requires ThreeByte(text) && 54 <= |text| <= 500
    ensures ScanFrom(CutRolling(text), MIN_UNIT) == Panicked
  {
    hide ScanFrom;
    ThreeByteTail(text, 4);
    ThreeByteTextPanics(text);
  }
}
