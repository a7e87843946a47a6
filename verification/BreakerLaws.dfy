/** What trips the repetition detector, in plain numbers and characters. */
module BreakerLaws {
  import opened Text
  import opened Repetition

  predicate IsCode(c: char) {
    c in "+./\\<>|:;()[]{}'\"!?,~^&%$@"
  }

  predicate IsDivider(c: char) {
    c in "-=*# \t\n_"
  }

  /** How long a run of one character may get. */
  lemma {:induction false} LimitsAre(c: char)
    ensures LimitFor(c) == if IsCode(c) then 1000 else if IsDivider(c) then 250 else 100
  {
  }

  /** The rolling text, whenever it has more than 1500 bytes, loses as many characters as it has bytes too
      many, unless it has no more characters than that: then it loses none. */
  lemma {:induction false} CutExactly(s: string)
    ensures
      var excess := ByteLen(s) - 1500;
      CutRolling(s) == if 0 < excess < |s| then s[excess..] else s
  {
  }

  /** So on text of three-byte characters the window keeps less the more there is, and from 750
      characters on all of it. */
  lemma {:induction false} WideTextIsCut(s: string)
    requires ThreeByte(s)
    ensures |CutRolling(s)| == if |s| <= 500 || |s| >= 750 then |s| else 1500 - 2 * |s|
  {
    CutExactly(s);
    ThreeByteLength(s);
  }

  lemma {:induction false} ThreeByteLength(s: string)
    requires ThreeByte(s)
    ensures ByteLen(s) == 3 * |s|
  {
    if s != "" {
      ThreeByteLength(s[..|s| - 1]);
    }
  }

  /** The last `n` characters are one and the same. */
  predicate EndsInRun(s: string, n: nat) {
    0 < n <= |s| && forall i :: |s| - n <= i < |s| ==> s[i] == s[|s| - 1]
  }

  /** A text trips the detector exactly when it ends in a thousand equal code characters, 250 equal
      dividers, or a hundred of any other. */
  lemma {:induction false} TripsExactly(s: string)
    ensures RunTrips(s) <==>
      s != "" && var c := s[|s| - 1]; EndsInRun(s, if IsCode(c) then 1000 else if IsDivider(c) then 250 else 100)
  {
    hide LimitFor, IsCode, IsDivider;
    if s != "" {
      LimitsAre(s[|s| - 1]);
      RunLengthExact(s);
    }
  }

  /** The last `n * u` characters are `n` times the same `u` ones. */
  predicate EndsInPeriods(s: string, u: nat, n: nat) {
    n * u <= |s| && forall i: nat :: |s| - n * u <= i < |s| - u ==> s[i] == s[i + u]
  }

  /** The detector looks for forty copies of 4 to 32 characters that are not all code or dividers. */
  ghost predicate EndsInLoop(s: string, u: nat) {
    && 4 <= u <= 32 && EndsInPeriods(s, u, 40)
    && exists i :: |s| - u <= i < |s| && !IsCode(s[i]) && !IsDivider(s[i])
  }

  lemma {:induction false} CopyBegins(u: nat, r: nat)
    requires r < 40
    ensures (r + 1) * u <= 40 * u && (r + 1) * u == r * u + u
  {
  }

  /** `at` is the distance of the copy before the last `r` from the end. */
  lemma {:induction false} CopyIsPeriodic(s: string, u: nat, r: nat, k: nat, at: nat)
    requires EndsInPeriods(s, u, 40) && r < 40 && k < u && at == (r + 1) * u
    ensures at <= |s| && s[|s| - at + k] == s[|s| - u + k]
  {
    CopyBegins(u, r);
    if r > 0 {
      CopyBegins(u, r - 1);
      CopyIsPeriodic(s, u, r - 1, k, at - u);
      OnePeriod(s, u, |s| - at + k);
    }
  }

  lemma {:induction false} OnePeriod(s: string, u: nat, i: nat)
    requires EndsInPeriods(s, u, 40) && |s| - 40 * u <= i < |s| - u
    ensures s[i] == s[i + u]
  {
  }

  /** The copy and the place in it of a position. */
  lemma {:induction false} InCopy(s: string, u: nat, i: nat) returns (r: nat, k: nat)
    requires u > 0 && 40 * u <= |s| && |s| - 40 * u <= i < |s|
    ensures r < 40 && k < u && (r + 1) * u <= 40 * u && i == |s| - (r + 1) * u + k
    ensures i < |s| - u ==> r > 0
  {
    var d := |s| - 1 - i;
    r, k := d / u, u - 1 - d % u;
    assert d == r * u + d % u;
    Quotient(d, u);
    assert (r + 1) * u == r * u + u;
  }

  lemma {:induction false} Quotient(d: nat, u: nat)
    requires u > 0 && d < 40 * u
    ensures d / u < 40 && (d / u + 1) * u <= 40 * u && (d >= u ==> d / u > 0)
  {
    assert d == (d / u) * u + d % u;
    Smaller(d / u, 40, u);
  }

  lemma {:induction false} Smaller(a: nat, b: nat, u: nat)
    requires a * u < b * u
    ensures a < b && (a + 1) * u <= b * u
  {
  }

  lemma {:induction false} PeriodicExactly(s: string, u: nat)
    requires u > 0
    ensures EndsInCopies(s, u) <==> EndsInPeriods(s, u, 40)
  {
    hide SameInCopy;
    if EndsInCopies(s, u) {
      forall i: nat | |s| - 40 * u <= i < |s| - u
        ensures s[i] == s[i + u]
      {
        CopiesStep(s, u, i);
      }
    }
    if EndsInPeriods(s, u, 40) {
      forall r: nat, k: nat | r < PATTERN_REPEAT_COUNT && k < u
        ensures SameInCopy(s, u, r, k)
      {
        CopyIsPeriodic(s, u, r, k, (r + 1) * u);
        SameIs(s, u, r, k);
      }
    }
  }

  lemma {:induction false} SameIs(s: string, u: nat, r: nat, k: nat)
    requires r < 40 && u * 40 <= |s| && k < u
    ensures 0 <= |s| - (r + 1) * u + k < |s|
    ensures SameInCopy(s, u, r, k) <==> s[|s| - (r + 1) * u + k] == s[|s| - u + k]
  {
    CopyFits(s, u, r);
  }

  lemma {:induction false} CopiesStep(s: string, u: nat, i: nat)
    requires u > 0 && EndsInCopies(s, u) && |s| - 40 * u <= i < |s| - u
    ensures s[i] == s[i + u]
  {
    hide SameInCopy;
    var r, k := InCopy(s, u, i);
    assert SameInCopy(s, u, r, k) && SameInCopy(s, u, r - 1, k);
    SameIs(s, u, r, k);
    SameIs(s, u, r - 1, k);
    assert (r + 1) * u == r * u + u;
    assert |s| - (r - 1 + 1) * u + k == i + u;
  }

  lemma {:induction false} PureExactly(s: string, u: nat)
    requires u <= |s|
    ensures !IsPure(s[|s| - u..]) <==> exists i :: |s| - u <= i < |s| && !IsCode(s[i]) && !IsDivider(s[i])
  {
    hide IsCode, IsDivider;
    var unit := s[|s| - u..];
    forall c
      ensures IsCode(c) <==> c in CODE_REPEAT_CHARS
      ensures IsDivider(c) <==> c in DIVIDER_CHARS
    {
      Classes(c);
    }
    if !IsPure(unit) {
      var c :| c in unit && !(c in CODE_REPEAT_CHARS || c in DIVIDER_CHARS);
      var k :| 0 <= k < |unit| && unit[k] == c;
      assert s[|s| - u + k] == c;
    }
    if i :| |s| - u <= i < |s| && !IsCode(s[i]) && !IsDivider(s[i]) {
      assert s[i] == unit[i - (|s| - u)];
    }
  }

  lemma {:induction false} Classes(c: char)
    ensures IsCode(c) <==> c in CODE_REPEAT_CHARS
    ensures IsDivider(c) <==> c in DIVIDER_CHARS
  {
  }

  lemma {:induction false} LoopExactly(s: string, u: nat)
    ensures 4 <= u <= 32 && LoopOf(s, u) <==> EndsInLoop(s, u)
  {
    hide IsPure, IsCode, IsDivider;
    if u > 0 {
      PeriodicExactly(s, u);
      if EndsInPeriods(s, u, 40) {
        PureExactly(s, u);
      }
    }
  }

  /** What the unbounded detector finds is the shortest such loop, and nothing exactly when there is
      none. */
  lemma {:induction false} FindsExactly(s: string, verdict: Verdict)
    ensures LoopsBelow(s, MAX_UNIT + 1) <==> exists u :: EndsInLoop(s, u)
    ensures verdict.PatternLoop? ==>
      var u := |verdict.unit|;
      (FindsLoop(s, verdict) <==> EndsInLoop(s, u) && verdict.unit == s[|s| - u..] && forall v :: EndsInLoop(s, v) ==> u <= v)
    ensures FindsLoop(s, Quiet) <==> forall u :: !EndsInLoop(s, u)
  {
    hide LoopOf, EndsInPeriods;
    forall u: nat
      ensures 4 <= u <= 32 && LoopOf(s, u) <==> EndsInLoop(s, u)
    {
      LoopExactly(s, u);
    }
  }
}
