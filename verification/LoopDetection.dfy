/** The sliding-window loop breaker of `src/runner/loop_detector.rs`. */
module LoopDetection {
  import opened Text

  datatype LoopState = Ok | Advisory | LoopDetected

  /** The last `threshold` entries of the whole history are one and the same. */
  ghost predicate Repeats(s: seq<nat>, threshold: nat) {
    |s| >= threshold >= 1 && forall i :: |s| - threshold <= i < |s| ==> s[i] == s[|s| - 1]
  }

  /** The unbounded detector: fires on `threshold` repetitions, provided the window can hold them. */
  ghost predicate Fires(s: seq<nat>, window: nat, threshold: nat) {
    threshold <= window && Repeats(s, threshold)
  }

  ghost predicate HasFired(s: seq<nat>, window: nat, threshold: nat) {
    exists k :: 0 < k <= |s| && Fires(s[..k], window, threshold)
  }

  /** The verdict on the newest entry of a history, with no window and no latch. */
  ghost function StateAfter(s: seq<nat>, window: nat, threshold: nat): LoopState
    requires s != []
  {
    if !Fires(s, window, threshold) then Ok
    else if HasFired(s[..|s| - 1], window, threshold) then LoopDetected
    else Advisory
  }

  class LoopDetector {
    const window: nat
    const threshold: nat
    var history: seq<nat>
    var advisoryInjected: bool
    /** Every hash ever recorded; the code keeps only the last `window` of them. */
    ghost var recorded: seq<nat>

    ghost predicate Valid()
      reads this
    {
      && window >= 1 && threshold >= 1
      && history == LastOf(recorded, window)
      && (advisoryInjected <==> HasFired(recorded, window, threshold))
    }

    constructor (window: nat, threshold: nat)
      ensures Valid() && recorded == []
      ensures this.window == (if window >= 1 then window else 1)
      ensures this.threshold == (if threshold >= 1 then threshold else 1)
    {
      this.window := if window >= 1 then window else 1;
      this.threshold := if threshold >= 1 then threshold else 1;
      history := [];
      advisoryInjected := false;
      recorded := [];
    }

    /** `record`: the windowed, latched detector gives the verdict of the unbounded one. */
    method Record(hash: nat) returns (state: LoopState)
      requires Valid()
      modifies this
      ensures Valid() && recorded == old(recorded) + [hash]
      ensures state == StateAfter(recorded, window, threshold)
    {
      recorded := recorded + [hash];
      history := history + [hash];
      if |history| > window {
        history := history[1..];
      }
      WindowSlides(old(recorded), hash, window);
      assert history == LastOf(recorded, window);
      var count := CountRun(history);
      hide Fires, HasFired, TrailingRun, LastOf;
      CountDecides(recorded, window, threshold, count);
      HasFiredStep(recorded, window, threshold);
      assert recorded[..|recorded| - 1] == old(recorded);
      if count >= threshold {
        if advisoryInjected {
          state := LoopDetected;
        } else {
          advisoryInjected := true;
          state := Advisory;
        }
      } else {
        state := Ok;
      }
    }
  }

  /** The backward scan over the history for entries equal to the newest one. */
  method CountRun(history: seq<nat>) returns (count: nat)
    requires history != []
    ensures TrailingRun(history, count)
  {
    var last := history[|history| - 1];
    count := 0;
    while count < |history| && history[|history| - 1 - count] == last
      invariant 0 <= count <= |history|
      invariant forall i :: |history| - count <= i < |history| ==> history[i] == last
    {
      count := count + 1;
    }
  }

  lemma {:induction false} WindowSlides(s: seq<nat>, h: nat, window: nat)
    requires window >= 1
    ensures var longer := LastOf(s, window) + [h];
      LastOf(s + [h], window) == if |longer| > window then longer[1..] else longer
  {
  }

  lemma {:induction false} RepeatsInWindow(s: seq<nat>, window: nat, threshold: nat)
    requires 1 <= threshold <= window
    ensures Repeats(LastOf(s, window), threshold) <==> Repeats(s, threshold)
  {
    var h := LastOf(s, window);
    var off := |s| - |h|;
    assert forall i :: 0 <= i < |h| ==> h[i] == s[off + i];
    assert forall i :: off <= i < |s| ==> s[i] == h[i - off];
  }

  /** The length of the trailing run of equal entries. */
  ghost predicate TrailingRun(h: seq<nat>, count: nat) {
    && count <= |h| && (forall i :: |h| - count <= i < |h| ==> h[i] == h[|h| - 1])
    && (count < |h| ==> h[|h| - 1 - count] != h[|h| - 1])
  }

  lemma {:induction false} RunMeansRepeats(h: seq<nat>, count: nat, threshold: nat)
    requires TrailingRun(h, count) && threshold >= 1
    ensures count >= threshold <==> Repeats(h, threshold)
  {
  }

  /** Counting the trailing run inside the window answers the question about the whole history. */
  lemma {:induction false} CountDecides(s: seq<nat>, window: nat, threshold: nat, count: nat)
    requires window >= 1 && threshold >= 1 && TrailingRun(LastOf(s, window), count)
    ensures count >= threshold <==> Fires(s, window, threshold)
  {
    hide Repeats;
    if threshold <= window {
      RunMeansRepeats(LastOf(s, window), count, threshold);
      RepeatsInWindow(s, window, threshold);
    }
  }

  lemma {:induction false} HasFiredStep(s: seq<nat>, window: nat, threshold: nat)
    requires s != []
    ensures HasFired(s, window, threshold) <==> HasFired(s[..|s| - 1], window, threshold) || Fires(s, window, threshold)
  {
    var before := s[..|s| - 1];
    assert forall k :: 0 < k <= |before| ==> before[..k] == s[..k];
    assert s[..|s|] == s;
  }

  // -------------------------------------------------------------------------
  // Whole runs of the detector
  // -------------------------------------------------------------------------

  /** No entry of the history was answered with `LoopDetected`. */
  ghost predicate NeverDetected(s: seq<nat>, window: nat, threshold: nat) {
    forall k :: 0 < k <= |s| ==> StateAfter(s[..k], window, threshold) != LoopDetected
  }

  /** The advisory is given at most once, and the hard stop comes only after it. */
  lemma {:induction false} AdvisoryOnceThenStop(s: seq<nat>, k: nat, window: nat, threshold: nat)
    requires 0 < k <= |s|
    ensures StateAfter(s[..k], window, threshold) == Advisory ==>
      forall j :: 0 < j < k ==> StateAfter(s[..j], window, threshold) == Ok
    ensures StateAfter(s[..k], window, threshold) == LoopDetected ==>
      exists j :: 0 < j < k && StateAfter(s[..j], window, threshold) == Advisory
  {
    assert s[..k][..k - 1] == s[..k - 1];
    if StateAfter(s[..k], window, threshold) == Advisory {
      forall j | 0 < j < k
        ensures StateAfter(s[..j], window, threshold) == Ok
      {
        assert s[..k - 1][..j] == s[..j];
      }
    }
    if StateAfter(s[..k], window, threshold) == LoopDetected {
      var j := FirstFire(s[..k - 1], window, threshold);
      assert s[..k - 1][..j] == s[..j];
    }
  }

  lemma {:induction false} FirstFire(s: seq<nat>, window: nat, threshold: nat) returns (j: nat)
    requires HasFired(s, window, threshold)
    ensures 0 < j <= |s| && StateAfter(s[..j], window, threshold) == Advisory
  {
    j :| 0 < j <= |s| && Fires(s[..j], window, threshold);
    while HasFired(s[..j - 1], window, threshold)
      invariant 0 < j <= |s| && Fires(s[..j], window, threshold)
      decreases j
    {
      var i :| 0 < i <= j - 1 && Fires(s[..j - 1][..i], window, threshold);
      assert s[..j - 1][..i] == s[..i];
      j := i;
    }
    assert s[..j][..j - 1] == s[..j - 1];
  }

  /** A history that never met the hard stop has no `threshold + 1` equal entries in a row, and at
      most one stretch of `threshold` equal entries. */
  lemma {:induction false} NeverDetectedMeans(s: seq<nat>, window: nat, threshold: nat)
    requires 1 <= threshold <= window && NeverDetected(s, window, threshold)
    ensures forall i, j :: 0 < i < j <= |s| ==> !(Repeats(s[..i], threshold) && Repeats(s[..j], threshold))
    ensures forall i :: threshold < i <= |s| ==> !Repeats(s[..i], threshold + 1)
  {
    forall i, j | 0 < i < j <= |s|
      ensures !(Repeats(s[..i], threshold) && Repeats(s[..j], threshold))
    {
      assert s[..j][..j - 1] == s[..j - 1] && s[..j - 1][..i] == s[..i];
      assert StateAfter(s[..j], window, threshold) != LoopDetected;
    }
    forall i | threshold < i <= |s|
      ensures !Repeats(s[..i], threshold + 1)
    {
      assert !(Repeats(s[..i - 1], threshold) && Repeats(s[..i], threshold));
      LongerRepeats(s[..i], threshold);
    }
  }

  lemma {:induction false} LongerRepeats(s: seq<nat>, threshold: nat)
    requires threshold >= 1
    ensures Repeats(s, threshold + 1) ==> Repeats(s, threshold) && Repeats(s[..|s| - 1], threshold)
  {
  }
}
