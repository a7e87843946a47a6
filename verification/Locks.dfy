/** The exclusive lock files with a time to live of `src/state/mod.rs`.

    One acquire and one release are each taken as a single step, although each is several file
    operations in the code. */
module Locks {
  import opened Text

  datatype LockInfo = LockInfo(pid: nat, heldAt: nat, ttl: nat)

  /** A lock file: none, a lock, or something that cannot be read or parsed. */
  datatype File = Absent | Held(info: LockInfo) | Corrupt

  datatype Acquisition = Acquired | HeldBy(pid: nat) | AcquireIo

  datatype Release = Released | Foreign(pid: nat) | NotHeld | ReleaseIo

  // -------------------------------------------------------------------------
  // One operation on one lock file
  // -------------------------------------------------------------------------

  /** The caller's time to live decides; the one in the file is never looked at. */
  function Acquiring(f: File, pid: nat, now: nat, ttl: nat): Acquisition {
    match f
    case Absent => Acquired
    case Corrupt => AcquireIo
    case Held(info) => if SaturatingSub(now, info.heldAt) < ttl then HeldBy(info.pid) else Acquired
  }

  function AfterAcquire(f: File, pid: nat, now: nat, ttl: nat): File {
    if Acquiring(f, pid, now, ttl) == Acquired then Held(LockInfo(pid, now, ttl)) else f
  }

  function Releasing(f: File, pid: nat): Release {
    match f
    case Absent => NotHeld
    case Corrupt => ReleaseIo
    case Held(info) => if info.pid == pid then Released else Foreign(info.pid)
  }

  function AfterRelease(f: File, pid: nat): File {
    if Releasing(f, pid) == Released then Absent else f
  }

  // -------------------------------------------------------------------------
  // The lock directory, as one process uses it
  // -------------------------------------------------------------------------

  class Locks {
    const pid: nat
    var files: map<string, File>

    constructor (pid: nat, files: map<string, File>)
      ensures this.pid == pid && this.files == files
    {
      this.pid, this.files := pid, files;
    }

    function At(name: string): File
      reads this
    {
      if name in files then files[name] else Absent
    }

    /** `read_lock`: an absent file is `None`, an unreadable one an error. */
    function ReadLock(name: string): Option<Option<LockInfo>>
      reads this
    {
      match At(name)
      case Absent => Some(None)
      case Held(info) => Some(Some(info))
      case Corrupt => None
    }

    /** `acquire`. */
    method Acquire(name: string, ttl: nat, now: nat) returns (result: Acquisition)
      modifies this
      ensures result == Acquiring(old(At(name)), pid, now, ttl)
      ensures At(name) == AfterAcquire(old(At(name)), pid, now, ttl)
      ensures forall other :: other != name ==> At(other) == old(At(other))
    {
      if At(name).Absent? {
        files := files[name := Held(LockInfo(pid, now, ttl))];
        return Acquired;
      }
      var read := ReadLock(name);
      if read.None? {
        return AcquireIo;
      }
      if read.value.Some? && SaturatingSub(now, read.value.value.heldAt) < ttl {
        return HeldBy(read.value.value.pid);
      }
      files := files[name := Absent];
      files := files[name := Held(LockInfo(pid, now, ttl))];
      return Acquired;
    }

    /** `release`. */
    method Release(name: string) returns (result: Release)
      modifies this
      ensures result == Releasing(old(At(name)), pid)
      ensures At(name) == AfterRelease(old(At(name)), pid)
      ensures forall other :: other != name ==> At(other) == old(At(other))
    {
      var read := ReadLock(name);
      if read.None? {
        return ReleaseIo;
      }
      if read.value.None? {
        return NotHeld;
      }
      if read.value.value.pid != pid {
        return Foreign(read.value.value.pid);
      }
      files := files[name := Absent];
      return Released;
    }
  }

  // -------------------------------------------------------------------------
  // Every run on one lock file
  // -------------------------------------------------------------------------

  datatype Request = Take(pid: nat, now: nat, ttl: nat) | Give(pid: nat, now: nat)

  function FileAfter(start: File, requests: seq<Request>): File {
    if requests == [] then start
    else
      var f := FileAfter(start, requests[..|requests| - 1]);
      match requests[|requests| - 1]
      case Take(pid, now, ttl) => AfterAcquire(f, pid, now, ttl)
      case Give(pid, _) => AfterRelease(f, pid)
  }

  predicate Granted(start: File, requests: seq<Request>, k: nat) {
    k < |requests| && requests[k].Take?
    && Acquiring(FileAfter(start, requests[..k]), requests[k].pid, requests[k].now, requests[k].ttl) == Acquired
  }

  /** The grant of request `k` and no successful release by its process since. */
  ghost predicate Unreleased(start: File, requests: seq<Request>, k: nat) {
    && Granted(start, requests, k)
    && forall j :: k < j < |requests| ==> !Frees(start, requests, j, requests[k].pid)
  }

  predicate Frees(start: File, requests: seq<Request>, j: nat, pid: nat)
    requires j < |requests|
  {
    requests[j].Give? && requests[j].pid == pid && Releasing(FileAfter(start, requests[..j]), pid) == Released
  }

  /** An acquire after grant `k` that asks for no more time than has passed since. */
  predicate Outlasts(requests: seq<Request>, k: nat, j: nat)
    requires k < |requests| && j < |requests|
  {
    requests[j].Take? && requests[j].ttl <= SaturatingSub(requests[j].now, requests[k].now)
  }

  function LockOf(r: Request): File
    requires r.Take?
  {
    Held(LockInfo(r.pid, r.now, r.ttl))
  }

  lemma {:induction false} UnreleasedBefore(start: File, requests: seq<Request>, k: nat)
    requires Unreleased(start, requests, k) && k < |requests| - 1
    ensures Unreleased(start, requests[..|requests| - 1], k) && !Frees(start, requests, |requests| - 1, requests[k].pid)
    ensures forall j :: k < j < |requests| - 1 ==>
      (Granted(start, requests[..|requests| - 1], j) <==> Granted(start, requests, j))
  {
    var before := requests[..|requests| - 1];
    assert forall j :: 0 <= j < |before| ==> before[..j] == requests[..j] && before[j] == requests[j];
    assert forall j :: k < j < |before| ==> (Frees(start, before, j, requests[k].pid) <==> Frees(start, requests, j, requests[k].pid));
  }

  /** On any run, with any clock and any times to live: an unreleased grant is followed by no other one,
      and is the lock in the file, exactly as long as no later acquire outlasts it. The time that its
      holder asked for plays no part. */
  lemma {:induction false} GrantStandsExactly(start: File, requests: seq<Request>, k: nat)
    requires Unreleased(start, requests, k)
    ensures (forall j :: k < j < |requests| ==> !Granted(start, requests, j)) && FileAfter(start, requests) == LockOf(requests[k])
      <==> forall j :: k < j < |requests| ==> !Outlasts(requests, k, j)
  {
    var n := |requests| - 1;
    if k < n {
      var before := requests[..n];
      UnreleasedBefore(start, requests, k);
      GrantStandsExactly(start, before, k);
      assert forall j :: k < j < n ==> (Outlasts(before, k, j) <==> Outlasts(requests, k, j));
      hide Unreleased;
      if forall j :: k < j < n ==> !Outlasts(requests, k, j) {
        assert FileAfter(start, before) == LockOf(requests[k]);
        assert Granted(start, requests, n) <==> Outlasts(requests, k, n);
      } else {
        var j :| k < j < n && Outlasts(requests, k, j);
        FirstOutlasting(start, requests, k, j);
      }
    }
  }

  lemma {:induction false} FirstOutlasting(start: File, requests: seq<Request>, k: nat, j: nat)
    requires Unreleased(start, requests, k) && k < j < |requests| && Outlasts(requests, k, j)
    ensures exists i :: k < i < |requests| && Granted(start, requests, i)
  {
    var before := requests[..j];
    UnreleasedPrefix(start, requests, k, j);
    GrantStandsExactly(start, before, k);
    if FileAfter(start, before) == LockOf(requests[k]) {
      assert Granted(start, requests, j);
    } else if i :| k < i < j && Granted(start, before, i) {
      assert before[..i] == requests[..i];
      assert Granted(start, requests, i);
    } else {
      var i :| k < i < j && Outlasts(before, k, i);
      FirstOutlasting(start, before, k, i);
    }
  }

  lemma {:induction false} UnreleasedPrefix(start: File, requests: seq<Request>, k: nat, j: nat)
    requires Unreleased(start, requests, k) && k < j <= |requests|
    ensures Unreleased(start, requests[..j], k)
  {
    var before := requests[..j];
    assert forall i :: 0 <= i < j ==> before[..i] == requests[..i] && before[i] == requests[i];
    assert forall i :: k < i < j ==> (Frees(start, before, i, requests[k].pid) <==> Frees(start, requests, i, requests[k].pid));
  }

  /** While a grant stands, the file names its process, time and time to live; whoever asks for the lock is
      told of that process, unless at least the time asked for has passed; only that process can give
      the lock back, and every other one is told of it. */
  lemma {:induction false} HolderIsNamed(start: File, requests: seq<Request>, k: nat, pid: nat, now: nat, ttl: nat)
    requires Unreleased(start, requests, k) && forall j :: k < j < |requests| ==> !Outlasts(requests, k, j)
    ensures
      var f, holder := FileAfter(start, requests), requests[k];
      && f == Held(LockInfo(holder.pid, holder.now, holder.ttl))
      && Acquiring(f, pid, now, ttl) == (if 0 < ttl && now < holder.now + ttl then HeldBy(holder.pid) else Acquired)
      && Releasing(f, pid) == (if pid == holder.pid then Released else Foreign(holder.pid))
      && FileAfter(start, requests + [Give(pid, now)]) == (if pid == holder.pid then Absent else f)
  {
    GrantStandsExactly(start, requests, k);
    assert (requests + [Give(pid, now)])[..|requests|] == requests;
  }

  /** The clock never runs backwards, and every acquire asks for at least `ttl`. */
  ghost predicate Orderly(requests: seq<Request>, ttl: nat, now: nat) {
    && (forall i, j :: 0 <= i <= j < |requests| ==> requests[i].now <= requests[j].now)
    && (forall i :: 0 <= i < |requests| ==> requests[i].now <= now)
    && (forall i :: 0 <= i < |requests| && requests[i].Take? ==> requests[i].ttl >= ttl)
  }

  ghost predicate YoungLease(start: File, requests: seq<Request>, ttl: nat, now: nat, k: nat) {
    Unreleased(start, requests, k) && SaturatingSub(now, requests[k].now) < ttl
  }

  /** So with one time to live, an unreleased lease younger than it is the one in the file. */
  lemma {:induction false} YoungLeaseIsInFile(start: File, requests: seq<Request>, ttl: nat, now: nat, k: nat)
    requires Orderly(requests, ttl, now) && YoungLease(start, requests, ttl, now, k)
    ensures FileAfter(start, requests) == LockOf(requests[k])
    ensures forall j :: k < j < |requests| ==> !Granted(start, requests, j)
  {
    hide Unreleased, Granted, FileAfter;
    GrantStandsExactly(start, requests, k);
    forall j | k < j < |requests|
      ensures !Outlasts(requests, k, j)
    {
    }
  }

  /** Mutual exclusion: there is at most one of them. */
  lemma {:induction false} AtMostOneYoungLease(start: File, requests: seq<Request>, ttl: nat, now: nat, j: nat, k: nat)
    requires Orderly(requests, ttl, now)
    requires YoungLease(start, requests, ttl, now, j) && YoungLease(start, requests, ttl, now, k)
    ensures j == k
  {
    hide Orderly;
    YoungLeaseIsInFile(start, requests, ttl, now, j);
    YoungLeaseIsInFile(start, requests, ttl, now, k);
  }

  /** Leases of different lengths do not exclude each other: a holder with time to spare loses the lock
      to a caller that asks for less time than has passed. */
  lemma {:induction false} ShortLeaseTakesOver()
    ensures
      var requests := [Take(1, 0, 100), Take(2, 10, 5)];
      && Unreleased(Absent, requests, 0) && Granted(Absent, requests, 1) && SaturatingSub(10, 0) < requests[0].ttl
      && FileAfter(Absent, requests) == LockOf(requests[1])
  {
    var requests := [Take(1, 0, 100), Take(2, 10, 5)];
    assert requests[..1] == [Take(1, 0, 100)] && requests[..0] == [] && requests[..1][..0] == [];
    assert FileAfter(Absent, requests[..1]) == LockOf(requests[0]);
  }

  /** A process that has lost the lock to another one and has not been granted it again cannot release
      it, whatever the clock and the times to live: the release is refused, and the file stays. */
  lemma {:induction false} LateReleaseRefused(start: File, requests: seq<Request>, k: nat, late: nat, now: nat)
    requires Granted(start, requests, k) && requests[k].pid != late
    requires forall j :: k < j < |requests| && Granted(start, requests, j) ==> requests[j].pid != late
    ensures Releasing(FileAfter(start, requests), late) != Released
    ensures FileAfter(start, requests + [Give(late, now)]) == FileAfter(start, requests)
  {
    assert (requests + [Give(late, now)])[..|requests|] == requests;
    var n := |requests| - 1;
    if k < n {
      var before := requests[..n];
      assert forall j :: 0 <= j < n ==> before[..j] == requests[..j] && before[j] == requests[j];
      assert forall j :: 0 <= j < n ==> (Granted(start, before, j) <==> Granted(start, requests, j));
      LateReleaseRefused(start, before, k, late, now);
    }
  }

  /** A lock file that cannot be parsed is never reclaimed, whatever its age, although the comment in
      `acquire` counts it as stale: the lock is lost to everyone. That is so exactly when the file was
      like that from the start; no run brings it about, and every other lock can be had in time. */
  lemma {:induction false} StuckExactly(start: File, requests: seq<Request>, pid: nat, now: nat, ttl: nat)
    ensures FileAfter(start, requests) == Corrupt <==> start == Corrupt
    ensures Acquiring(FileAfter(start, requests), pid, now, ttl) == AcquireIo <==> start == Corrupt
    ensures Releasing(FileAfter(start, requests), pid) == ReleaseIo <==> start == Corrupt
    ensures (exists n, t :: Acquiring(FileAfter(start, requests), pid, n, t) == Acquired) <==> start != Corrupt
  {
    if requests != [] {
      StuckExactly(start, requests[..|requests| - 1], pid, now, ttl);
    }
    var f := FileAfter(start, requests);
    if f != Corrupt {
      assert Acquiring(f, pid, 0, 0) == Acquired;
    }
  }
}
