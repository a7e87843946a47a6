/** The cross-process task slots of `src/task/semaphore.rs`.

    One acquire attempt, one release and one sweep are each taken as a single step, although each is
    several file operations in the code. A process that died is never seen alive again. */
module Slots {
  import opened Text

  type pid = nat

  /** A slot file: a lease, or something that does not parse. */
  datatype File = Lease(tenant: pid, taskId: string, at: nat) | Unreadable

  datatype Claim = Claimed | Occupied

  datatype ReleaseResult = Released | NotOurs

  // -------------------------------------------------------------------------
  // What the slot files say
  // -------------------------------------------------------------------------

  /** A readable lease of a live process. */
  predicate LiveAt(files: map<nat, File>, alive: set<pid>, i: nat) {
    i in files && files[i].Lease? && files[i].tenant in alive
  }

  predicate HeldByOther(files: map<nat, File>, alive: set<pid>, me: pid, i: nat) {
    LiveAt(files, alive, i) && files[i].tenant != me
  }

  predicate AlienHolds(files: map<nat, File>, alive: set<pid>, max: nat, me: pid) {
    exists i :: 0 <= i < max && HeldByOther(files, alive, me, i)
  }

  predicate AllHeld(files: map<nat, File>, alive: set<pid>, n: nat) {
    forall i :: 0 <= i < n ==> LiveAt(files, alive, i)
  }

  /** What an attempt does: nothing at all, or a new lease in the lowest slot that no live process
      holds. */
  ghost predicate Attempted(
    files: map<nat, File>, alive: set<pid>, max: nat, me: pid, taskId: string, now: nat,
    slot: Option<nat>, after: map<nat, File>)
  {
    match slot
    case None => after == files && (AlienHolds(files, alive, max, me) || AllHeld(files, alive, max))
    case Some(i) =>
      && i < max && !AlienHolds(files, alive, max, me)
      && AllHeld(files, alive, i) && !LiveAt(files, alive, i)
      && after == files[i := Lease(me, taskId, now)]
  }

  /** What a release by `me` of slot `i` leaves: a live lease of another process stays. */
  function AfterRelease(files: map<nat, File>, alive: set<pid>, me: pid, i: nat): map<nat, File> {
    if HeldByOther(files, alive, me, i) then files else files - {i}
  }

  /** What waking the head leaves of the wait queue. */
  function AfterWake(queue: seq<nat>): seq<nat> {
    if queue == [] then [] else queue[1..]
  }

  /** What a release sees and changes: the shared slot files, and its own process's wait queue. */
  datatype Desk = Desk(files: map<nat, File>, queue: seq<nat>)

  function DeskAfter(d: Desk, alive: set<pid>, me: pid, i: nat): Desk {
    if HeldByOther(d.files, alive, me, i) then d else Desk(AfterRelease(d.files, alive, me, i), AfterWake(d.queue))
  }

  /** What a sweep leaves: the live leases. */
  function AfterClear(files: map<nat, File>, alive: set<pid>): map<nat, File> {
    map i | i in files && LiveAt(files, alive, i) :: files[i]
  }

  // -------------------------------------------------------------------------
  // The semaphore: one process's view of the shared slot directory
  // -------------------------------------------------------------------------

  class TaskSemaphore {
    const maxSlots: nat
    const me: pid
    const waiters: Waiters
    var files: map<nat, File>

    constructor (maxSlots: nat, me: pid, files: map<nat, File>)
      ensures this.maxSlots == (if maxSlots > 1 then maxSlots else 1) && this.me == me && this.files == files
      ensures fresh(waiters) && waiters.Valid() && waiters.queue == []
    {
      this.maxSlots := if maxSlots > 1 then maxSlots else 1;
      this.me := me;
      this.files := files;
      waiters := new Waiters();
    }

    /** `read_lease`. */
    function ReadLease(i: nat): Option<File>
      reads this
    {
      if i in files && files[i].Lease? then Some(files[i]) else None
    }

    /** `lease_reclaimable`; `alive` is what the liveness probe would say. */
    predicate Reclaimable(alive: set<pid>, lease: Option<File>) {
      lease.None? || !lease.value.Lease? || lease.value.tenant !in alive
    }

    /** `try_claim`. */
    method TryClaim(alive: set<pid>, i: nat, taskId: string, now: nat) returns (claim: Claim)
      modifies this
      ensures claim == if LiveAt(old(files), alive, i) then Occupied else Claimed
      ensures files == if claim == Claimed then old(files)[i := Lease(me, taskId, now)] else old(files)
    {
      if i !in files {
        files := files[i := Lease(me, taskId, now)];
        return Claimed;
      }
      var lease := ReadLease(i);
      if !Reclaimable(alive, lease) {
        return Occupied;
      }
      files := files - {i};
      files := files[i := Lease(me, taskId, now)];
      assert files == old(files)[i := Lease(me, taskId, now)];
      return Claimed;
    }

    /** `alien_tenant_active`. */
    method AlienTenantActive(alive: set<pid>) returns (active: bool)
      ensures active <==> AlienHolds(files, alive, maxSlots, me)
    {
      for i := 0 to maxSlots
        invariant forall k :: 0 <= k < i ==> !HeldByOther(files, alive, me, k)
      {
        var lease := ReadLease(i);
        if lease.Some? && !Reclaimable(alive, lease) && lease.value.tenant != me {
          assert HeldByOther(files, alive, me, i);
          return true;
        }
      }
      return false;
    }

    /** The fast path of `acquire`: one attempt. */
    method Attempt(alive: set<pid>, taskId: string, now: nat) returns (slot: Option<nat>)
      modifies this
      ensures Attempted(old(files), alive, maxSlots, me, taskId, now, slot, files)
      ensures slot == None <==> AlienHolds(old(files), alive, maxSlots, me) || AllHeld(old(files), alive, maxSlots)
    {
      var active := AlienTenantActive(alive);
      if !active {
        for i := 0 to maxSlots
          invariant files == old(files) && AllHeld(files, alive, i)
        {
          var claim := TryClaim(alive, i, taskId, now);
          if claim == Claimed {
            return Some(i);
          }
        }
      }
      return None;
    }

    /** `release`. */
    method Release(alive: set<pid>, i: nat) returns (result: ReleaseResult, woken: Option<nat>)
      requires me in alive && waiters.Valid()
      modifies this, waiters
      ensures waiters.Valid()
      ensures Desk(files, waiters.queue) == DeskAfter(old(Desk(files, waiters.queue)), alive, me, i)
      ensures result == if HeldByOther(old(files), alive, me, i) then NotOurs else Released
      ensures woken == if result == NotOurs || old(waiters.queue) == [] then None else Some(old(waiters.queue)[0])
      ensures
        var theirs := i in old(files) && old(files)[i].Lease? && old(files)[i].tenant in alive && old(files)[i].tenant != me;
        && (result == NotOurs <==> theirs)
        && (theirs ==> files == old(files) && waiters.queue == old(waiters.queue))
        && (!theirs ==> i !in files && waiters.queue == old(if waiters.queue == [] then [] else waiters.queue[1..]))
      ensures forall j :: j != i ==> (j in files <==> j in old(files)) && (j in files ==> files[j] == old(files)[j])
    {
      var cur := ReadLease(i);
      var shouldUnlink := cur.None? || cur.value.tenant == me || cur.value.tenant !in alive;
      if !shouldUnlink {
        return NotOurs, None;
      }
      files := files - {i};
      woken := waiters.WakeHead();
      return Released, woken;
    }

    /** `clear_reclaimable`: every slot file of the directory, in any order. */
    method ClearReclaimable(alive: set<pid>)
      modifies this
      ensures files == AfterClear(old(files), alive)
      ensures forall i :: i in files <==> i in old(files) && old(files)[i].Lease? && old(files)[i].tenant in alive
      ensures forall i :: i in files ==> files[i] == old(files)[i]
    {
      var entries := files.Keys;
      while entries != {}
        invariant entries <= old(files).Keys
        invariant forall i :: i in files <==> i in old(files) && (i in entries || LiveAt(old(files), alive, i))
        invariant forall i :: i in files ==> files[i] == old(files)[i]
        decreases entries
      {
        var i :| i in entries;
        var lease := ReadLease(i);
        if Reclaimable(alive, lease) {
          files := files - {i};
        }
        entries := entries - {i};
      }
    }
  }

  /** A release changes nothing exactly when another live process holds the slot, or the slot has no
      file and nobody waits. Those are the only double releases that are the documented no-op: any
      other one removes a file of the slot, its own process's newer lease included, or wakes a waiter
      for a slot that was free already. */
  lemma {:induction false} DoubleReleaseExactly(d: Desk, alive: set<pid>, me: pid, i: nat)
    ensures DeskAfter(d, alive, me, i) == d <==> HeldByOther(d.files, alive, me, i) || (i !in d.files && d.queue == [])
  {
    if !HeldByOther(d.files, alive, me, i) {
      if i in d.files {
        assert i !in DeskAfter(d, alive, me, i).files;
      } else {
        assert d.files - {i} == d.files;
      }
    }
  }

  /** A slot released, and released once more: with two waiters queued both are woken, for one free
      slot; and a lease that its process took in between is gone. */
  lemma {:induction false} DoubleReleaseShows(me: pid, a: nat, b: nat, now: nat)
    ensures
      var once := DeskAfter(Desk(map[0 := Lease(me, "t", now)], [a, b]), {me}, me, 0);
      once == Desk(map[], [b]) && DeskAfter(once, {me}, me, 0) == Desk(map[], [])
    ensures
      var again := Desk(map[0 := Lease(me, "u", now)], []);
      LiveAt(again.files, {me}, 0) && DeskAfter(again, {me}, me, 0) == Desk(map[], [])
  {
    assert map[0 := Lease(me, "t", now)] - {0} == map[];
    assert map[0 := Lease(me, "u", now)] - {0} == map[];
    var none: map<nat, File> := map[];
    assert none - {0} == none;
  }

  // -------------------------------------------------------------------------
  // Every run of every process
  // -------------------------------------------------------------------------

  /** What a successful acquire hands out. */
  datatype Handle = Handle(who: pid, slot: nat, serial: nat)

  /** The shared directory, the processes alive, those that ever lived, the handles not yet given back,
      and the number of handles handed out. */
  datatype System = System(files: map<nat, File>, alive: set<pid>, seen: set<pid>, held: set<Handle>, serial: nat)

  datatype Event =
    | Start(who: pid)
    | Die(who: pid)
    | Acquire(who: pid, taskId: string, now: nat, slot: Option<nat>)
    | GiveBack(handle: Handle)
    | Sweep(who: pid)

  /** A process may give back anything at any time, handles given back before included. */
  ghost predicate Next(max: nat, s: System, e: Event, t: System) {
    match e
    case Start(p) => p !in s.seen && t == s.(alive := s.alive + {p}, seen := s.seen + {p})
    case Die(p) => p in s.alive && t == s.(alive := s.alive - {p})
    case Acquire(p, taskId, now, slot) =>
      && p in s.alive
      && Attempted(s.files, s.alive, max, p, taskId, now, slot, t.files)
      && t == if slot.None? then s.(files := t.files)
              else s.(files := t.files, held := s.held + {Handle(p, slot.value, s.serial)}, serial := s.serial + 1)
    case GiveBack(h) =>
      h.who in s.alive && t == s.(files := AfterRelease(s.files, s.alive, h.who, h.slot), held := s.held - {h})
    case Sweep(p) => p in s.alive && t == s.(files := AfterClear(s.files, s.alive))
  }

  /** A sequence of states linked by events, over whatever files dead processes left. */
  ghost predicate IsRun(max: nat, states: seq<System>, events: seq<Event>) {
    && |states| == |events| + 1 && Starts(states[0])
    && forall k :: 0 <= k < |events| ==> NextAt(max, states, events, k)
  }

  ghost predicate Starts(s: System) {
    && s.alive == {} && s.held == {}
    && forall i :: i in s.files && s.files[i].Lease? ==> s.files[i].tenant in s.seen
  }

  ghost predicate NextAt(max: nat, states: seq<System>, events: seq<Event>, k: nat)
    requires k < |events| && |states| == |events| + 1
  {
    Next(max, states[k], events[k], states[k + 1])
  }

  /** All leases of live processes belong to one of them. */
  ghost predicate SingleTenant(s: System) {
    forall i, j :: LiveAt(s.files, s.alive, i) && LiveAt(s.files, s.alive, j) ==> s.files[i].tenant == s.files[j].tenant
  }

  ghost predicate Bounded(max: nat, s: System) {
    && s.alive <= s.seen
    && (forall h :: h in s.held ==> h.who in s.seen && h.serial < s.serial)
    && (forall i :: i in s.files && s.files[i].Lease? ==> s.files[i].tenant in s.seen)
    && forall i: nat :: LiveAt(s.files, s.alive, i) ==> i < max
  }

  ghost predicate Safe(max: nat, s: System) {
    SingleTenant(s) && Bounded(max, s)
  }

  lemma {:induction false} StepKeepsSafe(max: nat, s: System, e: Event, t: System)
    requires Safe(max, s) && Next(max, s, e, t)
    ensures Safe(max, t)
  {
    match e {
      case Acquire(_, _, _, slot) =>
        if slot.Some? {
          AcquireKeepsSafe(max, s, e, t);
        }
      case GiveBack(_) =>
        FewerFilesSafe(max, s, t);
      case Sweep(_) =>
        FewerFilesSafe(max, s, t);
      case Start(_) =>
        assert forall i :: LiveAt(t.files, t.alive, i) ==> LiveAt(s.files, s.alive, i);
      case Die(_) =>
        assert forall i :: LiveAt(t.files, t.alive, i) ==> LiveAt(s.files, s.alive, i);
    }
  }

  lemma {:induction false} FewerFilesSafe(max: nat, s: System, t: System)
    requires Safe(max, s) && t.alive == s.alive && t.seen == s.seen && t.held <= s.held && t.serial == s.serial
    requires forall i :: i in t.files ==> i in s.files && t.files[i] == s.files[i]
    ensures Safe(max, t)
  {
    assert forall i :: LiveAt(t.files, t.alive, i) ==> LiveAt(s.files, s.alive, i);
  }

  lemma {:induction false} AcquireKeepsSafe(max: nat, s: System, e: Event, t: System)
    requires Safe(max, s) && Next(max, s, e, t) && e.Acquire? && e.slot.Some?
    ensures Safe(max, t)
  {
    var p, i := e.who, e.slot.value;
    forall j: nat | LiveAt(t.files, t.alive, j)
      ensures t.files[j].tenant == p && j < max
    {
      if j != i {
        assert LiveAt(s.files, s.alive, j) && !HeldByOther(s.files, s.alive, p, j);
      }
    }
  }

  /** Every state of every run is safe, whatever is given back and when. */
  lemma {:induction false} RunsAreSafe(max: nat, states: seq<System>, events: seq<Event>, k: nat)
    requires IsRun(max, states, events) && k < |states|
    ensures Safe(max, states[k])
  {
    if k > 0 {
      hide Safe, Next;
      RunsAreSafe(max, states, events, k - 1);
      assert NextAt(max, states, events, k - 1);
      StepKeepsSafe(max, states[k - 1], events[k - 1], states[k]);
    }
  }

  /** A live lease outlives every step of every other process, their releases of the slot included, and
      every step of its owner but the release of that slot, and death. */
  lemma {:induction false} LiveLeaseStays(max: nat, s: System, e: Event, t: System, i: nat)
    requires Next(max, s, e, t) && LiveAt(s.files, s.alive, i)
    requires e != Die(s.files[i].tenant)
    requires e.GiveBack? && e.handle.slot == i ==> e.handle.who != s.files[i].tenant
    ensures LiveAt(t.files, t.alive, i) && t.files[i] == s.files[i]
  {
  }

  // -------------------------------------------------------------------------
  // Runs in which nothing is given back twice
  // -------------------------------------------------------------------------

  /** What a live process has been granted and has not given back is there, in its name. */
  ghost predicate GrantsAreReal(s: System) {
    forall h :: h in s.held && h.who in s.alive ==> RealGrant(s, h)
  }

  ghost predicate RealGrant(s: System, h: Handle) {
    h.slot in s.files && s.files[h.slot].Lease? && s.files[h.slot].tenant == h.who
  }

  /** No live process holds two handles for one slot. */
  ghost predicate GrantsAreApart(s: System) {
    forall g, h :: g in s.held && h in s.held && g.who in s.alive && g.who == h.who && g.slot == h.slot ==> g == h
  }

  /** Giving back leaves all other grants real exactly when the process holds no other handle for that
      slot: giving back a handle a second time costs it the one it holds by then. */
  lemma {:induction false} GiveBackKeepsGrantsExactly(max: nat, s: System, h: Handle, t: System)
    requires GrantsAreReal(s) && Next(max, s, GiveBack(h), t)
    ensures GrantsAreReal(t) <==> forall g :: g in s.held && g.who == h.who && g.slot == h.slot ==> g == h
  {
    forall g | g in t.held && g.who in t.alive
      ensures RealGrant(t, g) <==> !(g.who == h.who && g.slot == h.slot)
    {
      assert RealGrant(s, g);
    }
    if g :| g in s.held && g.who == h.who && g.slot == h.slot && g != h {
      assert g in t.held && !RealGrant(t, g);
    }
  }

  ghost predicate GivesBackOwn(states: seq<System>, events: seq<Event>) {
    |states| == |events| + 1 && forall k :: 0 <= k < |events| && events[k].GiveBack? ==> events[k].handle in states[k].held
  }

  lemma {:induction false} StepKeepsGrants(max: nat, s: System, e: Event, t: System)
    requires Safe(max, s) && Next(max, s, e, t) && GrantsAreReal(s) && GrantsAreApart(s)
    requires e.GiveBack? ==> e.handle in s.held
    ensures GrantsAreReal(t) && GrantsAreApart(t)
  {
    match e {
      case GiveBack(h) =>
        GiveBackKeepsGrantsExactly(max, s, h, t);
      case Acquire(p, _, _, slot) =>
        if slot.Some? {
          forall g | g in s.held && g.who in s.alive
            ensures g.slot != slot.value && RealGrant(t, g)
          {
            assert RealGrant(s, g) && LiveAt(s.files, s.alive, g.slot);
          }
        }
      case Sweep(_) =>
        forall g | g in t.held && g.who in t.alive
          ensures RealGrant(t, g)
        {
          assert RealGrant(s, g) && LiveAt(s.files, s.alive, g.slot);
        }
      case Start(_) =>
        assert forall g :: g in s.held ==> g.who in s.seen;
        assert forall g :: g in t.held && g.who in t.alive ==> RealGrant(s, g);
      case Die(_) =>
        assert forall g :: g in t.held && g.who in t.alive ==> RealGrant(s, g);
    }
  }

  /** When nothing is given back twice, what live processes believe to hold they hold: each slot once,
      all of them one process, within the slots. */
  lemma {:induction false} GrantsHold(max: nat, states: seq<System>, events: seq<Event>, k: nat)
    requires IsRun(max, states, events) && GivesBackOwn(states, events) && k < |states|
    ensures GrantsAreReal(states[k]) && GrantsAreApart(states[k])
    ensures
      var s := states[k];
      && (forall g, h :: g in s.held && h in s.held && g.who in s.alive && h.who in s.alive ==> g.who == h.who)
      && (forall g :: g in s.held && g.who in s.alive ==> g.slot < max)
  {
    if k > 0 {
      hide Safe, Next, GrantsAreReal, GrantsAreApart;
      GrantsHold(max, states, events, k - 1);
      RunsAreSafe(max, states, events, k - 1);
      assert NextAt(max, states, events, k - 1);
      StepKeepsGrants(max, states[k - 1], events[k - 1], states[k]);
    } else {
      assert states[0].held == {};
    }
    RunsAreSafe(max, states, events, k);
    GrantsBounded(max, states[k]);
  }

  lemma {:induction false} GrantsBounded(max: nat, s: System)
    requires (Safe(max, s) && GrantsAreReal(s)) || s.held == {}
    ensures forall g, h :: g in s.held && h in s.held && g.who in s.alive && h.who in s.alive ==> g.who == h.who
    ensures forall g :: g in s.held && g.who in s.alive ==> g.slot < max
  {
    forall g, h | g in s.held && h in s.held && g.who in s.alive && h.who in s.alive
      ensures g.who == h.who && g.slot < max
    {
      assert RealGrant(s, g) && RealGrant(s, h);
      assert LiveAt(s.files, s.alive, g.slot) && LiveAt(s.files, s.alive, h.slot);
    }
  }

  // -------------------------------------------------------------------------
  // The in-process queue of waiters
  // -------------------------------------------------------------------------

  predicate NoDuplicates(s: seq<nat>) {
    forall i, j :: 0 <= i < j < |s| ==> s[i] != s[j]
  }

  /** `retain(|q| q != id)`. */
  function Without(s: seq<nat>, id: nat): seq<nat> {
    if s == [] then []
    else Without(s[..|s| - 1], id) + if s[|s| - 1] == id then [] else [s[|s| - 1]]
  }

  lemma {:induction false} WithoutKeeps(s: seq<nat>, id: nat)
    ensures forall x :: x in Without(s, id) <==> x in s && x != id
    ensures NoDuplicates(s) ==> NoDuplicates(Without(s, id))
  {
    if s != [] {
      var shorter := s[..|s| - 1];
      WithoutKeeps(shorter, id);
      assert s == shorter + [s[|s| - 1]];
      assert forall x :: x in s <==> x in shorter || x == s[|s| - 1];
      assert NoDuplicates(s) ==> s[|s| - 1] !in shorter;
    }
  }

  /** The waiters that stay keep their order. */
  lemma {:induction false} WithoutKeepsOrder(s: seq<nat>, id: nat, k: nat)
    requires NoDuplicates(s) && k < |s| && s[k] == id
    ensures Without(s, id) == s[..k] + s[k + 1..]
  {
    var n := |s| - 1;
    var shorter := s[..n];
    if k < n {
      WithoutKeepsOrder(shorter, id, k);
      assert s[n] != id;
      hide Without, NoDuplicates;
      PutBack(s, k);
    } else {
      assert id !in shorter;
      WithoutAbsent(shorter, id);
      assert s[k + 1..] == [];
    }
  }

  lemma {:induction false} PutBack(s: seq<nat>, k: nat)
    requires k < |s| - 1
    ensures s[..|s| - 1][..k] + s[..|s| - 1][k + 1..] + [s[|s| - 1]] == s[..k] + s[k + 1..]
  {
  }

  lemma {:induction false} WithoutAbsent(s: seq<nat>, id: nat)
    requires id !in s
    ensures Without(s, id) == s
  {
    if s != [] {
      WithoutAbsent(s[..|s| - 1], id);
    }
  }

  class Waiters {
    var queue: seq<nat>
    /** The keys of the channel map: the waiters that can still be woken. */
    var channels: set<nat>
    var nextId: nat
    /** Ids drawn and not yet queued: drawing and queueing are separate steps. */
    ghost var drawn: set<nat>

    ghost predicate Valid()
      reads this
    {
      && NoDuplicates(queue)
      && (forall x :: x in queue <==> x in channels)
      && (forall x :: x in queue ==> x < nextId && x !in drawn)
      && (forall x :: x in drawn ==> x < nextId)
    }

    constructor ()
      ensures Valid() && queue == [] && drawn == {}
    {
      queue, channels, nextId, drawn := [], {}, 0, {};
    }

    method DrawId() returns (id: nat)
      requires Valid()
      modifies this`nextId, this`drawn
      ensures Valid() && id !in old(drawn) && id !in queue && drawn == old(drawn) + {id}
    {
      id := nextId;
      nextId := nextId + 1;
      drawn := drawn + {id};
    }

    method Enqueue(id: nat)
      requires Valid() && id in drawn
      modifies this`queue, this`channels, this`drawn
      ensures Valid() && queue == old(queue) + [id] && drawn == old(drawn) - {id}
    {
      queue := queue + [id];
      channels := channels + {id};
      drawn := drawn - {id};
    }

    /** After a wake or a timeout; a no-op when the release already took the entry out. */
    method Leave(id: nat)
      requires Valid()
      modifies this`queue, this`channels
      ensures Valid() && queue == Without(old(queue), id)
      ensures id !in old(queue) ==> queue == old(queue)
    {
      WithoutKeeps(queue, id);
      if id !in queue {
        WithoutAbsent(queue, id);
      }
      queue := Without(queue, id);
      channels := channels - {id};
    }

    /** The wake of `release`: the head, and nobody else. */
    method WakeHead() returns (woken: Option<nat>)
      requires Valid()
      modifies this`queue, this`channels
      ensures Valid()
      ensures if old(queue) == [] then woken == None && queue == []
              else woken == Some(old(queue)[0]) && queue == old(queue)[1..]
    {
      if queue == [] {
        return None;
      }
      var head := queue[0];
      queue := queue[1..];
      woken := if head in channels then Some(head) else None;
      channels := channels - {head};
      assert forall x :: x in old(queue) <==> x == head || x in queue;
    }
  }

  // -------------------------------------------------------------------------
  // Runs of the queue
  // -------------------------------------------------------------------------

  datatype QueueOp = Join(id: nat) | Quit(id: nat) | Wake

  /** What the methods of `Waiters` make of the queue. */
  function QueueAfter(ops: seq<QueueOp>): seq<nat> {
    if ops == [] then []
    else
      var queue := QueueAfter(ops[..|ops| - 1]);
      match ops[|ops| - 1]
      case Join(id) => queue + [id]
      case Quit(id) => Without(queue, id)
      case Wake => AfterWake(queue)
  }

  /** Operation `k` wakes `id`. */
  predicate Wakes(ops: seq<QueueOp>, k: nat, id: nat) {
    k < |ops| && ops[k].Wake? && QueueAfter(ops[..k]) != [] && QueueAfter(ops[..k])[0] == id
  }

  /** No id joins twice: each comes from the counter. */
  ghost predicate FreshIds(ops: seq<QueueOp>) {
    forall i, j :: 0 <= i < j < |ops| && ops[i].Join? && ops[j].Join? ==> ops[i].id != ops[j].id
  }

  ghost predicate Before(queue: seq<nat>, a: nat, b: nat) {
    exists p, q :: 0 <= p < q < |queue| && queue[p] == a && queue[q] == b
  }

  lemma {:induction false} NotJoined(ops: seq<QueueOp>, id: nat)
    requires forall m :: 0 <= m < |ops| ==> ops[m] != Join(id)
    ensures id !in QueueAfter(ops)
  {
    if ops != [] {
      var n := |ops| - 1;
      NotJoined(ops[..n], id);
      WithoutKeeps(QueueAfter(ops[..n]), if ops[n].Quit? then ops[n].id else id);
    }
  }

  lemma {:induction false} QueuedHasJoined(ops: seq<QueueOp>, id: nat)
    requires id in QueueAfter(ops)
    ensures exists m :: 0 <= m < |ops| && ops[m] == Join(id)
  {
    if forall m :: 0 <= m < |ops| ==> ops[m] != Join(id) {
      NotJoined(ops, id);
    }
  }

  lemma {:induction false} QueueNoDuplicates(ops: seq<QueueOp>)
    requires FreshIds(ops)
    ensures NoDuplicates(QueueAfter(ops))
  {
    if ops != [] {
      var n := |ops| - 1;
      QueueNoDuplicates(ops[..n]);
      match ops[n] {
        case Join(id) =>
          NotJoined(ops[..n], id);
        case Quit(id) =>
          WithoutKeeps(QueueAfter(ops[..n]), id);
        case Wake =>
      }
    }
  }

  lemma {:induction false} WithoutBefore(queue: seq<nat>, id: nat, a: nat, b: nat)
    requires Before(queue, a, b) && a != id && b != id
    ensures Before(Without(queue, id), a, b)
  {
    var p, q :| 0 <= p < q < |queue| && queue[p] == a && queue[q] == b;
    var n := |queue| - 1;
    var front := Without(queue[..n], id);
    if q == n {
      WithoutKeeps(queue[..n], id);
      assert queue[..n][p] == a && a in queue[..n] && a in front;
      var i :| 0 <= i < |front| && front[i] == a;
      assert Without(queue, id)[i] == a && Without(queue, id)[|front|] == b;
    } else {
      assert queue[..n][p] == a && queue[..n][q] == b;
      WithoutBefore(queue[..n], id, a, b);
      var i, j :| 0 <= i < j < |front| && front[i] == a && front[j] == b;
      assert Without(queue, id)[i] == a && Without(queue, id)[j] == b;
    }
  }

  /** `id` does not leave while it is queued: at its `Quit`, if any, it is out already. */
  ghost predicate NeverLeaves(ops: seq<QueueOp>, from: nat, id: nat) {
    forall m :: from < m < |ops| && ops[m] == Quit(id) ==> id !in QueueAfter(ops[..m])
  }

  lemma {:induction false} NeverLeavesPrefix(ops: seq<QueueOp>, n: nat, from: nat, id: nat)
    requires n <= |ops|
    ensures NeverLeaves(ops, from, id) ==> NeverLeaves(ops[..n], from, id)
    ensures NeverLeaves(ops[..n], from, id) <==>
      forall m :: from < m < n && ops[m] == Quit(id) ==> id !in QueueAfter(ops[..m])
  {
    hide QueueAfter;
    assert forall m :: 0 <= m < n ==> ops[..n][..m] == ops[..m] && ops[..n][m] == ops[m];
  }

  /** A waiter that has joined, did not leave while queued and has not been woken is in the queue. */
  lemma {:induction false} StillQueued(ops: seq<QueueOp>, i: nat, a: nat)
    requires i < |ops| && ops[i] == Join(a) && NeverLeaves(ops, i, a)
    requires forall w: nat :: !Wakes(ops, w, a)
    ensures a in QueueAfter(ops)
  {
    var n := |ops| - 1;
    if i < n {
      hide Without;
      WakesPrefix(ops, n);
      NeverLeavesPrefix(ops, n, i, a);
      StillQueued(ops[..n], i, a);
      var queue := QueueAfter(ops[..n]);
      match ops[n] {
        case Join(_) =>
        case Quit(id) =>
          WithoutKeeps(queue, id);
        case Wake =>
          assert !Wakes(ops, n, a);
          assert queue == [queue[0]] + queue[1..];
      }
    }
  }

  lemma {:induction false} OutStep(ops: seq<QueueOp>, a: nat)
    requires ops != [] && a !in QueueAfter(ops[..|ops| - 1]) && ops[|ops| - 1] != Join(a)
    ensures a !in QueueAfter(ops)
  {
    var queue := QueueAfter(ops[..|ops| - 1]);
    match ops[|ops| - 1] {
      case Join(_) =>
      case Quit(id) =>
        WithoutKeeps(queue, id);
      case Wake =>
    }
  }

  /** An id that has joined and is out of the queue stays out. */
  lemma {:induction false} OutStaysOut(ops: seq<QueueOp>, i: nat, m: nat, a: nat)
    requires FreshIds(ops) && i < m <= |ops| && ops[i] == Join(a) && a !in QueueAfter(ops[..m])
    ensures a !in QueueAfter(ops)
  {
    hide QueueAfter;
    var n := |ops| - 1;
    if m <= n {
      assert ops[..n][..m] == ops[..m] && ops[..n][i] == ops[i];
      assert FreshIds(ops[..n]) && ops[n] != Join(a);
      OutStaysOut(ops[..n], i, m, a);
      OutStep(ops, a);
    } else {
      assert ops[..m] == ops;
    }
  }

  /** An operation that wakes `a`, or takes it out, leaves a queue without it. */
  lemma {:induction false} OutAfter(ops: seq<QueueOp>, m: nat, a: nat)
    requires FreshIds(ops) && m < |ops| && (ops[m] == Quit(a) || Wakes(ops, m, a))
    ensures a !in QueueAfter(ops[..m + 1])
  {
    assert ops[..m + 1][..m] == ops[..m];
    var queue := QueueAfter(ops[..m]);
    QueueNoDuplicates(ops[..m]);
    WithoutKeeps(queue, a);
  }

  /** What is woken never leaves while it is queued. */
  lemma {:induction false} WokenNeverLeaves(ops: seq<QueueOp>, i: nat, w: nat, a: nat)
    requires FreshIds(ops) && i < |ops| && ops[i] == Join(a) && Wakes(ops, w, a)
    ensures NeverLeaves(ops, i, a)
  {
    hide QueueAfter;
    assert a in QueueAfter(ops[..w]);
    OutAfter(ops, w, a);
    JoinedBefore(ops, i, w, a);
    forall m | i < m < |ops| && ops[m] == Quit(a)
      ensures a !in QueueAfter(ops[..m])
    {
      if m < w {
        OutAfter(ops, m, a);
        assert ops[..w][..m + 1] == ops[..m + 1];
        OutStaysOut(ops[..w], i, m + 1, a);
      } else {
        assert ops[..m][..w + 1] == ops[..w + 1];
        OutStaysOut(ops[..m], i, w + 1, a);
      }
    }
  }

  lemma {:induction false} JoinedBefore(ops: seq<QueueOp>, i: nat, k: nat, a: nat)
    requires FreshIds(ops) && i < |ops| && ops[i] == Join(a) && k <= |ops| && a in QueueAfter(ops[..k])
    ensures i < k
  {
    QueuedHasJoined(ops[..k], a);
    var m :| 0 <= m < k && ops[..k][m] == Join(a);
    assert ops[m] == Join(a);
  }

  lemma {:induction false} WakesPrefix(ops: seq<QueueOp>, n: nat)
    requires n <= |ops|
    ensures forall w: nat, a: nat :: Wakes(ops[..n], w, a) <==> w < n && Wakes(ops, w, a)
  {
    forall w: nat, a: nat
      ensures Wakes(ops[..n], w, a) <==> w < n && Wakes(ops, w, a)
    {
      if w < n {
        assert ops[..n][..w] == ops[..w];
      }
    }
  }

  /** The queue is in the order of joining. */
  lemma {:induction false} QueuedInOrder(ops: seq<QueueOp>, i: nat, j: nat, a: nat, b: nat)
    requires FreshIds(ops) && i < j < |ops| && ops[i] == Join(a) && ops[j] == Join(b)
    requires a in QueueAfter(ops) && b in QueueAfter(ops)
    ensures Before(QueueAfter(ops), a, b)
  {
    var n := |ops| - 1;
    var queue, now := QueueAfter(ops[..n]), QueueAfter(ops);
    QueueNoDuplicates(ops[..n]);
    hide Without, NoDuplicates;
    match ops[n] {
      case Join(id) =>
        if j == n {
          assert a in queue;
          var p :| 0 <= p < |queue| && queue[p] == a;
          assert now[p] == a && now[|queue|] == b;
        } else {
          assert id != a && id != b;
          QueuedInOrder(ops[..n], i, j, a, b);
          var p, q :| 0 <= p < q < |queue| && queue[p] == a && queue[q] == b;
          assert now[p] == a && now[q] == b;
        }
      case Quit(id) =>
        WithoutKeeps(queue, id);
        QueuedInOrder(ops[..n], i, j, a, b);
        WithoutBefore(queue, id, a, b);
      case Wake =>
        assert queue != [] && queue == [queue[0]] + now;
        QueuedInOrder(ops[..n], i, j, a, b);
        BeforeInTail(queue, a, b);
    }
  }

  lemma {:induction false} BeforeInTail(queue: seq<nat>, a: nat, b: nat)
    requires NoDuplicates(queue) && Before(queue, a, b) && a in queue[1..]
    ensures Before(queue[1..], a, b)
  {
    var p, q :| 0 <= p < q < |queue| && queue[p] == a && queue[q] == b;
    var r :| 0 <= r < |queue[1..]| && queue[1..][r] == a;
    assert queue[r + 1] == a;
    assert queue[1..][p - 1] == a && queue[1..][q - 1] == b;
  }

  /** First in, first out: of the waiters that joined before `b`, exactly those are woken before `b` that
      did not leave while they were still queued. Every waiter takes itself out after its wake too; by
      then it is out already. */
  lemma {:induction false} FirstInFirstOut(ops: seq<QueueOp>, i: nat, j: nat, k: nat, a: nat, b: nat)
    requires FreshIds(ops) && i < j < |ops| && ops[i] == Join(a) && ops[j] == Join(b) && Wakes(ops, k, b)
    ensures (exists w: nat :: w < k && Wakes(ops, w, a)) <==>
      forall m :: i < m < k && ops[m] == Quit(a) ==> a !in QueueAfter(ops[..m])
  {
    hide Before, QueueAfter;
    var past := ops[..k];
    assert b in QueueAfter(past);
    JoinedBefore(ops, j, k, b);
    WakesPrefix(ops, k);
    NeverLeavesPrefix(ops, k, i, a);
    if w: nat :| w < k && Wakes(ops, w, a) {
      WokenNeverLeaves(past, i, w, a);
    } else if NeverLeaves(past, i, a) {
      StillQueued(past, i, a);
      QueuedInOrder(past, i, j, a, b);
      QueueNoDuplicates(past);
      FirstIsFirst(QueueAfter(past), a, b);
    }
  }

  lemma {:induction false} FirstIsFirst(queue: seq<nat>, a: nat, b: nat)
    requires NoDuplicates(queue) && Before(queue, a, b)
    ensures queue[0] != b
  {
  }

  /** A waiter that times out joins again under a new id, behind those that joined after it. */
  lemma {:induction false} TimeoutLosesPlace(a: nat, b: nat, again: nat)
    requires a != b && a != again && b != again
    ensures
      var ops := [Join(a), Join(b), Quit(a), Join(again), Wake];
      FreshIds(ops) && Wakes(ops, 4, b) && QueueAfter(ops) == [again]
  {
    hide QueueAfter, Without, NoDuplicates, Before;
    var o1, o2, o3 := [Join(a)], [Join(a), Join(b)], [Join(a), Join(b), Quit(a)];
    var o4 := o3 + [Join(again)];
    QueueStep([], Join(a));
    assert [] + [Join(a)] == o1 && QueueAfter(o1) == [a];
    QueueStep(o1, Join(b));
    assert o1 + [Join(b)] == o2 && QueueAfter(o2) == [a, b];
    QueueStep(o2, Quit(a));
    WithoutFirst(a, b);
    assert o2 + [Quit(a)] == o3 && QueueAfter(o3) == [b];
    QueueStep(o3, Join(again));
    assert QueueAfter(o4) == [b, again];
    QueueStep(o4, Wake);
    var ops := [Join(a), Join(b), Quit(a), Join(again), Wake];
    assert o4 + [Wake] == ops && ops[..4] == o4;
  }

  lemma {:induction false} WithoutFirst(a: nat, b: nat)
    requires a != b
    ensures Without([a, b], a) == [b]
  {
    WithoutKeepsOrder([a, b], a, 0);
    assert [a, b][..0] + [a, b][1..] == [b];
  }

  lemma {:induction false} QueueStep(ops: seq<QueueOp>, op: QueueOp)
    ensures QueueAfter(ops + [op]) ==
      match op
      case Join(id) => QueueAfter(ops) + [id]
      case Quit(id) => Without(QueueAfter(ops), id)
      case Wake => AfterWake(QueueAfter(ops))
    ensures QueueAfter([]) == []
  {
    assert (ops + [op])[..|ops|] == ops;
  }
}
