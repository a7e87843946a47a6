/** Every run of one process's task registry, over whatever mirror files earlier processes left: a task
    ends once, and stays as it ended, unless a new task is given its number. */
module RegistryLaws {
  import opened Text
  import opened Registry

  datatype Op =
    | Create(prompt: string, cwd: string, sessionId: string, now: nat, saved: bool)
    | Get(id: nat)
    | List
    | Update(id: nat, f: Record -> Record, saved: bool)
    | Transition(id: nat, status: Status, reason: Option<string>, now: nat, saved: bool)
    | Extend(id: nat, n: nat, now: nat, saved: bool)
    | Reap(alive: set<nat>, now: nat, saves: nat -> bool)

  ghost predicate Step(s: Store, op: Op, t: Store) {
    match op
    case Create(prompt, cwd, sessionId, now, saved) => t == Created(s, prompt, cwd, sessionId, now, saved)
    case Get(id) => t == Reload(s, id)
    case List => t == Listed(s)
    case Update(id, f, saved) => t == Updated(s, id, f, saved)
    case Transition(id, status, reason, now, saved) => t == Transitioned(s, id, status, reason, now, saved)
    case Extend(id, n, now, saved) => t == Extended(s, id, n, now, saved)
    case Reap(alive, now, saves) => Reaped(s, ExecutingIds(s), alive, now, saves, t)
  }

  /** An update that leaves the number, the status, the reason and the end of a record alone. */
  ghost predicate Keeps(f: Record -> Record) {
    forall r :: SameEnd(r, f(r))
  }

  predicate SameEnd(r: Record, q: Record) {
    q.id == r.id && q.status == r.status && q.reason == r.reason && q.endedAt == r.endedAt
  }

  ghost predicate Allowed(op: Op) {
    op.Update? ==> Keeps(op.f)
  }

  predicate Ended(s: Store, id: nat) {
    id in s.disk && s.disk[id].Good? && s.disk[id].record.status.IsTerminal()
  }

  /** The operation reports that it has brought the task to its end. */
  predicate Ends(s: Store, op: Op, id: nat) {
    match op
    case Transition(i, status, _, _, saved) =>
      i == id && status.IsTerminal() && saved && Current(s, id).Some? && !Current(s, id).value.status.IsTerminal()
    case Reap(alive, _, saves) => Orphaned(s, alive, id) && saves(id)
    case _ => false
  }

  /** The operation gives the number to a new task. */
  predicate Reuses(s: Store, op: Op, id: nat) {
    op.Create? && op.saved && id == s.nextSeq + 1
  }

  /** The end time is set exactly on ended tasks. */
  predicate Stamped(r: Record) {
    r.endedAt.Some? <==> r.status.IsTerminal()
  }

  predicate StampedAt(s: Store, id: nat) {
    && (TaskOf(s, id).Some? ==> Stamped(TaskOf(s, id).value))
    && (id in s.disk && s.disk[id].Good? ==> Stamped(s.disk[id].record))
  }

  /** What memory says of the task is what disk says. */
  predicate MirroredAt(s: Store, id: nat) {
    TaskOf(s, id).Some? ==> FileOf(s, id) == Some(Good(TaskOf(s, id).value))
  }

  function TaskOf(s: Store, id: nat): Option<Record> {
    if id in s.tasks then Some(s.tasks[id]) else None
  }

  predicate Readable(s: Store, id: nat) {
    id in s.disk && s.disk[id].Good?
  }

  /** A task in memory has a readable file. */
  predicate BackedAt(s: Store, id: nat) {
    id in s.tasks ==> Readable(s, id)
  }

  /** The operation is refused a write of the task's file. */
  predicate Refused(op: Op, id: nat) {
    match op
    case Create(_, _, _, _, saved) => !saved
    case Update(_, _, saved) => !saved
    case Transition(_, _, _, _, saved) => !saved
    case Extend(_, _, _, saved) => !saved
    case Reap(_, _, saves) => !saves(id)
    case _ => false
  }

  /** The operation leaves another record in memory than it found. */
  predicate Changes(s: Store, t: Store, id: nat) {
    TaskOf(t, id).Some? && TaskOf(t, id) != Current(s, id)
  }

  // -------------------------------------------------------------------------
  // What each operation makes of one task
  // -------------------------------------------------------------------------

  lemma {:induction false} CurrentAt(s: Store, id: nat)
    requires Named(s)
    ensures Current(s, id).Some? ==> Current(s, id).value.id == id
    ensures Current(s, id) == if id in s.disk && s.disk[id].Good? then Some(s.disk[id].record) else TaskOf(s, id)
  {
  }

  lemma {:induction false} PutAt(s: Store, i: nat, rec: Record, saved: bool, id: nat)
    requires rec.id == i
    ensures
      var u := Put(s, i, rec, saved);
      && u.nextSeq == s.nextSeq
      && TaskOf(u, id) == (if id == i then Some(rec) else TaskOf(s, id))
      && FileOf(u, id) == if id == i && saved then Some(Good(rec)) else FileOf(s, id)
  {
  }

  lemma {:induction false} ReloadAt(s: Store, i: nat, id: nat)
    ensures
      var u := Reload(s, i);
      && u.nextSeq == s.nextSeq && FileOf(u, id) == FileOf(s, id)
      && TaskOf(u, id) == if id == i then Current(s, i) else TaskOf(s, id)
  {
  }

  lemma {:induction false} ListedAt(s: Store, id: nat)
    ensures
      var u := Listed(s);
      u.nextSeq == s.nextSeq && FileOf(u, id) == FileOf(s, id) && TaskOf(u, id) == Current(s, id)
  {
  }

  /** `extend_budget` reloads the disk copy over its own change before it saves: over a readable mirror
      file, whatever it reports, the stored record is the old one. */
  lemma {:induction false} ExtendedAt(s: Store, i: nat, n: nat, now: nat, saved: bool, id: nat)
    requires Named(s)
    ensures Extended(s, i, n, now, saved).nextSeq == s.nextSeq
    ensures id != i || Readable(s, i) ==> FileOf(Extended(s, i, n, now, saved), id) == FileOf(s, id)
    ensures id != i ==> TaskOf(Extended(s, i, n, now, saved), id) == TaskOf(s, id)
    ensures Readable(s, i) ==> TaskOf(Extended(s, i, n, now, saved), i) in {TaskOf(s, i), Current(s, i)}
    ensures !Readable(s, i) && TaskOf(s, i).Some? ==> ExtendedInPlace(s, Extended(s, i, n, now, saved), i, saved)
    ensures TaskOf(s, i).None? ==> Extended(s, i, n, now, saved) == s
  {
  }

  /** Nothing happens to the record, or it is extended in memory and, if that can be written, on disk. */
  predicate ExtendedInPlace(s: Store, u: Store, id: nat, saved: bool)
    requires TaskOf(s, id).Some?
  {
    u == s ||
    (&& TaskOf(u, id).Some? && SameEnd(TaskOf(s, id).value, TaskOf(u, id).value)
     && FileOf(u, id) == if saved then Some(Good(TaskOf(u, id).value)) else FileOf(s, id))
  }

  lemma {:induction false} ReapedAt(s: Store, alive: set<nat>, now: nat, saves: nat -> bool, t: Store, id: nat)
    requires Reaped(s, ExecutingIds(s), alive, now, saves, t)
    ensures t.nextSeq == s.nextSeq && (id in t.tasks <==> id in s.tasks)
    ensures FileOf(t, id) == if Orphaned(s, alive, id) && saves(id) then Some(Good(Buried(s, id, now))) else FileOf(s, id)
    ensures id in s.tasks ==> t.tasks[id] == RecordAfter(s, ExecutingIds(s), alive, now, id)
  {
    hide Moved, Current;
    assert FileOf(t, id) == FileAfter(s, ExecutingIds(s), alive, now, saves, id);
    if id in s.tasks {
      assert t.tasks[id] == RecordAfter(s, ExecutingIds(s), alive, now, id);
    }
  }

  lemma {:induction false} MovedAs(rec: Record, status: Status, reason: Option<string>, now: nat)
    ensures
      var moved := Moved(rec, status, reason, now);
      && moved.id == rec.id && moved.status == status && moved.reason == reason
      && (Stamped(rec) && !rec.status.IsTerminal() ==> Stamped(moved))
  {
  }

  lemma {:induction false} BuriedAs(s: Store, alive: set<nat>, id: nat, now: nat)
    requires Named(s)
    ensures Orphaned(s, alive, id) ==>
      && Current(s, id).Some? && !Current(s, id).value.status.IsTerminal()
      && Buried(s, id, now) == Moved(Current(s, id).value, Failed, Some(ORPHAN_REASON), now)
      && Buried(s, id, now).id == id && Buried(s, id, now).status == Failed
      && (StampedAt(s, id) ==> Stamped(Buried(s, id, now)))
  {
    hide Moved;
    CurrentAt(s, id);
    if Orphaned(s, alive, id) {
      MovedAs(Current(s, id).value, Failed, Some(ORPHAN_REASON), now);
    }
  }

  // -------------------------------------------------------------------------
  // One step
  // -------------------------------------------------------------------------

  /** Records stay under their own numbers. */
  ghost predicate NamedAt(s: Store, id: nat) {
    && (TaskOf(s, id).Some? ==> TaskOf(s, id).value.id == id)
    && (id in s.disk && s.disk[id].Good? ==> s.disk[id].record.id == id)
  }

  /** What a task's memory record and mirror file are after a step, from what they were. */
  ghost predicate StepAtTask(s: Store, op: Op, t: Store, id: nat) {
    && NamedAt(t, id)
    && (StampedAt(s, id) ==> StampedAt(t, id))
    && (Ended(s, id) && !Reuses(s, op, id) ==> Ended(t, id) && SameEnd(s.disk[id].record, t.disk[id].record))
    && (Ended(s, id) ==> !Ends(s, op, id))
    && (Ends(s, op, id) ==> Ended(t, id))
    && (MirroredAt(s, id) ==> (MirroredAt(t, id) <==> !(Refused(op, id) && Changes(s, t, id))))
    && (BackedAt(s, id) ==> BackedAt(t, id))
    && (Readable(s, id) ==> Readable(t, id))
    && (id in s.disk ==> id in t.disk)
    && (id in t.disk ==> id in s.disk || id in s.tasks || Reuses(s, op, id))
    && (id in t.tasks ==> id in s.tasks || id in s.disk || Reuses(s, op, id))
  }

  lemma {:induction false} PutStep(s: Store, op: Op, i: nat, rec: Record, saved: bool, id: nat)
    requires Named(s) && Current(s, i).Some? && rec.id == i
    requires StampedAt(s, i) ==> Stamped(rec)
    requires (op.Update? && SameEnd(Current(s, i).value, rec)) || (op.Transition? && op.id == i && op.status == rec.status)
    requires op.saved == saved
    requires !Current(s, i).value.status.IsTerminal() || op.Update?
    ensures StepAtTask(s, op, Put(s, i, rec, saved), id)
  {
    hide Put, Current;
    CurrentAt(s, i);
    CurrentAt(s, id);
    PutAt(s, i, rec, saved, id);
    var t := Put(s, i, rec, saved);
    assert id in t.disk <==> FileOf(t, id).Some?;
    assert id in s.disk <==> FileOf(s, id).Some?;
  }

  lemma {:induction false} SameFileStep(s: Store, op: Op, t: Store, id: nat)
    requires Named(s) && FileOf(t, id) == FileOf(s, id) && !Reuses(s, op, id) && !Ends(s, op, id)
    requires TaskOf(t, id) in {TaskOf(s, id), Current(s, id)}
    ensures StepAtTask(s, op, t, id)
  {
    hide Ends;
    CurrentAt(s, id);
    assert id in t.disk <==> FileOf(t, id).Some?;
    assert id in s.disk <==> FileOf(s, id).Some?;
  }

  lemma {:induction false} ExtendStep(s: Store, i: nat, n: nat, now: nat, saved: bool, id: nat)
    requires Named(s)
    ensures StepAtTask(s, Extend(i, n, now, saved), Extended(s, i, n, now, saved), id)
  {
    hide Extended, Current;
    var t := Extended(s, i, n, now, saved);
    CurrentAt(s, id);
    ExtendedAt(s, i, n, now, saved, id);
    assert id in t.disk <==> FileOf(t, id).Some?;
    assert id in s.disk <==> FileOf(s, id).Some?;
  }

  lemma {:induction false} ReapStep(s: Store, alive: set<nat>, now: nat, saves: nat -> bool, t: Store, id: nat)
    requires Named(s) && Reaped(s, ExecutingIds(s), alive, now, saves, t)
    ensures StepAtTask(s, Reap(alive, now, saves), t, id)
  {
    hide Reaped, Current, Orphaned, Moved, Buried;
    CurrentAt(s, id);
    ReapedAt(s, alive, now, saves, t, id);
    BuriedAs(s, alive, id, now);
    InMemory(s, alive, id);
    assert id in t.disk <==> FileOf(t, id).Some?;
    assert id in s.disk <==> FileOf(s, id).Some?;
  }

  lemma {:induction false} InMemory(s: Store, alive: set<nat>, id: nat)
    ensures Orphaned(s, alive, id) ==> id in s.tasks && id in ExecutingIds(s)
    ensures id in s.tasks ==> Current(s, id).Some?
  {
  }

  lemma {:induction false} CreateStep(s: Store, op: Op, t: Store, id: nat)
    requires Named(s) && op.Create? && Step(s, op, t)
    ensures StepAtTask(s, op, t, id)
  {
  }

  /** Any step from any store, at any task. */
  lemma {:induction false} StepTask(s: Store, op: Op, t: Store, id: nat)
    requires Named(s) && Step(s, op, t) && Allowed(op)
    ensures StepAtTask(s, op, t, id)
  {
    hide StepAtTask, Moved, Reaped, Put, Current, Reload, Listed, Extended, Orphaned, Named;
    match op {
      case Create(_, _, _, _, _) =>
        CreateStep(s, op, t, id);
      case Get(i) =>
        ReloadAt(s, i, id);
        SameFileStep(s, op, t, id);
      case List =>
        ListedAt(s, id);
        SameFileStep(s, op, t, id);
      case Update(i, f, saved) =>
        CurrentAt(s, i);
        if Current(s, i).Some? {
          assert SameEnd(Current(s, i).value, f(Current(s, i).value));
          CurrentStamped(s, i);
          PutStep(s, op, i, f(Current(s, i).value), saved, id);
        } else {
          SameFileStep(s, op, t, id);
        }
      case Transition(i, status, reason, now, saved) =>
        CurrentAt(s, i);
        ReloadAt(s, i, id);
        if Current(s, i).Some? && !Current(s, i).value.status.IsTerminal() {
          CurrentStamped(s, i);
          MovedAs(Current(s, i).value, status, reason, now);
          PutStep(s, op, i, Moved(Current(s, i).value, status, reason, now), saved, id);
        } else {
          SameFileStep(s, op, t, id);
        }
      case Extend(i, n, now, saved) =>
        ExtendStep(s, i, n, now, saved, id);
      case Reap(alive, now, saves) =>
        ReapStep(s, alive, now, saves, t, id);
    }
  }

  lemma {:induction false} CurrentStamped(s: Store, id: nat)
    requires Named(s) && Current(s, id).Some?
    ensures StampedAt(s, id) ==> Stamped(Current(s, id).value)
  {
  }

  lemma {:induction false} StepKeepsNamed(s: Store, op: Op, t: Store)
    requires Named(s) && Step(s, op, t) && Allowed(op)
    ensures Named(t)
  {
    hide Step, Allowed, Ends, Ended, StampedAt, MirroredAt, Refused, Changes, BackedAt;
    forall id
      ensures NamedAt(t, id)
    {
      StepTask(s, op, t, id);
    }
    forall id | id in t.tasks
      ensures t.tasks[id].id == id
    {
      assert NamedAt(t, id);
    }
    forall id | id in t.disk && t.disk[id].Good?
      ensures t.disk[id].record.id == id
    {
      assert NamedAt(t, id);
    }
  }

  /** From any store: no operation ends an ended task again, and it stays as it ended exactly when the
      operation does not give its number to a new task. */
  lemma {:induction false} EndedStaysExactly(s: Store, op: Op, t: Store, id: nat)
    requires Named(s) && Step(s, op, t) && Allowed(op) && Ended(s, id)
    ensures !Ends(s, op, id)
    ensures Ended(t, id) && SameEnd(s.disk[id].record, t.disk[id].record) <==> !Reuses(s, op, id)
  {
    StepTask(s, op, t, id);
    hide StepAtTask;
  }

  lemma {:induction false} NextNumber(s: Store, op: Op, t: Store)
    requires Step(s, op, t)
    ensures t.nextSeq == s.nextSeq + if op.Create? then 1 else 0
  {
    hide Reaped;
    match op {
      case Extend(_, _, _, _) =>
      case Reap(alive, now, saves) =>
        SameNumber(s, alive, now, saves, t);
      case _ =>
    }
  }

  lemma {:induction false} SameNumber(s: Store, alive: set<nat>, now: nat, saves: nat -> bool, t: Store)
    requires Reaped(s, ExecutingIds(s), alive, now, saves, t)
    ensures t.nextSeq == s.nextSeq
  {
  }

  // -------------------------------------------------------------------------
  // Whole runs
  // -------------------------------------------------------------------------

  /** A run of one process, from empty memory and whatever is on disk. */
  ghost predicate IsRun(states: seq<Store>, ops: seq<Op>) {
    && |states| == |ops| + 1
    && states[0].tasks == map[] && states[0].nextSeq == 0 && Named(states[0])
    && forall k :: 0 <= k < |ops| ==> StepAt(states, ops, k)
  }

  ghost predicate StepAt(states: seq<Store>, ops: seq<Op>, k: nat)
    requires k < |ops| && |states| == |ops| + 1
  {
    Step(states[k], ops[k], states[k + 1]) && Allowed(ops[k])
  }

  /** The task is ended in state `i` as it was in state `j`. */
  ghost predicate EndedAs(states: seq<Store>, j: nat, i: nat, id: nat)
    requires j < |states| && i < |states| && Ended(states[j], id)
  {
    Ended(states[i], id) && SameEnd(states[j].disk[id].record, states[i].disk[id].record)
  }

  lemma {:induction false} RunIsNamed(states: seq<Store>, ops: seq<Op>, k: nat)
    requires IsRun(states, ops) && k < |states|
    ensures Named(states[k])
  {
    if k > 0 {
      hide Step, Allowed, Named;
      RunIsNamed(states, ops, k - 1);
      assert StepAt(states, ops, k - 1);
      StepKeepsNamed(states[k - 1], ops[k - 1], states[k]);
    }
  }

  lemma {:induction false} RunStep(states: seq<Store>, ops: seq<Op>, k: nat, id: nat)
    requires IsRun(states, ops) && k < |ops|
    ensures StepAtTask(states[k], ops[k], states[k + 1], id) && Named(states[k]) && Step(states[k], ops[k], states[k + 1])
    ensures Ended(states[k], id) ==> !Ends(states[k], ops[k], id)
    ensures Ended(states[k], id) ==> (EndedAs(states, k, k + 1, id) <==> !Reuses(states[k], ops[k], id))
  {
    hide Step, Allowed, Named, StepAtTask, Ends, Ended, Reuses;
    RunIsNamed(states, ops, k);
    assert StepAt(states, ops, k);
    StepTask(states[k], ops[k], states[k + 1], id);
    if Ended(states[k], id) {
      EndedStaysExactly(states[k], ops[k], states[k + 1], id);
    }
  }

  /** If the end time goes with the status in the file of a task, if any, that the run finds, it does so
      in memory and on disk in every state of the run. */
  lemma {:induction false} RunIsStamped(states: seq<Store>, ops: seq<Op>, k: nat, id: nat)
    requires IsRun(states, ops) && k < |states| && StampedAt(states[0], id)
    ensures StampedAt(states[k], id)
  {
    if k > 0 {
      RunIsStamped(states, ops, k - 1, id);
      RunStep(states, ops, k - 1, id);
      hide IsRun, StampedAt, Ends, Ended;
    }
  }

  /** No step from `j` up to `k` gives the number to a new task. */
  ghost predicate NotReused(states: seq<Store>, ops: seq<Op>, j: nat, k: nat, id: nat)
    requires |states| == |ops| + 1 && k < |states|
  {
    forall i :: j <= i < k ==> !Reuses(states[i], ops[i], id)
  }

  /** An ended task keeps its status, its reason and its end time from then on exactly as long as its
      number is not given to a new task. */
  lemma {:induction false} EndedForGoodExactly(states: seq<Store>, ops: seq<Op>, j: nat, k: nat, id: nat)
    requires IsRun(states, ops) && j <= k < |states| && Ended(states[j], id)
    ensures (forall i :: j <= i <= k ==> EndedAs(states, j, i, id)) <==> NotReused(states, ops, j, k, id)
  {
    if j < k {
      hide Ends, Step, StepAtTask, Named;
      EndedForGoodExactly(states, ops, j, k - 1, id);
      RunStep(states, ops, k - 1, id);
      hide IsRun, Ended, Reuses;
      if NotReused(states, ops, j, k - 1, id) {
        assert EndedAs(states, j, k - 1, id);
        assert EndedAs(states, j, k, id) <==> !Reuses(states[k - 1], ops[k - 1], id);
      } else {
        var i :| j <= i < k - 1 && Reuses(states[i], ops[i], id);
        var e :| j <= e <= k - 1 && !EndedAs(states, j, e, id);
      }
    }
  }

  /** Two ends of one number in a run, failing writes included, mean that in between the number was
      given to a new task. */
  lemma {:induction false} EndsOnce(states: seq<Store>, ops: seq<Op>, j: nat, k: nat, id: nat)
    requires IsRun(states, ops) && j < k < |ops| && Ends(states[j], ops[j], id) && Ends(states[k], ops[k], id)
    ensures !NotReused(states, ops, j + 1, k, id)
  {
    RunStep(states, ops, j, id);
    RunStep(states, ops, k, id);
    hide Ends, Step, Reuses, Named, IsRun;
    assert Ended(states[j + 1], id) && !Ended(states[k], id);
    EndedForGoodExactly(states, ops, j + 1, k, id);
    assert !EndedAs(states, j + 1, k, id);
  }

  /** The numbers on disk are those found at the start and those given since; the former never go. */
  lemma {:induction false} NumbersOnDisk(states: seq<Store>, ops: seq<Op>, k: nat, id: nat)
    requires IsRun(states, ops) && k < |states|
    ensures id in states[0].disk ==> id in states[k].disk
    ensures id in states[k].disk || id in states[k].tasks ==> id in states[0].disk || 1 <= id <= states[k].nextSeq
  {
    if k > 0 {
      NumbersOnDisk(states, ops, k - 1, id);
      RunStep(states, ops, k - 1, id);
      NextNumber(states[k - 1], ops[k - 1], states[k]);
      hide Step, IsRun, Named, Ended, Ends, StampedAt, MirroredAt, NamedAt;
    }
  }

  /** A create of any run takes over the file of an old task exactly when the run found one of that
      number; it never takes over a task of its own run. */
  lemma {:induction false} CreateOverwritesExactly(states: seq<Store>, ops: seq<Op>, k: nat)
    requires IsRun(states, ops) && k < |ops| && ops[k].Create? && ops[k].saved
    ensures
      var id, op := states[k].nextSeq + 1, ops[k];
      var rec := Record(id, Queued, None, op.prompt, op.cwd, op.sessionId, None, op.now, 0, op.now, None, None);
      (id in states[k].disk <==> id in states[0].disk) && states[k + 1].disk == states[k].disk[id := Good(rec)]
  {
    hide Named, Allowed;
    NumbersOnDisk(states, ops, k, states[k].nextSeq + 1);
    assert StepAt(states, ops, k);
  }

  /** So a task that its own run created ends at most once, without condition. */
  lemma {:induction false} OwnTaskEndsOnce(states: seq<Store>, ops: seq<Op>, j: nat, k: nat, id: nat)
    requires IsRun(states, ops) && j < k < |ops| && id !in states[0].disk
    ensures !(Ends(states[j], ops[j], id) && Ends(states[k], ops[k], id))
  {
    if Ends(states[j], ops[j], id) {
      RunStep(states, ops, j, id);
      NumbersOnDisk(states, ops, j + 1, id);
      NumbersGrow(states, ops, j + 1, k, id);
      if Ends(states[k], ops[k], id) {
        EndsOnce(states, ops, j, k, id);
      }
    }
  }

  lemma {:induction false} NumbersGrow(states: seq<Store>, ops: seq<Op>, j: nat, k: nat, id: nat)
    requires IsRun(states, ops) && j <= k < |states| && id <= states[j].nextSeq
    ensures id <= states[k].nextSeq && NotReused(states, ops, j, k, id)
  {
    if j < k {
      hide Step, Named;
      NumbersGrow(states, ops, j, k - 1, id);
      assert StepAt(states, ops, k - 1);
      NextNumber(states[k - 1], ops[k - 1], states[k]);
    }
  }

  /** From a store in which memory and disk agree on a task, one step with whatever writes failing: they
      agree on it afterwards exactly when the operation does not both change its record and meet with a
      refused write. */
  lemma {:induction false} MirrorPartsExactly(s: Store, op: Op, t: Store, id: nat)
    requires Named(s) && Step(s, op, t) && Allowed(op) && MirroredAt(s, id)
    ensures MirroredAt(t, id) <==> !(Refused(op, id) && Changes(s, t, id))
  {
    StepTask(s, op, t, id);
    hide Step, Named, Allowed, MirroredAt, Changes, Refused, Ended, Ends, StampedAt, BackedAt;
  }

  /** So on every run memory and disk agree on a task until an operation changes its record and is
      refused the write. */
  lemma {:induction false} RunIsMirrored(states: seq<Store>, ops: seq<Op>, k: nat, id: nat)
    requires IsRun(states, ops) && k < |states|
    requires forall i :: 0 <= i < k ==> !(Refused(ops[i], id) && Changes(states[i], states[i + 1], id))
    ensures MirroredAt(states[k], id)
  {
    if k > 0 {
      RunIsMirrored(states, ops, k - 1, id);
      RunStep(states, ops, k - 1, id);
      hide IsRun, MirroredAt, Ended, Ends, StampedAt, NamedAt, Refused, Changes, BackedAt;
    }
  }

  /** On every run, each task in memory has a readable file. */
  lemma {:induction false} MemoryIsReadable(states: seq<Store>, ops: seq<Op>, k: nat, id: nat)
    requires IsRun(states, ops) && k < |states|
    ensures BackedAt(states[k], id)
  {
    if k > 0 {
      MemoryIsReadable(states, ops, k - 1, id);
      RunStep(states, ops, k - 1, id);
      hide IsRun, MirroredAt, Ended, Ends, StampedAt, NamedAt, Refused, Changes, BackedAt;
    }
  }

  /** So no extension of any run changes any file, whatever it reports. */
  lemma {:induction false} ExtensionsNeverStored(states: seq<Store>, ops: seq<Op>, k: nat)
    requires IsRun(states, ops) && k < |ops| && ops[k].Extend?
    ensures states[k + 1].disk == states[k].disk
  {
    hide Extended, Named, Allowed;
    var op := ops[k];
    RunIsNamed(states, ops, k);
    MemoryIsReadable(states, ops, k, op.id);
    assert StepAt(states, ops, k);
    forall id
      ensures FileOf(states[k + 1], id) == FileOf(states[k], id)
    {
      ExtendedAt(states[k], op.id, op.n, op.now, op.saved, id);
    }
    SameFiles(states[k], states[k + 1]);
  }

  lemma {:induction false} SameFiles(t: Store, u: Store)
    requires forall id :: FileOf(u, id) == FileOf(t, id)
    ensures u.disk == t.disk
  {
    forall id
      ensures id in u.disk <==> id in t.disk
      ensures id in t.disk ==> u.disk[id] == t.disk[id]
    {
      assert FileOf(u, id) == FileOf(t, id);
    }
  }

  /** A second sweep right after a first finds nothing to do and changes nothing, whatever writes fail: a
      task whose end could not be written is failed in memory already, so it is not found again until it
      is reloaded. */
  lemma {:induction false} ReapIsIdempotent(
    s: Store, alive: set<nat>, now: nat, later: nat, saves: nat -> bool, saves': nat -> bool, t: Store, u: Store)
    requires Reaped(s, ExecutingIds(s), alive, now, saves, t) && Reaped(t, ExecutingIds(t), alive, later, saves', u)
    ensures Lost(t, ExecutingIds(t), alive, saves') == {} && u == t
  {
    hide Reaped, Orphaned, ExecutingIds;
    forall id
      ensures !Orphaned(t, alive, id) && FileOf(u, id) == FileOf(t, id) && TaskOf(u, id) == TaskOf(t, id)
    {
      NothingLeft(s, alive, now, saves, t, id);
      NothingToReap(t, alive, later, saves', u, id);
    }
    SameStore(t, u);
    SameNumber(t, alive, later, saves', u);
  }

  lemma {:induction false} NothingLeft(s: Store, alive: set<nat>, now: nat, saves: nat -> bool, t: Store, id: nat)
    requires Reaped(s, ExecutingIds(s), alive, now, saves, t)
    ensures !Orphaned(t, alive, id)
    ensures id in ExecutingIds(t) ==> Current(t, id) == TaskOf(t, id)
  {
    ReapedAt(s, alive, now, saves, t, id);
    if id in s.tasks {
      MovedAs(Current(s, id).value, Failed, Some(ORPHAN_REASON), now);
    }
    hide Moved, Reaped;
  }

  lemma {:induction false} NothingToReap(t: Store, alive: set<nat>, now: nat, saves: nat -> bool, u: Store, id: nat)
    requires !Orphaned(t, alive, id) && Reaped(t, ExecutingIds(t), alive, now, saves, u)
    requires id in ExecutingIds(t) ==> Current(t, id) == TaskOf(t, id)
    ensures FileOf(u, id) == FileOf(t, id) && TaskOf(u, id) == TaskOf(t, id)
  {
    hide Reaped, Orphaned;
    ReapedAt(t, alive, now, saves, u, id);
  }

  lemma {:induction false} SameStore(t: Store, u: Store)
    requires forall id :: FileOf(u, id) == FileOf(t, id) && TaskOf(u, id) == TaskOf(t, id)
    ensures u.tasks == t.tasks && u.disk == t.disk
  {
    forall id
      ensures id in u.tasks <==> id in t.tasks
      ensures id in t.tasks ==> u.tasks[id] == t.tasks[id]
      ensures id in u.disk <==> id in t.disk
      ensures id in t.disk ==> u.disk[id] == t.disk[id]
    {
      assert FileOf(u, id) == FileOf(t, id) && TaskOf(u, id) == TaskOf(t, id);
    }
  }

  // -------------------------------------------------------------------------
  // What does not hold
  // -------------------------------------------------------------------------

  /** A task found on disk can end twice in one run: here number one ends, goes to the run's first new
      task, and ends again. */
  lemma {:induction false} OldTaskEndsTwice(found: Record, prompt: string)
    requires found.id == 1 && found.status == Queued
    ensures
      var finish, create := Op.Transition(1, Completed, None, 6, true), Create(prompt, "/w", "t", 7, true);
      exists states: seq<Store> :: IsRun(states, [finish, create, finish]) && states[0].disk == map[1 := Good(found)]
        && Ends(states[0], finish, 1) && Ends(states[2], finish, 1)
  {
    var s0 := Store(map[], map[1 := Good(found)], 0);
    var finish, create := Op.Transition(1, Completed, None, 6, true), Create(prompt, "/w", "t", 7, true);
    var s1 := FinishFirst(s0);
    var s2 := Created(s1, prompt, "/w", "t", 7, true);
    NewFirst(s1, prompt);
    var s3 := FinishFirst(s2);
    hide Created, Ends;
    RunOfThree(s0, finish, s1, create, s2, finish, s3);
    assert [s0, s1, s2, s3][0] == s0 && [s0, s1, s2, s3][2] == s2;
  }

  lemma {:induction false} FinishFirst(s: Store) returns (t: Store)
    requires 1 in s.disk && s.disk[1].Good? && s.disk[1].record.status == Queued && s.disk[1].record.id == 1
    ensures Step(s, Op.Transition(1, Completed, None, 6, true), t) && Ends(s, Op.Transition(1, Completed, None, 6, true), 1)
    ensures t.nextSeq == s.nextSeq
  {
    t := Transitioned(s, 1, Completed, None, 6, true);
  }

  lemma {:induction false} NewFirst(s: Store, prompt: string)
    requires s.nextSeq == 0
    ensures
      var t := Created(s, prompt, "/w", "t", 7, true);
      1 in t.disk && t.disk[1].Good? && t.disk[1].record.status == Queued && t.disk[1].record.id == 1
  {
  }

  lemma {:induction false} RunOfThree(s0: Store, op0: Op, s1: Store, op1: Op, s2: Store, op2: Op, s3: Store)
    requires s0.tasks == map[] && s0.nextSeq == 0 && Named(s0)
    requires Step(s0, op0, s1) && Step(s1, op1, s2) && Step(s2, op2, s3) && Allowed(op0) && Allowed(op1) && Allowed(op2)
    ensures IsRun([s0, s1, s2, s3], [op0, op1, op2])
  {
    hide Step, Allowed, Named;
    var states, ops := [s0, s1, s2, s3], [op0, op1, op2];
    forall k | 0 <= k < 3
      ensures StepAt(states, ops, k)
    {
      assert k == 0 || k == 1 || k == 2;
    }
  }

  /** `extend_budget` stores the budget it returns exactly when the mirror file is unreadable, or the
      budget on disk happens to be that one already. */
  lemma {:induction false} ExtensionStoredExactly(s: Store, id: nat, n: nat, now: nat)
    requires Named(s) && id in s.tasks && !s.tasks[id].status.IsTerminal()
    ensures
      var t, budget := Extended(s, id, n, now, true), Extension(s.tasks[id].turnsBudget, n);
      && Readable(t, id)
      && (t.disk[id].record.turnsBudget == budget <==> !Readable(s, id) || s.disk[id].record.turnsBudget == budget)
  {
  }

  /** The very first task of a fresh registry, extended by twenty turns: twenty are reported, none are
      stored. */
  lemma {:induction false} ExtensionLost()
    ensures
      var s := Created(Store(map[], map[], 0), "p", "/w", "s", 5, true);
      var t := Extended(s, 1, 20, 6, true);
      && Named(s) && 1 in s.tasks && Extension(s.tasks[1].turnsBudget, 20) == 20
      && 1 in t.disk && t.disk[1] == s.disk[1] && s.disk[1].Good? && s.disk[1].record.turnsBudget == 0
  {
    var s := Created(Store(map[], map[], 0), "p", "/w", "s", 5, true);
    ExtendedAt(s, 1, 20, 6, true, 1);
    assert FileOf(Extended(s, 1, 20, 6, true), 1) == FileOf(s, 1);
  }

  /** The worker's first update, of `src/mcp/worker.rs`. */
  function WorkerStarts(r: Record, me: nat, now: nat): Record {
    r.(status := Executing, pid := Some(me), startedAt := Some(now), heartbeat := now)
  }

  /** A worker opens a registry of its own over the task directory and updates its task. The end time
      still goes with the status afterwards exactly when the task had not ended; if it had, it executes
      again, and it can end again. */
  lemma {:induction false} WorkerResurrectsExactly(disk: map<nat, Mirror>, id: nat, me: nat, now: nat)
    requires Named(Store(map[], disk, 0)) && id in disk && disk[id].Good? && Stamped(disk[id].record)
    ensures
      var s := Store(map[], disk, 0);
      var t := Updated(s, id, (r: Record) => WorkerStarts(r, me, now), true);
      && (StampedAt(t, id) <==> !Ended(s, id))
      && t.disk == disk[id := Good(disk[id].record.(status := Executing, pid := Some(me), startedAt := Some(now), heartbeat := now))]
      && !Ended(t, id) && Ends(t, Op.Transition(id, Cancelled, None, now, true), id)
  {
    var s := Store(map[], disk, 0);
    CurrentAt(s, id);
    var t := Updated(s, id, (r: Record) => WorkerStarts(r, me, now), true);
    assert t == Put(s, id, WorkerStarts(disk[id].record, me, now), true);
    PutAt(s, id, WorkerStarts(disk[id].record, me, now), true, id);
  }

  /** A task cancelled while it waited for its slot: its worker starts it all the same. */
  lemma {:induction false} CancelledTaskStarts()
    ensures
      var cancelled := Record(1, Cancelled, None, "p", "/w", "s", None, 6, 0, 5, None, Some(6));
      var s := Store(map[], map[1 := Good(cancelled)], 0);
      var t := Updated(s, 1, (r: Record) => WorkerStarts(r, 42, 7), true);
      && Ended(s, 1) && 1 in t.disk && t.disk[1].Good?
      && t.disk[1].record.status == Executing && t.disk[1].record.endedAt == Some(6)
  {
    var cancelled := Record(1, Cancelled, None, "p", "/w", "s", None, 6, 0, 5, None, Some(6));
    WorkerResurrectsExactly(map[1 := Good(cancelled)], 1, 42, 7);
  }
}
