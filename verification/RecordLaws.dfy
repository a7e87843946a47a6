/** What becomes of the fields of a task's record, in memory and in its mirror file, step by step and
    over whole runs. */
module RecordLaws {
  import opened Text
  import opened Registry
  import opened RegistryLaws

  // -------------------------------------------------------------------------
  // Records
  // -------------------------------------------------------------------------

  /** A new task, as `create` is asked for it. */
  predicate IsFresh(r: Record, id: nat, op: Op)
    requires op.Create?
  {
    && r.id == id && r.status == Queued && r.reason == None
    && r.prompt == op.prompt && r.cwd == op.cwd && r.sessionId == op.sessionId
    && r.pid == None && r.heartbeat == op.now && r.turnsBudget == 0
    && r.createdAt == op.now && r.startedAt == None && r.endedAt == None
  }

  /** What a record keeps from its creation. */
  predicate SameOrigin(r: Record, q: Record) {
    q.prompt == r.prompt && q.cwd == r.cwd && q.sessionId == r.sessionId && q.createdAt == r.createdAt
  }

  /** `q` is `r` after a transition: the first start is kept, an end is stamped, nothing else moves. */
  predicate MovedTo(r: Record, q: Record, status: Status, reason: Option<string>, now: nat) {
    && q.status == status && q.reason == reason && q.heartbeat == now
    && q.startedAt == (if status == Executing && r.startedAt == None then Some(now) else r.startedAt)
    && q.endedAt == (if status in {Completed, Failed, Cancelled} then Some(now) else r.endedAt)
    && SameOrigin(r, q) && q.id == r.id && q.pid == r.pid && q.turnsBudget == r.turnsBudget
  }

  lemma {:induction false} MovedIs(r: Record, status: Status, reason: Option<string>, now: nat)
    ensures MovedTo(r, Moved(r, status, reason, now), status, reason, now)
  {
  }

  /** The record of a readable file. */
  function Filed(s: Store, id: nat): Option<Record> {
    if id in s.disk && s.disk[id].Good? then Some(s.disk[id].record) else None
  }

  predicate Open(r: Record) {
    r.status == Queued || r.status == Executing
  }

  /** An operation that works on the record of this task alone. */
  predicate WorksOn(op: Op, id: nat) {
    match op
    case Update(i, _, _) => i == id
    case Transition(i, _, _, _, _) => i == id
    case _ => false
  }

  /** The sweep finds the task executing, in memory, and unfinished and without a living worker in its
      file. */
  predicate FindsOrphan(s: Store, op: Op, id: nat) {
    && op.Reap? && id in s.tasks && s.tasks[id].status == Executing
    && Filed(s, id).Some? && Open(Filed(s, id).value)
    && Filed(s, id).value.pid.Some? && Filed(s, id).value.pid.value !in op.alive
  }

  /** What is made of the record `r` of the task's file by an operation that works on it. */
  ghost predicate Becomes(r: Record, q: Record, op: Op)
    requires op.Update? || op.Transition?
  {
    if op.Update? then q == op.f(r)
    else if Open(r) then MovedTo(r, q, op.status, op.reason, op.now)
    else q == r
  }

  // -------------------------------------------------------------------------
  // One step
  // -------------------------------------------------------------------------

  /** The file of one task after one step. */
  ghost predicate FileMoves(s: Store, op: Op, t: Store, id: nat) {
    if op.Create? && op.saved && id == s.nextSeq + 1 then
      Filed(t, id).Some? && IsFresh(Filed(t, id).value, id, op)
    else if WorksOn(op, id) && op.saved && Filed(s, id).Some? then
      Filed(t, id).Some? && Becomes(Filed(s, id).value, Filed(t, id).value, op)
    else if FindsOrphan(s, op, id) && op.saves(id) then
      Filed(t, id).Some? && MovedTo(Filed(s, id).value, Filed(t, id).value, Failed, Some("orphaned worker died"), op.now)
    else
      FileOf(t, id) == FileOf(s, id)
  }

  /** The record in memory after one step, whether or not the file could be written. */
  ghost predicate MemoryMoves(s: Store, op: Op, t: Store, id: nat) {
    if op.Create? && op.saved && id == s.nextSeq + 1 then
      TaskOf(t, id).Some? && IsFresh(TaskOf(t, id).value, id, op)
    else if Filed(s, id).None? then
      TaskOf(t, id) == TaskOf(s, id) == None
    else if WorksOn(op, id) then
      TaskOf(t, id).Some? && Becomes(Filed(s, id).value, TaskOf(t, id).value, op)
    else if FindsOrphan(s, op, id) then
      TaskOf(t, id).Some? && MovedTo(Filed(s, id).value, TaskOf(t, id).value, Failed, Some("orphaned worker died"), op.now)
    else if op == Op.Get(id) || op.List? then
      TaskOf(t, id) == Filed(s, id)
    else if TaskOf(s, id).Some? && ((op.Reap? && s.tasks[id].status == Executing) || (op.Extend? && op.id == id && Open(s.tasks[id]))) then
      TaskOf(t, id) == Filed(s, id)
    else
      TaskOf(t, id) == TaskOf(s, id)
  }

  lemma {:induction false} CurrentFiled(s: Store, id: nat)
    requires BackedAt(s, id)
    ensures Current(s, id) == Filed(s, id) && (Filed(s, id).None? ==> TaskOf(s, id).None?)
    ensures Filed(s, id).Some? ==> FileOf(s, id) == Some(Good(Filed(s, id).value))
  {
  }

  lemma {:induction false} FiledFile(s: Store, id: nat)
    ensures FileOf(s, id).Some? && FileOf(s, id).value.Good? ==> Filed(s, id) == Some(FileOf(s, id).value.record)
  {
  }

  lemma {:induction false} CreateMoves(s: Store, op: Op, t: Store, id: nat)
    requires op.Create? && Step(s, op, t) && BackedAt(s, id)
    ensures FileMoves(s, op, t, id) && MemoryMoves(s, op, t, id)
  {
  }

  lemma {:induction false} ExtendMoves(s: Store, op: Op, t: Store, id: nat)
    requires Named(s) && op.Extend? && Step(s, op, t) && BackedAt(s, id) && BackedAt(s, op.id)
    ensures FileMoves(s, op, t, id) && MemoryMoves(s, op, t, id)
  {
  }

  lemma {:induction false} PutMoves(s: Store, op: Op, rec: Record, id: nat)
    requires Named(s) && BackedAt(s, id) && (op.Update? || op.Transition?) && Filed(s, op.id).Some?
    requires rec.id == op.id && Becomes(Filed(s, op.id).value, rec, op)
    ensures FileMoves(s, op, Put(s, op.id, rec, op.saved), id) && MemoryMoves(s, op, Put(s, op.id, rec, op.saved), id)
  {
    hide Put, Named, Becomes;
    PutAt(s, op.id, rec, op.saved, id);
    CurrentFiled(s, id);
    FiledFile(Put(s, op.id, rec, op.saved), id);
  }

  lemma {:induction false} ReapMoves(s: Store, op: Op, t: Store, id: nat)
    requires Named(s) && op.Reap? && Step(s, op, t) && BackedAt(s, id)
    ensures FileMoves(s, op, t, id) && MemoryMoves(s, op, t, id)
  {
    hide Reaped, Moved, Named, Current, MovedTo;
    ReapedAt(s, op.alive, op.now, op.saves, t, id);
    BuriedAs(s, op.alive, id, op.now);
    CurrentFiled(s, id);
    FiledFile(t, id);
    if Orphaned(s, op.alive, id) {
      MovedIs(Filed(s, id).value, Failed, Some("orphaned worker died"), op.now);
    }
  }

  /** Any step from a store in which each task in memory has a readable file. */
  lemma {:induction false} StepMoves(s: Store, op: Op, t: Store, id: nat)
    requires Named(s) && Step(s, op, t) && Allowed(op) && forall i :: BackedAt(s, i)
    ensures FileMoves(s, op, t, id) && MemoryMoves(s, op, t, id)
  {
    hide FileMoves, MemoryMoves, Moved, Reaped, Put, Current, Reload, Listed, Extended, Named, Becomes, MovedTo, BackedAt;
    assert BackedAt(s, id);
    CurrentFiled(s, id);
    match op {
      case Create(_, _, _, _, _) =>
        CreateMoves(s, op, t, id);
      case Get(i) =>
        ReloadAt(s, i, id);
        Looks(s, op, t, id);
      case List =>
        ListedAt(s, id);
        Looks(s, op, t, id);
      case Update(i, f, saved) =>
        assert BackedAt(s, i);
        CurrentFiled(s, i);
        if Filed(s, i).Some? {
          Updates(s, op);
          PutMoves(s, op, f(Filed(s, i).value), id);
        } else {
          NoSuchTask(s, op, id);
        }
      case Transition(i, status, reason, now, saved) =>
        assert BackedAt(s, i);
        CurrentFiled(s, i);
        ReloadAt(s, i, id);
        if Filed(s, i).None? {
          NoSuchTask(s, op, id);
        } else if Open(Filed(s, i).value) {
          Transitions(s, op);
          PutMoves(s, op, Moved(Filed(s, i).value, status, reason, now), id);
        } else {
          TooLate(s, op, t, id);
        }
      case Extend(i, n, now, saved) =>
        assert BackedAt(s, i);
        ExtendMoves(s, op, t, id);
      case Reap(alive, now, saves) =>
        ReapMoves(s, op, t, id);
    }
  }

  lemma {:induction false} Looks(s: Store, op: Op, t: Store, id: nat)
    requires (op.Get? || op.List?) && BackedAt(s, id) && FileOf(t, id) == FileOf(s, id)
    requires TaskOf(t, id) == if op.List? || op.id == id then Filed(s, id) else TaskOf(s, id)
    ensures FileMoves(s, op, t, id) && MemoryMoves(s, op, t, id)
  {
  }

  lemma {:induction false} Updates(s: Store, op: Op)
    requires Named(s) && op.Update? && Allowed(op) && Filed(s, op.id).Some?
    ensures op.f(Filed(s, op.id).value).id == op.id && Becomes(Filed(s, op.id).value, op.f(Filed(s, op.id).value), op)
  {
    assert SameEnd(Filed(s, op.id).value, op.f(Filed(s, op.id).value));
  }

  lemma {:induction false} Transitions(s: Store, op: Op)
    requires Named(s) && op.Transition? && Filed(s, op.id).Some? && Open(Filed(s, op.id).value)
    ensures
      var moved := Moved(Filed(s, op.id).value, op.status, op.reason, op.now);
      moved.id == op.id && Becomes(Filed(s, op.id).value, moved, op)
  {
    MovedIs(Filed(s, op.id).value, op.status, op.reason, op.now);
  }

  lemma {:induction false} NoSuchTask(s: Store, op: Op, id: nat)
    requires (op.Update? || op.Transition?) && Filed(s, op.id).None? && BackedAt(s, op.id) && BackedAt(s, id)
    ensures FileMoves(s, op, s, id) && MemoryMoves(s, op, s, id)
  {
  }

  lemma {:induction false} TooLate(s: Store, op: Op, t: Store, id: nat)
    requires op.Transition? && Filed(s, op.id).Some? && !Open(Filed(s, op.id).value) && BackedAt(s, id)
    requires FileOf(t, id) == FileOf(s, id) && TaskOf(t, id) == if id == op.id then Filed(s, op.id) else TaskOf(s, id)
    ensures FileMoves(s, op, t, id) && MemoryMoves(s, op, t, id)
  {
  }

  /** So on every run, at every task. */
  lemma {:induction false} RunMoves(states: seq<Store>, ops: seq<Op>, k: nat, id: nat)
    requires IsRun(states, ops) && k < |ops|
    ensures FileMoves(states[k], ops[k], states[k + 1], id) && MemoryMoves(states[k], ops[k], states[k + 1], id)
  {
    hide Step, Allowed, Named, FileMoves, MemoryMoves, BackedAt;
    RunIsNamed(states, ops, k);
    forall i
      ensures BackedAt(states[k], i)
    {
      MemoryIsReadable(states, ops, k, i);
    }
    assert StepAt(states, ops, k);
    StepMoves(states[k], ops[k], states[k + 1], id);
  }

  // -------------------------------------------------------------------------
  // Whole runs
  // -------------------------------------------------------------------------

  ghost predicate KeepsOrigin(op: Op) {
    op.Update? ==> forall r :: SameOrigin(r, op.f(r))
  }

  /** The updates of a stretch of a run leave prompt, directory, session and creation time alone. */
  ghost predicate OriginsKept(ops: seq<Op>, j: nat, k: nat)
    requires k <= |ops|
  {
    forall i :: j <= i < k ==> KeepsOrigin(ops[i])
  }

  /** What memory and file say of the task's origin is what `r` says. */
  predicate OriginIs(s: Store, id: nat, r: Record) {
    && Filed(s, id).Some? && SameOrigin(r, Filed(s, id).value)
    && (TaskOf(s, id).Some? ==> SameOrigin(r, TaskOf(s, id).value))
  }

  lemma {:induction false} OriginStep(s: Store, op: Op, t: Store, id: nat, r: Record)
    requires FileMoves(s, op, t, id) && MemoryMoves(s, op, t, id) && KeepsOrigin(op) && !Reuses(s, op, id)
    requires OriginIs(s, id, r)
    ensures OriginIs(t, id, r) && (TaskOf(s, id).Some? ==> TaskOf(t, id).Some?)
  {
    FiledFile(t, id);
    if WorksOn(op, id) && op.Update? {
      assert SameOrigin(Filed(s, id).value, op.f(Filed(s, id).value));
    }
  }

  lemma {:induction false} OriginStays(states: seq<Store>, ops: seq<Op>, j: nat, k: nat, id: nat, r: Record)
    requires IsRun(states, ops) && j <= k < |states| && OriginsKept(ops, j, k) && NotReused(states, ops, j, k, id)
    requires OriginIs(states[j], id, r)
    ensures OriginIs(states[k], id, r) && (TaskOf(states[j], id).Some? ==> TaskOf(states[k], id).Some?)
  {
    if j < k {
      OriginStays(states, ops, j, k - 1, id, r);
      RunMoves(states, ops, k - 1, id);
      hide IsRun, FileMoves, MemoryMoves, OriginIs, KeepsOrigin, Reuses;
      assert KeepsOrigin(ops[k - 1]);
      OriginStep(states[k - 1], ops[k - 1], states[k], id, r);
    }
  }

  /** A task that the run creates has the prompt, directory and session it was asked for, and the time
      of its creation, in memory and in its file, in every later state: its number is not given again. */
  lemma {:induction false} CreatedAsAsked(states: seq<Store>, ops: seq<Op>, j: nat, k: nat)
    requires IsRun(states, ops) && j < k < |states| && ops[j].Create? && ops[j].saved && OriginsKept(ops, j + 1, k)
    ensures
      var id, op := states[j].nextSeq + 1, ops[j];
      && id in states[k].tasks && id in states[k].disk && states[k].disk[id].Good?
      && forall r :: r == states[k].tasks[id] || r == states[k].disk[id].record ==>
           r.prompt == op.prompt && r.cwd == op.cwd && r.sessionId == op.sessionId && r.createdAt == op.now
  {
    var id := states[j].nextSeq + 1;
    RunMoves(states, ops, j, id);
    RunStep(states, ops, j, id);
    NextNumber(states[j], ops[j], states[j + 1]);
    NumbersGrow(states, ops, j + 1, k, id);
    OriginStays(states, ops, j + 1, k, id, states[j + 1].disk[id].record);
    hide IsRun, Step, Named, StepAtTask, Ended, Ends, NotReused, OriginsKept;
  }

  /** A task found on disk keeps its own until its number is given to a new task. */
  lemma {:induction false} FoundAsFiled(states: seq<Store>, ops: seq<Op>, k: nat, id: nat)
    requires IsRun(states, ops) && k < |states| && id in states[0].disk && states[0].disk[id].Good?
    requires OriginsKept(ops, 0, k) && NotReused(states, ops, 0, k, id)
    ensures id in states[k].disk && states[k].disk[id].Good? && SameOrigin(states[0].disk[id].record, states[k].disk[id].record)
    ensures id in states[k].tasks ==> SameOrigin(states[0].disk[id].record, states[k].tasks[id])
  {
    OriginStays(states, ops, 0, k, id, states[0].disk[id].record);
  }

  // -------------------------------------------------------------------------
  // When a task started
  // -------------------------------------------------------------------------

  ghost predicate KeepsStart(op: Op) {
    op.Update? ==> forall r :: op.f(r).startedAt == r.startedAt
  }

  ghost predicate StartsKept(ops: seq<Op>, j: nat, k: nat)
    requires k <= |ops|
  {
    forall i :: j <= i < k ==> KeepsStart(ops[i])
  }

  /** The operation sets the task executing, and can write it down. */
  predicate Starts(s: Store, op: Op, id: nat) {
    && op.Transition? && op.id == id && op.status == Executing && op.saved
    && Filed(s, id).Some? && Open(Filed(s, id).value)
  }

  /** The time of the first such operation among those from `j` up to `k`. */
  function FirstStart(states: seq<Store>, ops: seq<Op>, j: nat, k: nat, id: nat): Option<nat>
    requires k <= |ops| && |states| == |ops| + 1
  {
    if k <= j then None
    else if FirstStart(states, ops, j, k - 1, id).Some? then FirstStart(states, ops, j, k - 1, id)
    else if Starts(states[k - 1], ops[k - 1], id) then Some(ops[k - 1].now)
    else None
  }

  lemma {:induction false} StartStep(s: Store, op: Op, t: Store, id: nat)
    requires FileMoves(s, op, t, id) && KeepsStart(op) && !Reuses(s, op, id) && Filed(s, id).Some?
    ensures Filed(t, id).Some?
    ensures Filed(t, id).value.startedAt ==
      if Filed(s, id).value.startedAt.Some? then Filed(s, id).value.startedAt
      else if Starts(s, op, id) then Some(op.now) else None
  {
    FiledFile(t, id);
  }

  lemma {:induction false} StartStays(states: seq<Store>, ops: seq<Op>, j: nat, k: nat, id: nat)
    requires IsRun(states, ops) && j <= k < |states| && StartsKept(ops, j, k) && NotReused(states, ops, j, k, id)
    requires Filed(states[j], id).Some?
    ensures Filed(states[k], id).Some?
    ensures Filed(states[k], id).value.startedAt ==
      if Filed(states[j], id).value.startedAt.Some? then Filed(states[j], id).value.startedAt
      else FirstStart(states, ops, j, k, id)
  {
    if j < k {
      StartStays(states, ops, j, k - 1, id);
      RunMoves(states, ops, k - 1, id);
      hide IsRun, FileMoves, MemoryMoves, KeepsStart, Reuses, Starts;
      assert KeepsStart(ops[k - 1]);
      StartStep(states[k - 1], ops[k - 1], states[k], id);
    }
  }

  /** In the file of a task that the run creates stands, as its start, the time of its first transition
      to `Executing` that could be written, and nothing before there is one. */
  lemma {:induction false} StartIsFirst(states: seq<Store>, ops: seq<Op>, j: nat, k: nat)
    requires IsRun(states, ops) && j < k < |states| && ops[j].Create? && ops[j].saved && StartsKept(ops, j + 1, k)
    ensures
      var id := states[j].nextSeq + 1;
      && id in states[k].disk && states[k].disk[id].Good?
      && states[k].disk[id].record.startedAt == FirstStart(states, ops, j + 1, k, id)
  {
    var id := states[j].nextSeq + 1;
    RunMoves(states, ops, j, id);
    RunStep(states, ops, j, id);
    NextNumber(states[j], ops[j], states[j + 1]);
    NumbersGrow(states, ops, j + 1, k, id);
    StartStays(states, ops, j + 1, k, id);
    hide IsRun, Step, Named, StepAtTask, Ended, Ends, NotReused, StartsKept;
  }

  // -------------------------------------------------------------------------
  // Budgets
  // -------------------------------------------------------------------------

  /** Below the 32-bit limit an extension adds its turns, up to two hundred in all. */
  lemma {:induction false} ExtensionCapped(budget: nat, n: nat)
    requires budget + n < 0x1_0000_0000
    ensures Extension(budget, n) == if budget + n <= 200 then budget + n else 200
  {
  }
}
