/** The task registry of `src/task/registry.rs`: records in memory and their mirror on disk. A task
    `task_N` is named by its number. Each operation is taken as a single step. */
module Registry {
  import opened Text

  datatype Status = Queued | Executing | Completed | Failed | Cancelled {
    predicate IsTerminal() {
      Completed? || Failed? || Cancelled?
    }
  }

  datatype Record = Record(
    id: nat,
    status: Status,
    reason: Option<string>,
    prompt: string,
    cwd: string,
    sessionId: string,
    pid: Option<nat>,
    heartbeat: nat,
    turnsBudget: nat,
    createdAt: nat,
    startedAt: Option<nat>,
    endedAt: Option<nat>)

  /** A mirror file: a record, or something that does not parse. */
  datatype Mirror = Good(record: Record) | Corrupt

  datatype Error = NotFound(id: nat) | AlreadyTerminal(id: nat, status: Status) | Io

  datatype Result<+T> = Ok(value: T) | Err(error: Error)

  datatype Store = Store(tasks: map<nat, Record>, disk: map<nat, Mirror>, nextSeq: nat)

  const MAX_ELASTIC_TURNS := 200
  const U32 := 0x1_0000_0000
  const ORPHAN_REASON := "orphaned worker died"

  // -------------------------------------------------------------------------
  // The operations
  // -------------------------------------------------------------------------

  /** The disk copy, when there is a readable one, replaces the one in memory. */
  function Reload(s: Store, id: nat): Store {
    if id in s.disk && s.disk[id].Good? then s.(tasks := s.tasks[id := s.disk[id].record]) else s
  }

  /** The record that an operation works on. */
  function Current(s: Store, id: nat): Option<Record> {
    var r := Reload(s, id);
    if id in r.tasks then Some(r.tasks[id]) else None
  }

  function Saved(s: Store, rec: Record, saved: bool): Store {
    if saved then s.(disk := s.disk[rec.id := Good(rec)]) else s
  }

  function NewRecord(id: nat, prompt: string, cwd: string, sessionId: string, now: nat): Record {
    Record(id, Queued, None, prompt, cwd, sessionId, None, now, 0, now, None, None)
  }

  function Moved(rec: Record, status: Status, reason: Option<string>, now: nat): Record {
    rec.(status := status, reason := reason, heartbeat := now,
         startedAt := if status == Executing && rec.startedAt.None? then Some(now) else rec.startedAt,
         endedAt := if status.IsTerminal() then Some(now) else rec.endedAt)
  }

  function Created(s: Store, prompt: string, cwd: string, sessionId: string, now: nat, saved: bool): Store {
    var id := s.nextSeq + 1;
    var rec := NewRecord(id, prompt, cwd, sessionId, now);
    if saved then Store(s.tasks[id := rec], s.disk[id := Good(rec)], id) else s.(nextSeq := id)
  }

  function Put(s: Store, id: nat, rec: Record, saved: bool): Store {
    Saved(s.(tasks := s.tasks[id := rec]), rec, saved)
  }

  function Updated(s: Store, id: nat, f: Record -> Record, saved: bool): Store {
    match Current(s, id)
    case None => s
    case Some(rec) => Put(s, id, f(rec), saved)
  }

  function Transitioned(s: Store, id: nat, status: Status, reason: Option<string>, now: nat, saved: bool): Store {
    match Current(s, id)
    case None => s
    case Some(rec) =>
      if rec.status.IsTerminal() then Reload(s, id) else Put(s, id, Moved(rec, status, reason, now), saved)
  }

  /** The new budget: a 32-bit sum, capped. */
  function Extension(budget: nat, n: nat): nat {
    var sum := (budget + n) % U32;
    if sum < MAX_ELASTIC_TURNS then sum else MAX_ELASTIC_TURNS
  }

  function Extended(s: Store, id: nat, n: nat, now: nat, saved: bool): Store {
    if id !in s.tasks || s.tasks[id].status.IsTerminal() then s
    else
      var rec := s.tasks[id].(turnsBudget := Extension(s.tasks[id].turnsBudget, n), heartbeat := now);
      var after := Reload(s.(tasks := s.tasks[id := rec]), id);
      Saved(after, after.tasks[id], saved)
  }

  /** Every record is filed under its own number. */
  ghost predicate Named(s: Store) {
    && (forall id :: id in s.tasks ==> s.tasks[id].id == id)
    && (forall id :: id in s.disk && s.disk[id].Good? ==> s.disk[id].record.id == id)
  }

  function Listed(s: Store): Store {
    s.(tasks := map id | id in s.tasks.Keys + s.disk.Keys && Current(s, id).Some? :: Current(s, id).value)
  }

  /** An executing task whose worker is dead, and that has not ended yet. */
  predicate Orphaned(s: Store, alive: set<nat>, id: nat) {
    id in s.tasks && s.tasks[id].status == Executing && Dead(Current(s, id).value, alive)
  }

  function Buried(s: Store, id: nat, now: nat): Record
    requires id in s.tasks
  {
    Moved(Current(s, id).value, Failed, Some(ORPHAN_REASON), now)
  }

  /** The sweep's step for one candidate. */
  function ReapedOne(s: Store, id: nat, alive: set<nat>, now: nat, saved: bool): Store {
    var rec := Current(s, id);
    if rec.Some? && Dead(rec.value, alive) then
      Put(s, id, Moved(rec.value, Failed, Some(ORPHAN_REASON), now), saved)
    else
      Reload(s, id)
  }

  predicate Dead(rec: Record, alive: set<nat>) {
    rec.pid.Some? && rec.pid.value !in alive && !rec.status.IsTerminal()
  }

  /** What a sweep over the tasks `ids` makes of the record and of the mirror file of task `id`;
      `saves` says which mirror files can be written. */
  ghost function RecordAfter(s: Store, ids: set<nat>, alive: set<nat>, now: nat, id: nat): Record
    requires id in s.tasks
  {
    if id !in ids then s.tasks[id] else if Orphaned(s, alive, id) then Buried(s, id, now) else Current(s, id).value
  }

  ghost function FileAfter(s: Store, ids: set<nat>, alive: set<nat>, now: nat, saves: nat -> bool, id: nat): Option<Mirror> {
    if id in ids && Orphaned(s, alive, id) && saves(id) then Some(Good(Buried(s, id, now)))
    else if id in s.disk then Some(s.disk[id]) else None
  }

  function FileOf(s: Store, id: nat): Option<Mirror> {
    if id in s.disk then Some(s.disk[id]) else None
  }

  ghost predicate Reaped(s: Store, ids: set<nat>, alive: set<nat>, now: nat, saves: nat -> bool, t: Store) {
    && t.nextSeq == s.nextSeq && t.tasks.Keys == s.tasks.Keys
    && (forall id :: id in s.tasks ==> t.tasks[id] == RecordAfter(s, ids, alive, now, id))
    && (forall id :: FileOf(t, id) == FileAfter(s, ids, alive, now, saves, id))
  }

  /** The ids of the records in memory that are executing. */
  function Candidates(s: Store): set<nat> {
    set id | id in s.tasks && s.tasks[id].status == Executing :: s.tasks[id].id
  }

  function ExecutingIds(s: Store): set<nat> {
    set id | id in s.tasks && s.tasks[id].status == Executing
  }

  /** The tasks that a sweep brings to their end. */
  ghost function Lost(s: Store, ids: set<nat>, alive: set<nat>, saves: nat -> bool): set<nat> {
    set id | id in ids && Orphaned(s, alive, id) && saves(id)
  }

  class TaskRegistry {
    var tasks: map<nat, Record>
    var disk: map<nat, Mirror>
    var nextSeq: nat

    /** A new process finds the mirror files of earlier ones. */
    constructor (disk: map<nat, Mirror>)
      ensures State() == Store(map[], disk, 0)
    {
      tasks, this.disk, nextSeq := map[], disk, 0;
    }

    function State(): Store
      reads this
    {
      Store(tasks, disk, nextSeq)
    }

    /** `save_to_disk`; `saved` is whether the file system lets it. */
    method SaveToDisk(rec: Record, saved: bool)
      modifies this`disk
      ensures State() == Saved(old(State()), rec, saved)
    {
      if saved {
        disk := disk[rec.id := Good(rec)];
      }
    }

    method Refresh(id: nat)
      modifies this`tasks
      ensures State() == Reload(old(State()), id)
    {
      if id in disk && disk[id].Good? {
        tasks := tasks[id := disk[id].record];
      }
    }

    /** `create`. */
    method Create(prompt: string, cwd: string, sessionId: string, now: nat, saved: bool) returns (result: Result<nat>)
      modifies this
      ensures result == if saved then Ok(nextSeq) else Err(Io)
      ensures State() == Created(old(State()), prompt, cwd, sessionId, now, saved)
      ensures nextSeq == old(nextSeq) + 1
      ensures !saved ==> tasks == old(tasks) && disk == old(disk)
      ensures saved ==>
        && nextSeq in tasks && tasks[nextSeq].id == nextSeq && tasks[nextSeq].status == Queued && tasks[nextSeq].reason == None
        && tasks[nextSeq].prompt == prompt && tasks[nextSeq].cwd == cwd && tasks[nextSeq].sessionId == sessionId
        && tasks[nextSeq].pid == None && tasks[nextSeq].heartbeat == now && tasks[nextSeq].turnsBudget == 0
        && tasks[nextSeq].createdAt == now && tasks[nextSeq].startedAt == None && tasks[nextSeq].endedAt == None
        && tasks == old(tasks)[nextSeq := tasks[nextSeq]] && disk == old(disk)[nextSeq := Good(tasks[nextSeq])]
    {
      nextSeq := nextSeq + 1;
      var rec := NewRecord(nextSeq, prompt, cwd, sessionId, now);
      SaveToDisk(rec, saved);
      if !saved {
        return Err(Io);
      }
      tasks := tasks[nextSeq := rec];
      return Ok(nextSeq);
    }

    /** `get`. */
    method Get(id: nat) returns (rec: Option<Record>)
      modifies this`tasks
      ensures State() == Reload(old(State()), id) && rec == Current(old(State()), id)
    {
      Refresh(id);
      rec := if id in tasks then Some(tasks[id]) else None;
    }

    /** `update`. */
    method Update(id: nat, f: Record -> Record, saved: bool) returns (result: Result<Record>)
      modifies this
      ensures State() == Updated(old(State()), id, f, saved)
      ensures result == match Current(old(State()), id)
        case None => Err(NotFound(id))
        case Some(rec) => if saved then Ok(f(rec)) else Err(Io)
    {
      Refresh(id);
      if id !in tasks {
        return Err(NotFound(id));
      }
      var snapshot := f(tasks[id]);
      tasks := tasks[id := snapshot];
      SaveToDisk(snapshot, saved);
      return if saved then Ok(snapshot) else Err(Io);
    }

    /** `transition`. */
    method Transition(id: nat, status: Status, reason: Option<string>, now: nat, saved: bool) returns (result: Result<Record>)
      modifies this
      ensures State() == Transitioned(old(State()), id, status, reason, now, saved)
      ensures result == match Current(old(State()), id)
        case None => Err(NotFound(id))
        case Some(rec) =>
          if rec.status.IsTerminal() then Err(AlreadyTerminal(id, rec.status))
          else if saved then Ok(Moved(rec, status, reason, now)) else Err(Io)
    {
      Refresh(id);
      if id !in tasks {
        return Err(NotFound(id));
      }
      var rec := tasks[id];
      if rec.status.IsTerminal() {
        return Err(AlreadyTerminal(id, rec.status));
      }
      rec := rec.(status := status, reason := reason, heartbeat := now);
      if status == Executing && rec.startedAt.None? {
        rec := rec.(startedAt := Some(now));
      }
      if status.IsTerminal() {
        rec := rec.(endedAt := Some(now));
      }
      tasks := tasks[id := rec];
      SaveToDisk(rec, saved);
      return if saved then Ok(rec) else Err(Io);
    }

    /** `extend_budget`. */
    method ExtendBudget(id: nat, n: nat, now: nat, saved: bool) returns (result: Result<nat>)
      modifies this
      ensures State() == Extended(old(State()), id, n, now, saved)
      ensures result ==
        if id !in old(tasks) then Err(NotFound(id))
        else if old(tasks)[id].status.IsTerminal() then Err(AlreadyTerminal(id, old(tasks)[id].status))
        else if saved then Ok(Extension(old(tasks)[id].turnsBudget, n)) else Err(Io)
    {
      if id !in tasks {
        return Err(NotFound(id));
      }
      var rec := tasks[id];
      if rec.status.IsTerminal() {
        return Err(AlreadyTerminal(id, rec.status));
      }
      rec := rec.(turnsBudget := Extension(rec.turnsBudget, n));
      rec := rec.(heartbeat := now);
      tasks := tasks[id := rec];
      var newBudget := rec.turnsBudget;
      var latest := Get(id);
      SaveToDisk(latest.value, saved);
      return if saved then Ok(newBudget) else Err(Io);
    }

    /** `list`: the mirror files in any order. */
    method List()
      requires Named(State())
      modifies this`tasks
      ensures State() == Listed(old(State()))
    {
      var entries := disk.Keys;
      while entries != {}
        invariant entries <= disk.Keys
        invariant forall id :: id in tasks <==>
          id in old(tasks) || (id in disk && id !in entries && disk[id].Good?)
        invariant forall id :: id in tasks ==>
          tasks[id] == if id in entries then old(tasks)[id] else Current(old(State()), id).value
        decreases entries
      {
        var id :| id in entries;
        if disk[id].Good? {
          tasks := tasks[disk[id].record.id := disk[id].record];
        }
        entries := entries - {id};
      }
      assert tasks == Listed(old(State())).tasks;
    }

    /** The body of the loop of `reap_orphans`. */
    method ReapOne(id: nat, alive: set<nat>, now: nat, saved: bool) returns (buried: bool)
      modifies this
      ensures State() == ReapedOne(old(State()), id, alive, now, saved)
      ensures buried <==> saved && Current(old(State()), id).Some? && Dead(Current(old(State()), id).value, alive)
    {
      var rec := Get(id);
      if rec.None? || rec.value.pid.None? || rec.value.pid.value in alive {
        return false;
      }
      var result := Transition(id, Failed, Some(ORPHAN_REASON), now, saved);
      return result.Ok?;
    }

    /** `reap_orphans`: the candidates in any order. */
    method ReapOrphans(alive: set<nat>, now: nat, saves: nat -> bool) returns (reaped: nat)
      requires Named(State())
      modifies this
      ensures Reaped(old(State()), ExecutingIds(old(State())), alive, now, saves, State())
      ensures reaped == |Lost(old(State()), ExecutingIds(old(State())), alive, saves)|
    {
      hide Moved, Reaped, Lost, ReapedOne, Orphaned, Dead, Named, Current, Reload, ExecutingIds, Candidates, State;
      ghost var s := State();
      var candidates := Candidates(State());
      CandidatesAreExecuting(s);
      ghost var done: set<nat> := {};
      reaped := 0;
      NothingReaped(s, alive, now, saves);
      while candidates != {}
        invariant candidates !! done && candidates + done == ExecutingIds(s)
        invariant Reaped(s, done, alive, now, saves, State())
        invariant reaped == |Lost(s, done, alive, saves)|
        decreases candidates
      {
        var id :| id in candidates;
        candidates := candidates - {id};
        OneReaped(s, done, alive, now, saves, State(), id);
        var buried := ReapOne(id, alive, now, saves(id));
        if buried {
          reaped := reaped + 1;
        }
        done := done + {id};
      }
    }
  }

  lemma {:induction false} CandidatesAreExecuting(s: Store)
    requires Named(s)
    ensures Candidates(s) == ExecutingIds(s)
  {
    forall id | id in ExecutingIds(s)
      ensures id in Candidates(s)
    {
      assert s.tasks[id].id == id;
    }
  }

  lemma {:induction false} NothingReaped(s: Store, alive: set<nat>, now: nat, saves: nat -> bool)
    ensures Reaped(s, {}, alive, now, saves, s) && Lost(s, {}, alive, saves) == {}
  {
  }

  /** One task of the sweep: its own entries change, and no others. */
  lemma {:induction false} OneReaped(s: Store, done: set<nat>, alive: set<nat>, now: nat, saves: nat -> bool, t: Store, id: nat)
    requires Named(s) && id in ExecutingIds(s) && id !in done && Reaped(s, done, alive, now, saves, t)
    ensures Reaped(s, done + {id}, alive, now, saves, ReapedOne(t, id, alive, now, saves(id)))
    ensures
      var buried := saves(id) && Current(t, id).Some? && Dead(Current(t, id).value, alive);
      |Lost(s, done + {id}, alive, saves)| == |Lost(s, done, alive, saves)| + if buried then 1 else 0
  {
    hide Reaped, Orphaned, Moved, Dead, Lost;
    SameRecord(s, done, alive, now, saves, t, id);
    OneReapedStore(s, done, alive, now, saves, t, id);
    LostStep(s, done, alive, saves, id);
  }

  lemma {:induction false} LostStep(s: Store, done: set<nat>, alive: set<nat>, saves: nat -> bool, id: nat)
    requires id in ExecutingIds(s) && id !in done && Current(s, id).Some?
    ensures
      var buried := saves(id) && Dead(Current(s, id).value, alive);
      |Lost(s, done + {id}, alive, saves)| == |Lost(s, done, alive, saves)| + if buried then 1 else 0
  {
    hide Dead, Current;
    var more := if Orphaned(s, alive, id) && saves(id) then {id} else {};
    assert Lost(s, done + {id}, alive, saves) == Lost(s, done, alive, saves) + more;
  }

  lemma {:induction false} SameRecord(s: Store, done: set<nat>, alive: set<nat>, now: nat, saves: nat -> bool, t: Store, id: nat)
    requires id in s.tasks && id !in done && Reaped(s, done, alive, now, saves, t)
    ensures id in t.tasks && Current(t, id) == Current(s, id) && Current(s, id).Some? && FileOf(t, id) == FileOf(s, id)
  {
    hide Orphaned, Buried;
    assert FileOf(t, id) == FileAfter(s, done, alive, now, saves, id);
    assert t.tasks[id] == RecordAfter(s, done, alive, now, id);
  }

  lemma {:induction false} OneReapedStore(s: Store, done: set<nat>, alive: set<nat>, now: nat, saves: nat -> bool, t: Store, id: nat)
    requires Current(s, id).Some? ==> Current(s, id).value.id == id
    requires id in ExecutingIds(s) && id !in done && Reaped(s, done, alive, now, saves, t)
    requires id in t.tasks && Current(t, id) == Current(s, id) && Current(s, id).Some? && FileOf(t, id) == FileOf(s, id)
    ensures Reaped(s, done + {id}, alive, now, saves, ReapedOne(t, id, alive, now, saves(id)))
  {
    hide Moved, Dead, Orphaned, Current;
    var u := ReapedOne(t, id, alive, now, saves(id));
    OneReapedFields(t, id, alive, now, saves(id));
    assert Orphaned(s, alive, id) <==> Dead(Current(s, id).value, alive) by {
      OrphanedIsDead(s, alive, id);
    }
    forall other | other in s.tasks
      ensures other in u.tasks && u.tasks[other] == RecordAfter(s, done + {id}, alive, now, other)
    {
      assert t.tasks[other] == RecordAfter(s, done, alive, now, other);
    }
    forall other
      ensures FileOf(u, other) == FileAfter(s, done + {id}, alive, now, saves, other)
    {
      assert FileOf(t, other) == FileAfter(s, done, alive, now, saves, other);
    }
    assert u.tasks.Keys == s.tasks.Keys;
  }

  lemma {:induction false} OrphanedIsDead(s: Store, alive: set<nat>, id: nat)
    requires id in ExecutingIds(s) && Current(s, id).Some?
    ensures Orphaned(s, alive, id) <==> Dead(Current(s, id).value, alive)
  {
  }

  /** The step touches the entries of its own task only. */
  lemma {:induction false} OneReapedFields(t: Store, id: nat, alive: set<nat>, now: nat, saved: bool)
    requires id in t.tasks && Current(t, id).Some? && Current(t, id).value.id == id
    ensures
      var rec, u := Current(t, id).value, ReapedOne(t, id, alive, now, saved);
      var buried := Moved(rec, Failed, Some(ORPHAN_REASON), now);
      && u.nextSeq == t.nextSeq && u.tasks.Keys == t.tasks.Keys
      && u.tasks[id] == (if Dead(rec, alive) then buried else rec)
      && FileOf(u, id) == (if Dead(rec, alive) && saved then Some(Good(buried)) else FileOf(t, id))
      && forall other :: other != id ==>
           FileOf(u, other) == FileOf(t, other) && (other in t.tasks ==> u.tasks[other] == t.tasks[other])
  {
    MovedKeepsId(Current(t, id).value, now);
    hide Moved, Dead;
    assert id in t.tasks;
  }

  lemma {:induction false} MovedKeepsId(rec: Record, now: nat)
    ensures Moved(rec, Failed, Some(ORPHAN_REASON), now).id == rec.id
  {
  }
}
