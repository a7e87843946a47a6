/** The retention planner of `src/pruner.rs`, for sessions. */
module Pruner {
  import opened Text
  import opened Wire

  /** A session directory: its name, the time of its last event, its size, and whether its event log
      holds a terminal event. */
  datatype Session = Session(id: string, mtime: nat, size: nat, hasTerminal: bool)

  /** A file of the task directory, parsed if possible. */
  datatype TaskFile = TaskFile(name: string, value: Option<Value>)

  datatype Policy = Policy(maxAgeMs: nat, maxCount: nat, maxSizeMb: nat)

  const U64 := 0x1_0000_0000_0000_0000

  // -------------------------------------------------------------------------
  // Which sessions may go
  // -------------------------------------------------------------------------

  predicate IsDone(v: Value) {
    AsStr(Get(v, "status")) in {Some("completed"), Some("failed"), Some("cancelled")}
  }

  /** A task file that keeps a session alive. */
  predicate Refers(file: TaskFile, id: string) {
    && EndsWith(file.name, ".json") && file.value.Some? && !IsDone(file.value.value)
    && AsStr(Get(file.value.value, "session_id")) == Some(id)
  }

  /** The text at a key of a JSON object. */
  predicate Says(v: Value, key: string, text: string) {
    v.Obj? && key in v.fields && v.fields[key] == Str(text)
  }

  /** That is: the file is named `*.json`, parses, and names the session, and its status, if it has one,
      is not "completed", "failed" or "cancelled". */
  lemma {:induction false} RefersExactly(file: TaskFile, id: string)
    ensures Refers(file, id) <==>
      && |file.name| >= 5 && file.name[|file.name| - 5..] == ".json"
      && file.value.Some? && Says(file.value.value, "session_id", id)
      && !Says(file.value.value, "status", "completed")
      && !Says(file.value.value, "status", "failed")
      && !Says(file.value.value, "status", "cancelled")
  {
  }

  /** `active_task_session_ids`. */
  method ActiveTaskSessionIds(files: seq<TaskFile>) returns (ids: set<string>)
    ensures forall id :: id in ids <==> exists k :: 0 <= k < |files| && Refers(files[k], id)
  {
    hide IsDone, EndsWith, Get;
    ids := {};
    for k := 0 to |files|
      invariant forall id :: id in ids <==> exists j :: 0 <= j < k && Refers(files[j], id)
    {
      var file := files[k];
      if EndsWith(file.name, ".json") && file.value.Some? && !IsDone(file.value.value) {
        var sid := AsStr(Get(file.value.value, "session_id"));
        if sid.Some? {
          ids := ids + {sid.value};
        }
      }
    }
  }

  predicate MayGo(s: Session, busy: set<string>) {
    s.hasTerminal && s.id !in busy
  }

  function Candidates(sessions: seq<Session>, busy: set<string>): seq<Session> {
    if sessions == [] then []
    else
      var s := sessions[|sessions| - 1];
      Candidates(sessions[..|sessions| - 1], busy) + if MayGo(s, busy) then [s] else []
  }

  predicate Oldest(s: seq<Session>) {
    forall i, j :: 0 <= i < j < |s| ==> s[i].mtime <= s[j].mtime
  }

  /** `sort_by_key`: a stable sort. */
  function Insert(sorted: seq<Session>, s: Session): seq<Session> {
    if sorted == [] || sorted[|sorted| - 1].mtime <= s.mtime then sorted + [s]
    else Insert(sorted[..|sorted| - 1], s) + [sorted[|sorted| - 1]]
  }

  function ByMtime(sessions: seq<Session>): seq<Session> {
    if sessions == [] then [] else Insert(ByMtime(sessions[..|sessions| - 1]), sessions[|sessions| - 1])
  }

  lemma {:induction false} InsertAdds(sorted: seq<Session>, s: Session)
    ensures multiset(Insert(sorted, s)) == multiset(sorted) + multiset{s}
    ensures forall x :: x in Insert(sorted, s) ==> x == s || x in sorted
  {
    if sorted != [] && sorted[|sorted| - 1].mtime > s.mtime {
      var n := |sorted| - 1;
      var front, last := sorted[..n], sorted[n];
      InsertAdds(front, s);
      hide Insert;
      assert sorted == front + [last];
      assert multiset(front + [last]) == multiset(front) + multiset{last};
      assert multiset(Insert(front, s) + [last]) == multiset(Insert(front, s)) + multiset{last};
    }
  }

  lemma {:induction false} InsertSorts(sorted: seq<Session>, s: Session)
    requires Oldest(sorted)
    ensures Oldest(Insert(sorted, s))
  {
    if sorted != [] && sorted[|sorted| - 1].mtime > s.mtime {
      var n := |sorted| - 1;
      InsertSorts(sorted[..n], s);
      InsertAdds(sorted[..n], s);
      LastIsLatest(Insert(sorted[..n], s), sorted, s);
    }
  }

  lemma {:induction false} LastIsLatest(front: seq<Session>, sorted: seq<Session>, s: Session)
    requires Oldest(front) && Oldest(sorted) && sorted != [] && sorted[|sorted| - 1].mtime > s.mtime
    requires forall x :: x in front ==> x == s || x in sorted[..|sorted| - 1]
    ensures Oldest(front + [sorted[|sorted| - 1]])
  {
    forall i | 0 <= i < |front|
      ensures front[i].mtime <= sorted[|sorted| - 1].mtime
    {
      assert front[i] in front;
    }
  }

  /** Oldest first, and nothing lost or added. */
  lemma {:induction false} ByMtimeSorts(sessions: seq<Session>)
    ensures Oldest(ByMtime(sessions)) && multiset(ByMtime(sessions)) == multiset(sessions)
  {
    if sessions != [] {
      var n := |sessions| - 1;
      ByMtimeSorts(sessions[..n]);
      InsertSorts(ByMtime(sessions[..n]), sessions[n]);
      InsertAdds(ByMtime(sessions[..n]), sessions[n]);
      assert sessions == sessions[..n] + [sessions[n]];
    }
  }

  /** The sessions of one time, in order. */
  function AtTime(s: seq<Session>, mtime: nat): seq<Session> {
    if s == [] then []
    else AtTime(s[..|s| - 1], mtime) + if s[|s| - 1].mtime == mtime then [s[|s| - 1]] else []
  }

  lemma {:induction false} AtTimeOne(s: seq<Session>, x: Session, mtime: nat)
    ensures AtTime(s + [x], mtime) == AtTime(s, mtime) + if x.mtime == mtime then [x] else []
  {
    assert (s + [x])[..|s|] == s;
  }

  lemma {:induction false} InsertIsStable(sorted: seq<Session>, s: Session, mtime: nat)
    requires Oldest(sorted)
    ensures AtTime(Insert(sorted, s), mtime) == AtTime(sorted, mtime) + if s.mtime == mtime then [s] else []
  {
    hide AtTime;
    AtTimeOne(sorted, s, mtime);
    if sorted != [] && sorted[|sorted| - 1].mtime > s.mtime {
      var n := |sorted| - 1;
      InsertIsStable(sorted[..n], s, mtime);
      AtTimeOne(Insert(sorted[..n], s), sorted[n], mtime);
      AtTimeOne(sorted[..n], sorted[n], mtime);
      assert sorted[..n] + [sorted[n]] == sorted;
    }
  }

  lemma {:induction false} ByMtimeStep(sessions: seq<Session>, s: Session)
    ensures ByMtime(sessions + [s]) == Insert(ByMtime(sessions), s) && Oldest(ByMtime(sessions)) && ByMtime([]) == []
  {
    hide Insert;
    ByMtimeSorts(sessions);
    assert (sessions + [s])[..|sessions|] == sessions;
  }

  /** Sessions of one time keep their order. */
  lemma {:induction false} ByMtimeIsStable(sessions: seq<Session>, mtime: nat)
    ensures AtTime(ByMtime(sessions), mtime) == AtTime(sessions, mtime)
  {
    hide AtTime, Insert, ByMtime, Oldest;
    if sessions == [] {
      ByMtimeStep([], Session("", 0, 0, false));
    } else {
      var front, s := sessions[..|sessions| - 1], sessions[|sessions| - 1];
      assert front + [s] == sessions;
      ByMtimeIsStable(front, mtime);
      ByMtimeStep(front, s);
      InsertIsStable(ByMtime(front), s, mtime);
      AtTimeOne(front, s, mtime);
    }
  }

  lemma {:induction false} CandidatesAre(sessions: seq<Session>, busy: set<string>)
    ensures forall x :: x in Candidates(sessions, busy) <==> x in sessions && MayGo(x, busy)
    ensures multiset(Candidates(sessions, busy)) <= multiset(sessions)
  {
    if sessions != [] {
      var n := |sessions| - 1;
      CandidatesAre(sessions[..n], busy);
      assert sessions == sessions[..n] + [sessions[n]];
    }
  }

  // -------------------------------------------------------------------------
  // The three gates, on the sorted candidates
  // -------------------------------------------------------------------------

  predicate OverAge(s: Session, now: nat, maxAge: nat) {
    SaturatingSub(now, s.mtime) > maxAge
  }

  /** How many of the oldest candidates are over age. */
  function AgeEnd(cands: seq<Session>, now: nat, maxAge: nat): (a: nat)
    ensures a <= |cands|
  {
    if cands == [] || !OverAge(cands[0], now, maxAge) then 0 else 1 + AgeEnd(cands[1..], now, maxAge)
  }

  /** The count gate takes its whole excess on top of what the age gate took. */
  function CountEnd(n: nat, a: nat, total: nat, maxCount: nat): nat {
    if total <= maxCount then a else if a + (total - maxCount) < n then a + (total - maxCount) else n
  }

  function Bytes(s: seq<Session>): nat {
    if s == [] then 0 else Bytes(s[..|s| - 1]) + s[|s| - 1].size
  }

  /** The size gate starts from the size of all sessions, whatever the other gates took. */
  ghost predicate IsSizeEnd(cands: seq<Session>, b: nat, total: nat, ceiling: nat, c: nat) {
    && b <= c <= |cands|
    && (total <= ceiling + Bytes(cands[b..c]) || c == |cands|)
    && forall i :: b <= i < c ==> total > ceiling + Bytes(cands[b..i])
  }

  function Ceiling(maxSizeMb: nat): nat {
    maxSizeMb * 1024 * 1024 % U64
  }

  ghost predicate IsPlanEnd(cands: seq<Session>, total: nat, bytes: nat, policy: Policy, now: nat, c: nat) {
    var b := CountEnd(|cands|, AgeEnd(cands, now, policy.maxAgeMs), total, policy.maxCount);
    b <= |cands| && IsSizeEnd(cands, b, bytes, Ceiling(policy.maxSizeMb), c)
  }

  lemma {:induction false} AgeEndExact(cands: seq<Session>, now: nat, maxAge: nat)
    requires Oldest(cands)
    ensures forall i :: 0 <= i < |cands| ==> (OverAge(cands[i], now, maxAge) <==> i < AgeEnd(cands, now, maxAge))
  {
    if cands != [] && OverAge(cands[0], now, maxAge) {
      AgeEndExact(cands[1..], now, maxAge);
      assert forall i :: 1 <= i < |cands| ==> cands[i] == cands[1..][i - 1];
    }
  }

  lemma {:induction false} BytesAppend(a: seq<Session>, b: seq<Session>)
    ensures Bytes(a + b) == Bytes(a) + Bytes(b)
  {
    if b == [] {
      assert a + b == a;
    } else {
      BytesAppend(a, b[..|b| - 1]);
      assert (a + b)[..|a + b| - 1] == a + b[..|b| - 1];
    }
  }

  // -------------------------------------------------------------------------
  // The planner
  // -------------------------------------------------------------------------

  predicate DistinctIds(s: seq<Session>) {
    forall i, j :: 0 <= i < j < |s| ==> s[i].id != s[j].id
  }

  function Ids(s: seq<Session>): set<string> {
    set k | 0 <= k < |s| :: s[k].id
  }

  lemma {:induction false} OneMoreId(cands: seq<Session>, i: nat)
    requires i < |cands|
    ensures Ids(cands[..i + 1]) == Ids(cands[..i]) + {cands[i].id}
    ensures DistinctIds(cands) ==> cands[i].id !in Ids(cands[..i])
  {
    assert forall k :: 0 <= k < i ==> cands[..i + 1][k] == cands[k] == cands[..i][k];
    assert cands[..i + 1][i] == cands[i];
    forall id | id in Ids(cands[..i]) + {cands[i].id}
      ensures id in Ids(cands[..i + 1])
    {
      if id == cands[i].id {
        assert cands[..i + 1][i].id == id;
      } else {
        var k :| 0 <= k < i && cands[..i][k].id == id;
        assert cands[..i + 1][k].id == id;
      }
    }
  }

  lemma {:induction false} IdAmong(cands: seq<Session>, i: nat, e: nat)
    requires DistinctIds(cands) && i < |cands| && e <= |cands|
    ensures cands[i].id in Ids(cands[..e]) <==> i < e
  {
    if i < e {
      assert cands[..e][i].id == cands[i].id;
    }
  }

  /** Gate 1. */
  method AgeGate(cands: seq<Session>, now: nat, maxAge: nat) returns (toPrune: set<string>)
    requires Oldest(cands)
    ensures toPrune == Ids(cands[..AgeEnd(cands, now, maxAge)])
  {
    hide Ids, Oldest, AgeEnd;
    AgeEndExact(cands, now, maxAge);
    ghost var a := AgeEnd(cands, now, maxAge);
    toPrune := {};
    NoIds(cands);
    for i := 0 to |cands|
      invariant toPrune == Ids(cands[..if i < a then i else a])
    {
      OneMoreId(cands, i);
      if OverAge(cands[i], now, maxAge) {
        toPrune := toPrune + {cands[i].id};
      }
    }
  }

  lemma {:induction false} NoIds(cands: seq<Session>)
    ensures Ids(cands[..0]) == {}
  {
  }

  /** Gate 2. */
  method CountGate(cands: seq<Session>, toPrune0: set<string>, total: nat, maxCount: nat, ghost a: nat) returns (toPrune: set<string>)
    requires DistinctIds(cands) && a <= |cands| && toPrune0 == Ids(cands[..a])
    ensures CountEnd(|cands|, a, total, maxCount) <= |cands|
    ensures toPrune == Ids(cands[..CountEnd(|cands|, a, total, maxCount)])
  {
    hide Ids;
    toPrune := toPrune0;
    if total > maxCount {
      var excess: nat := total - maxCount;
      ghost var b := a;
      for i := 0 to |cands|
        invariant b == (if i < a then a else i) && b <= |cands|
        invariant excess == total - maxCount - (b - a) && toPrune == Ids(cands[..b])
      {
        if excess == 0 {
          break;
        }
        IdAmong(cands, i, b);
        if cands[i].id !in toPrune {
          OneMoreId(cands, i);
          toPrune := toPrune + {cands[i].id};
          excess := excess - 1;
          b := b + 1;
        }
      }
      assert b == CountEnd(|cands|, a, total, maxCount);
    }
  }

  /** Gate 3. */
  method SizeGate(cands: seq<Session>, toPrune0: set<string>, bytes: nat, ceiling: nat, ghost b: nat)
    returns (toPrune: set<string>, ghost c: nat)
    requires DistinctIds(cands) && b <= |cands| && toPrune0 == Ids(cands[..b])
    ensures IsSizeEnd(cands, b, bytes, ceiling, c) && toPrune == Ids(cands[..c])
  {
    hide Ids;
    toPrune, c := toPrune0, b;
    assert cands[b..b] == [];
    if bytes > ceiling {
      var remaining := bytes;
      for i := 0 to |cands|
        invariant c == (if i < b then b else i) && c <= |cands|
        invariant toPrune == Ids(cands[..c]) && remaining == SaturatingSub(bytes, Bytes(cands[b..c]))
        invariant forall k :: b <= k < c ==> bytes > ceiling + Bytes(cands[b..k])
      {
        if remaining <= ceiling {
          break;
        }
        IdAmong(cands, i, c);
        if cands[i].id !in toPrune {
          OneMoreId(cands, i);
          assert cands[b..i + 1][..i - b] == cands[b..i];
          toPrune := toPrune + {cands[i].id};
          remaining := SaturatingSub(remaining, cands[i].size);
          c := c + 1;
        }
      }
    }
  }

  /** `plan_sessions`. */
  method PlanSessions(sessions: seq<Session>, busy: set<string>, policy: Policy, now: nat)
    returns (plan: seq<Session>)
    requires DistinctIds(sessions)
    ensures IsPlan(sessions, busy, policy, now, plan)
  {
    hide Ids, IsSizeEnd, Oldest, ByMtime, Candidates, Ceiling, AgeEnd;
    var candidates := CollectCandidates(sessions, busy);
    candidates := ByMtime(candidates);
    CandidatesDistinct(sessions, busy);
    ByMtimeSorts(Candidates(sessions, busy));
    var toPrune := AgeGate(candidates, now, policy.maxAgeMs);
    ghost var a := AgeEnd(candidates, now, policy.maxAgeMs);
    toPrune := CountGate(candidates, toPrune, |sessions|, policy.maxCount, a);
    var totalSize := SumSizes(sessions);
    ghost var b := CountEnd(|candidates|, a, |sessions|, policy.maxCount);
    ghost var c;
    toPrune, c := SizeGate(candidates, toPrune, totalSize, Ceiling(policy.maxSizeMb), b);
    SizeEndWithin(candidates, b, totalSize, Ceiling(policy.maxSizeMb), c);
    plan := [];
    for i := 0 to |candidates|
      invariant plan == candidates[..if i < c then i else c]
    {
      IdAmong(candidates, i, c);
      if candidates[i].id in toPrune {
        plan := plan + [candidates[i]];
      }
    }
  }

  lemma {:induction false} SizeEndWithin(cands: seq<Session>, b: nat, bytes: nat, ceiling: nat, c: nat)
    requires IsSizeEnd(cands, b, bytes, ceiling, c)
    ensures c <= |cands|
  {
  }

  method CollectCandidates(sessions: seq<Session>, busy: set<string>) returns (candidates: seq<Session>)
    ensures candidates == Candidates(sessions, busy)
  {
    candidates := [];
    for i := 0 to |sessions|
      invariant candidates == Candidates(sessions[..i], busy)
    {
      assert sessions[..i + 1][..i] == sessions[..i];
      var s := sessions[i];
      if !s.hasTerminal {
        continue;
      }
      if s.id in busy {
        continue;
      }
      candidates := candidates + [s];
    }
    assert sessions[..|sessions|] == sessions;
  }

  method SumSizes(sessions: seq<Session>) returns (total: nat)
    ensures total == Bytes(sessions)
  {
    total := 0;
    for i := 0 to |sessions|
      invariant total == Bytes(sessions[..i])
    {
      assert sessions[..i + 1][..i] == sessions[..i];
      total := total + sessions[i].size;
    }
    assert sessions[..|sessions|] == sessions;
  }

  lemma {:induction false} CandidatesDistinct(sessions: seq<Session>, busy: set<string>)
    requires DistinctIds(sessions)
    ensures DistinctIds(ByMtime(Candidates(sessions, busy)))
  {
    hide DistinctIds, ByMtime, Candidates, Oldest;
    ByMtimeSorts(Candidates(sessions, busy));
    CandidatesAre(sessions, busy);
    FewerDistinct(ByMtime(Candidates(sessions, busy)), sessions);
  }

  lemma {:induction false} DistinctOnce(s: seq<Session>, x: Session)
    requires DistinctIds(s)
    ensures multiset(s)[x] <= 1
  {
    if s != [] {
      var n := |s| - 1;
      DistinctOnce(s[..n], x);
      assert s == s[..n] + [s[n]];
      assert s[n] !in s[..n];
    }
  }

  lemma {:induction false} SameTwice(s: seq<Session>, i: nat, j: nat)
    requires i < j < |s| && s[i] == s[j]
    ensures multiset(s)[s[i]] >= 2
  {
    assert s == s[..j] + s[j..];
    assert s[..j][i] in s[..j] && s[j..][0] in s[j..];
  }

  /** Part of a list with distinct ids has distinct ids. */
  lemma {:induction false} FewerDistinct(part: seq<Session>, all: seq<Session>)
    requires DistinctIds(all) && multiset(part) <= multiset(all)
    ensures DistinctIds(part)
  {
    forall i, j | 0 <= i < j < |part|
      ensures part[i].id != part[j].id
    {
      assert part[i] in multiset(part) && part[j] in multiset(part);
      assert part[i] in all && part[j] in all;
      if part[i] == part[j] {
        SameTwice(part, i, j);
        DistinctOnce(all, part[i]);
      }
    }
  }

  // -------------------------------------------------------------------------
  // What a plan guarantees
  // -------------------------------------------------------------------------

  ghost predicate IsPlan(sessions: seq<Session>, busy: set<string>, policy: Policy, now: nat, plan: seq<Session>) {
    var cands := ByMtime(Candidates(sessions, busy));
    exists c: nat :: IsPlanEnd(cands, |sessions|, Bytes(sessions), policy, now, c) && c <= |cands| && plan == cands[..c]
  }

  /** The sessions that stay once the plan is carried out. */
  function Kept(sessions: seq<Session>, plan: seq<Session>): seq<Session> {
    if sessions == [] then []
    else
      var s := sessions[|sessions| - 1];
      Kept(sessions[..|sessions| - 1], plan) + if s in plan then [] else [s]
  }

  lemma {:induction false} KeptWithout(sessions: seq<Session>, plan: seq<Session>, x: Session)
    requires x !in sessions
    ensures Kept(sessions, plan + [x]) == Kept(sessions, plan)
  {
    if sessions != [] {
      KeptWithout(sessions[..|sessions| - 1], plan, x);
      assert sessions[|sessions| - 1] in sessions;
    }
  }

  lemma {:induction false} KeptOneLess(sessions: seq<Session>, plan: seq<Session>, x: Session)
    requires DistinctIds(sessions) && x in sessions && x !in plan
    ensures |Kept(sessions, plan)| == |Kept(sessions, plan + [x])| + 1
    ensures Bytes(Kept(sessions, plan)) == Bytes(Kept(sessions, plan + [x])) + x.size
  {
    hide Bytes, Kept;
    var n := |sessions| - 1;
    var front, s := sessions[..n], sessions[n];
    assert sessions == front + [s];
    KeptLast(front, s, plan);
    KeptLast(front, s, plan + [x]);
    if s == x {
      assert forall k :: 0 <= k < n ==> front[k].id != x.id;
      assert x !in front;
      KeptWithout(front, plan, x);
    } else {
      KeptOneLess(front, plan, x);
      assert s in plan + [x] <==> s in plan;
    }
  }

  lemma {:induction false} KeptLast(front: seq<Session>, s: Session, plan: seq<Session>)
    ensures |Kept(front + [s], plan)| == |Kept(front, plan)| + if s in plan then 0 else 1
    ensures Bytes(Kept(front + [s], plan)) == Bytes(Kept(front, plan)) + if s in plan then 0 else s.size
  {
    hide Bytes;
    assert (front + [s])[..|front|] == front;
    BytesOne(s);
    BytesAppend(Kept(front, plan), [s]);
    assert Kept(front, plan) + [] == Kept(front, plan);
  }

  lemma {:induction false} BytesOne(s: Session)
    ensures Bytes([s]) == s.size
  {
    assert [s][..0] == [];
  }

  lemma {:induction false} KeptAll(sessions: seq<Session>)
    ensures Kept(sessions, []) == sessions
  {
    if sessions != [] {
      KeptAll(sessions[..|sessions| - 1]);
    }
  }

  /** What goes and what stays make up the whole. */
  lemma {:induction false} KeptAndPlanned(sessions: seq<Session>, plan: seq<Session>)
    requires DistinctIds(sessions) && DistinctIds(plan) && forall x :: x in plan ==> x in sessions
    ensures |Kept(sessions, plan)| + |plan| == |sessions|
    ensures Bytes(Kept(sessions, plan)) + Bytes(plan) == Bytes(sessions)
  {
    hide Kept;
    if plan == [] {
      KeptAll(sessions);
    } else {
      var n := |plan| - 1;
      var front, x := plan[..n], plan[n];
      assert plan == front + [x];
      KeptAndPlanned(sessions, front);
      assert x !in front;
      KeptOneLess(sessions, front, x);
    }
  }

  /** A session that was closed, and that no open task refers to. */
  predicate IsFree(s: Session, busy: set<string>) {
    s.hasTerminal && s.id !in busy
  }

  /** The plan is the oldest part of the free sessions; no other session is in it; every free one
      over age is in it; and what stays meets both limits, unless every free one goes. */
  lemma {:induction false} PlanKeepsPromises(sessions: seq<Session>, busy: set<string>, policy: Policy, now: nat, plan: seq<Session>)
    requires DistinctIds(sessions) && IsPlan(sessions, busy, policy, now, plan)
    ensures forall i, j :: 0 <= i < j < |plan| ==> plan[i].mtime <= plan[j].mtime
    ensures forall s, q :: s in plan && q in sessions && IsFree(q, busy) && q !in plan ==> s.mtime <= q.mtime
    ensures forall s :: s in plan ==> s in sessions && IsFree(s, busy)
    ensures forall s :: s in sessions && IsFree(s, busy) && now > s.mtime + policy.maxAgeMs ==> s in plan
    ensures
      || (|Kept(sessions, plan)| <= policy.maxCount
          && Bytes(Kept(sessions, plan)) <= policy.maxSizeMb * 1024 * 1024 % 0x1_0000_0000_0000_0000)
      || forall s :: s in sessions && IsFree(s, busy) ==> s in plan
  {
    hide IsPlan, Kept, Bytes;
    assert forall s :: IsFree(s, busy) <==> MayGo(s, busy);
    assert forall s: Session :: OverAge(s, now, policy.maxAgeMs) <==> now > s.mtime + policy.maxAgeMs;
    PlanPromises(sessions, busy, policy, now, plan);
  }

  /** When the sessions are within both limits, the plan is no more than the free ones over age. */
  lemma {:induction false} PlanWithinLimits(sessions: seq<Session>, busy: set<string>, policy: Policy, now: nat, plan: seq<Session>)
    requires DistinctIds(sessions) && IsPlan(sessions, busy, policy, now, plan)
    requires |sessions| <= policy.maxCount && Bytes(sessions) <= policy.maxSizeMb * 1024 * 1024 % 0x1_0000_0000_0000_0000
    ensures forall s :: s in plan <==> s in sessions && IsFree(s, busy) && now > s.mtime + policy.maxAgeMs
  {
    hide ByMtime, Candidates, Bytes, Oldest, DistinctIds, OverAge, MayGo;
    var cands := ByMtime(Candidates(sessions, busy));
    var a := AgeEnd(cands, now, policy.maxAgeMs);
    SortedCandidates(sessions, busy);
    AgeEndExact(cands, now, policy.maxAgeMs);
    var c: nat :| IsPlanEnd(cands, |sessions|, Bytes(sessions), policy, now, c) && c <= |cands| && plan == cands[..c];
    StopsAtAge(cands, |sessions|, Bytes(sessions), policy, now, c);
    forall s
      ensures s in plan <==> s in cands && OverAge(s, now, policy.maxAgeMs)
    {
      if i :| 0 <= i < |cands| && cands[i] == s && OverAge(s, now, policy.maxAgeMs) {
        assert plan[i] == s;
      }
    }
    forall s: Session
      ensures OverAge(s, now, policy.maxAgeMs) <==> now > s.mtime + policy.maxAgeMs
      ensures MayGo(s, busy) <==> IsFree(s, busy)
    {
      SpelledOut(s, busy, now, policy.maxAgeMs);
    }
  }

  lemma {:induction false} SpelledOut(s: Session, busy: set<string>, now: nat, maxAge: nat)
    ensures OverAge(s, now, maxAge) <==> now > s.mtime + maxAge
    ensures MayGo(s, busy) <==> IsFree(s, busy)
  {
  }

  lemma {:induction false} StopsAtAge(cands: seq<Session>, total: nat, bytes: nat, policy: Policy, now: nat, c: nat)
    requires IsPlanEnd(cands, total, bytes, policy, now, c) && total <= policy.maxCount && bytes <= Ceiling(policy.maxSizeMb)
    ensures c == AgeEnd(cands, now, policy.maxAgeMs)
  {
    hide AgeEnd, Ceiling, Bytes;
    var a := AgeEnd(cands, now, policy.maxAgeMs);
    assert cands[a..a] == [];
  }

  lemma {:induction false} PlanPromises(sessions: seq<Session>, busy: set<string>, policy: Policy, now: nat, plan: seq<Session>)
    requires DistinctIds(sessions) && IsPlan(sessions, busy, policy, now, plan)
    ensures Oldest(plan) && forall s, q :: s in plan && q in sessions && MayGo(q, busy) && q !in plan ==> s.mtime <= q.mtime
    ensures forall s :: s in plan ==> s in sessions && s.hasTerminal && s.id !in busy
    ensures forall s :: s in sessions && MayGo(s, busy) && OverAge(s, now, policy.maxAgeMs) ==> s in plan
    ensures
      || (|Kept(sessions, plan)| <= policy.maxCount && Bytes(Kept(sessions, plan)) <= Ceiling(policy.maxSizeMb))
      || forall s :: s in sessions && MayGo(s, busy) ==> s in plan
  {
    hide ByMtime, Candidates, Bytes, Kept, Ceiling, MayGo, Oldest, DistinctIds, OverAge, IsPlanEnd;
    var cands := ByMtime(Candidates(sessions, busy));
    SortedCandidates(sessions, busy);
    CandidatesDistinct(sessions, busy);
    AgeEndExact(cands, now, policy.maxAgeMs);
    var c: nat :| IsPlanEnd(cands, |sessions|, Bytes(sessions), policy, now, c) && c <= |cands| && plan == cands[..c];
    PlanPrefix(cands, c);
    KeptAndPlanned(sessions, plan);
    LimitsHold(cands, |sessions|, Bytes(sessions), policy, now, c);
    assert c == |cands| ==> plan == cands;
    PlannedAreFree(sessions, busy, plan);
    forall s | s in cands && OverAge(s, now, policy.maxAgeMs)
      ensures s in plan
    {
      var i :| 0 <= i < |cands| && cands[i] == s;
    }
  }

  lemma {:induction false} PlannedAreFree(sessions: seq<Session>, busy: set<string>, plan: seq<Session>)
    requires forall s :: s in plan ==> s in sessions && MayGo(s, busy)
    ensures forall s :: s in plan ==> s in sessions && s.hasTerminal && s.id !in busy
  {
  }

  lemma {:induction false} SortedCandidates(sessions: seq<Session>, busy: set<string>)
    ensures
      var cands := ByMtime(Candidates(sessions, busy));
      Oldest(cands) && forall x :: x in cands <==> x in sessions && MayGo(x, busy)
  {
    hide ByMtime, Candidates;
    ByMtimeSorts(Candidates(sessions, busy));
    CandidatesAre(sessions, busy);
    assert forall x :: x in ByMtime(Candidates(sessions, busy)) <==> x in multiset(Candidates(sessions, busy));
  }

  lemma {:induction false} PlanPrefix(cands: seq<Session>, c: nat)
    requires Oldest(cands) && DistinctIds(cands) && c <= |cands|
    ensures Oldest(cands[..c]) && DistinctIds(cands[..c])
    ensures forall s, q :: s in cands[..c] && q in cands && q !in cands[..c] ==> s.mtime <= q.mtime
    ensures forall s :: s in cands[..c] ==> s in cands
    ensures forall i :: 0 <= i < c ==> cands[i] in cands[..c]
  {
    forall i | 0 <= i < c
      ensures cands[i] in cands[..c]
    {
      assert cands[..c][i] == cands[i];
    }
  }

  lemma {:induction false} LimitsHold(cands: seq<Session>, total: nat, bytes: nat, policy: Policy, now: nat, c: nat)
    requires IsPlanEnd(cands, total, bytes, policy, now, c)
    ensures AgeEnd(cands, now, policy.maxAgeMs) <= c <= |cands|
    ensures c == |cands| || (total <= policy.maxCount + c && bytes <= Ceiling(policy.maxSizeMb) + Bytes(cands[..c]))
  {
    hide Bytes, Ceiling, AgeEnd;
    var b := CountEnd(|cands|, AgeEnd(cands, now, policy.maxAgeMs), total, policy.maxCount);
    assert cands[..c] == cands[..b] + cands[b..c];
    BytesAppend(cands[..b], cands[b..c]);
  }

  // -------------------------------------------------------------------------
  // Where a plan takes more than it has to
  // -------------------------------------------------------------------------

  predicate FewEnough(total: nat, maxCount: nat, gone: nat) {
    total <= maxCount + gone
  }

  /** The least number of sessions, from `a` up to `n`, that leaves no more than `maxCount`. */
  ghost predicate IsLeastCount(n: nat, a: nat, total: nat, maxCount: nat, c: nat) {
    && a <= c <= n && (c == n || FewEnough(total, maxCount, c))
    && forall d: nat :: a <= d < c ==> !FewEnough(total, maxCount, d)
  }

  /** The count gate ignores what the age gate already took: it goes beyond the least number that meets
      the count limit exactly when some but not all candidates are over age and the excess is positive
      but smaller than the number of candidates. */
  lemma {:induction false} CountGateOvershootsExactly(n: nat, a: nat, total: nat, maxCount: nat, c: nat)
    requires a <= n <= total && IsLeastCount(n, a, total, maxCount, c)
    ensures c <= CountEnd(n, a, total, maxCount)
    ensures CountEnd(n, a, total, maxCount) > c <==> 0 < a < n && 0 < SaturatingSub(total, maxCount) < n
  {
    var excess := SaturatingSub(total, maxCount);
    var least := if a > excess then a else if excess < n then excess else n;
    assert least == n || FewEnough(total, maxCount, least);
    assert c == least;
  }

  /** The least prefix of the candidates, from `b` on, whose bytes bring all of them down to the ceiling. */
  ghost predicate IsLeastSize(cands: seq<Session>, b: nat, bytes: nat, ceiling: nat, c: nat) {
    && b <= c <= |cands| && (c == |cands| || bytes <= ceiling + Bytes(cands[..c]))
    && forall d :: b <= d < c ==> bytes > ceiling + Bytes(cands[..d])
  }

  lemma {:induction false} BytesGrow(cands: seq<Session>, b: nat, d: nat, c: nat)
    requires b <= d <= c <= |cands|
    ensures Bytes(cands[b..d]) <= Bytes(cands[b..c]) && Bytes(cands[..c]) == Bytes(cands[..b]) + Bytes(cands[b..c])
  {
    assert cands[b..c] == cands[b..d] + cands[d..c];
    BytesAppend(cands[b..d], cands[d..c]);
    assert cands[..c] == cands[..b] + cands[b..c];
    BytesAppend(cands[..b], cands[b..c]);
  }

  /** The size gate ignores the bytes that the other gates already freed: it goes beyond the least prefix
      that meets the size limit exactly when that prefix is not all of the candidates, and the part of
      it that the gate took itself does not meet the limit alone. */
  lemma {:induction false} SizeGateOvershootsExactly(cands: seq<Session>, b: nat, bytes: nat, ceiling: nat, e: nat, c: nat)
    requires IsSizeEnd(cands, b, bytes, ceiling, e) && IsLeastSize(cands, b, bytes, ceiling, c)
    ensures c <= e
    ensures e > c <==> c < |cands| && bytes > ceiling + Bytes(cands[b..c])
  {
    hide Bytes;
    if e < c {
      BytesGrow(cands, b, e, e);
    } else {
      BytesGrow(cands, b, c, e);
    }
  }

  ghost predicate MeetsLimits(cands: seq<Session>, total: nat, bytes: nat, policy: Policy, c: nat)
    requires c <= |cands|
  {
    total <= policy.maxCount + c && bytes <= Ceiling(policy.maxSizeMb) + Bytes(cands[..c])
  }

  /** The least plan that takes all candidates over age and meets both limits, if they can be met. */
  ghost predicate IsLeastPlan(cands: seq<Session>, total: nat, bytes: nat, policy: Policy, now: nat, c: nat) {
    var a := AgeEnd(cands, now, policy.maxAgeMs);
    && a <= c <= |cands| && (c == |cands| || MeetsLimits(cands, total, bytes, policy, c))
    && forall d :: a <= d < c ==> !MeetsLimits(cands, total, bytes, policy, d)
  }

  /** A whole plan goes beyond the least one exactly when that one is not all of the candidates, and the
      count gate went beyond it or the size gate could not count all of its bytes. */
  lemma {:induction false} PlanOvershootsExactly(
    cands: seq<Session>, total: nat, bytes: nat, policy: Policy, now: nat, e: nat, c: nat)
    requires IsPlanEnd(cands, total, bytes, policy, now, e) && IsLeastPlan(cands, total, bytes, policy, now, c)
    ensures c <= e
    ensures
      var b := CountEnd(|cands|, AgeEnd(cands, now, policy.maxAgeMs), total, policy.maxCount);
      e > c <==> c < |cands| && (b > c || bytes > Ceiling(policy.maxSizeMb) + Bytes(cands[b..c]))
  {
    hide Bytes, Ceiling, AgeEnd;
    LimitsHold(cands, total, bytes, policy, now, e);
    var b := CountEnd(|cands|, AgeEnd(cands, now, policy.maxAgeMs), total, policy.maxCount);
    assert e == |cands| || MeetsLimits(cands, total, bytes, policy, e);
    assert c <= e;
    if b <= c {
      BytesGrow(cands, b, c, e);
    }
  }

  /** Two sessions, the older one over age, and room for one in number or in bytes: the older one alone
      would do, and both are planned. */
  lemma {:induction false} GatesOvershoot()
    ensures
      var cands := [Session("a", 0, 1_048_576, true), Session("b", 100, 1_048_576, true)];
      var tight, small := Policy(50, 1, 9), Policy(50, 9, 1);
      && Oldest(cands) && AgeEnd(cands, 100, 50) == 1
      && IsLeastPlan(cands, 2, Bytes(cands), tight, 100, 1) && IsPlanEnd(cands, 2, Bytes(cands), tight, 100, 2)
      && IsLeastPlan(cands, 2, Bytes(cands), small, 100, 1) && IsPlanEnd(cands, 2, Bytes(cands), small, 100, 2)
  {
    var a, b := Session("a", 0, 1_048_576, true), Session("b", 100, 1_048_576, true);
    var cands := [a, b];
    assert cands[1..] == [b] && [b][1..] == [];
    assert AgeEnd([b], 100, 50) == 0 && AgeEnd(cands, 100, 50) == 1;
    BytesOne(a);
    BytesOne(b);
    assert cands[..1] == [a] && cands[1..2] == [b] && cands[1..1] == [] && cands[2..2] == [];
    assert Bytes(cands) == 2_097_152;
  }
}
