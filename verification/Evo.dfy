/** Score-and-commit (`src/evo/optimizer.rs`) and the stall watchdog (`src/evo/watchdog.rs`). */
module Evo {
  import opened Text
  import opened Timestamps
  import opened Lineage

  // -------------------------------------------------------------------------
  // Scores
  // -------------------------------------------------------------------------

  /** The harness outcome of one task. */
  datatype Outcome = Pass | Fail(reason: string) | Error(reason: string)

  function FitnessOf(o: Outcome): Option<real> {
    match o
    case Pass => Some(1.0)
    case Fail(_) => Some(0.0)
    case Error(_) => None
  }

  function Scoreable(outcomes: seq<Outcome>): seq<real> {
    if outcomes == [] then []
    else
      var f := FitnessOf(outcomes[0]);
      (if f.Some? then [f.value] else []) + Scoreable(outcomes[1..])
  }

  function Sum(xs: seq<real>): real {
    if xs == [] then 0.0 else xs[0] + Sum(xs[1..])
  }

  /** `ScoreReport::mean_fitness`. */
  function MeanFitness(outcomes: seq<Outcome>): Option<real> {
    var xs := Scoreable(outcomes);
    if xs == [] then None else Some(Sum(xs) / |xs| as real)
  }

  function CountPasses(outcomes: seq<Outcome>): nat {
    if outcomes == [] then 0 else (if outcomes[0].Pass? then 1 else 0) + CountPasses(outcomes[1..])
  }

  function CountErrors(outcomes: seq<Outcome>): nat {
    if outcomes == [] then 0 else (if outcomes[0].Error? then 1 else 0) + CountErrors(outcomes[1..])
  }

  lemma {:induction false} ScoreTotals(outcomes: seq<Outcome>)
    ensures Sum(Scoreable(outcomes)) == CountPasses(outcomes) as real
    ensures |Scoreable(outcomes)| + CountErrors(outcomes) == |outcomes|
    ensures CountPasses(outcomes) <= |Scoreable(outcomes)|
  {
    if outcomes != [] {
      var rest := Scoreable(outcomes[1..]);
      ScoreTotals(outcomes[1..]);
      if !outcomes[0].Error? {
        assert Scoreable(outcomes) == [FitnessOf(outcomes[0]).value] + rest;
        assert Scoreable(outcomes)[1..] == rest;
      } else {
        assert Scoreable(outcomes) == rest;
      }
    }
  }

  /** The mean is the share of passes among the tasks that ran: errors are left out of both counts,
      never averaged in as zero, and only an all-error report has no mean. */
  lemma {:induction false} MeanIsPassShare(outcomes: seq<Outcome>)
    ensures MeanFitness(outcomes).None? <==> CountErrors(outcomes) == |outcomes|
    ensures MeanFitness(outcomes).Some? ==>
      && MeanFitness(outcomes).value * (|outcomes| - CountErrors(outcomes)) as real == CountPasses(outcomes) as real
      && 0.0 <= MeanFitness(outcomes).value <= 1.0
  {
    hide Sum, Scoreable, CountPasses, CountErrors;
    ScoreTotals(outcomes);
    var passes, ran := CountPasses(outcomes), |Scoreable(outcomes)|;
    if ran > 0 {
      ShareBounds(passes as real, ran as real);
    }
  }

  lemma {:induction false} ShareBounds(x: real, n: real)
    requires 0.0 <= x <= n && n > 0.0
    ensures 0.0 <= x / n <= 1.0 && x / n * n == x
  {
  }

  // -------------------------------------------------------------------------
  // Commit runs
  // -------------------------------------------------------------------------

  /** One call of `commit_artifact`. */
  datatype Commit = Commit(artifactRef: string, outcomes: seq<Outcome>, nowMs: nat)

  function CommitId(nowMs: nat, count: nat): string {
    "commit-" + Pad(nowMs, 1) + "-" + Pad(count, 1)
  }

  function CommitNode(nodes: seq<Node>, c: Commit): Node {
    Node(CommitId(c.nowMs, |nodes|),
         if Head(nodes).Some? then [Head(nodes).value.id] else [],
         MeanFitness(c.outcomes),
         c.artifactRef,
         Iso8601(c.nowMs))
  }

  /** The lineage after a run of commits from the empty lineage. */
  function Committed(cs: seq<Commit>): seq<Node> {
    if cs == [] then []
    else
      var before := Committed(cs[..|cs| - 1]);
      before + [CommitNode(before, cs[|cs| - 1])]
  }

  function Scored(c: Commit): bool {
    MeanFitness(c.outcomes).Some?
  }

  /** What a run of commits builds: node `i` is commit `i`, and its parent is commit `i - 1` when
      that one is scored; after an unscored commit the next one is a root again. */
  ghost predicate Chained(nodes: seq<Node>, cs: seq<Commit>) {
    |nodes| == |cs| && forall i :: 0 <= i < |cs| ==> ChainedAt(nodes, cs, i)
  }

  ghost predicate ChainedAt(nodes: seq<Node>, cs: seq<Commit>, i: nat)
    requires i < |cs| == |nodes|
  {
    && nodes[i].id == CommitId(cs[i].nowMs, i)
    && nodes[i].fitness == MeanFitness(cs[i].outcomes)
    && nodes[i].artifactRef == cs[i].artifactRef
    && nodes[i].createdAt == Iso8601(cs[i].nowMs)
    && nodes[i].parents == ChainParents(nodes, cs, i)
  }

  function ChainParents(nodes: seq<Node>, cs: seq<Commit>, i: nat): seq<string>
    requires i < |cs| == |nodes|
  {
    if i > 0 && Scored(cs[i - 1]) then [nodes[i - 1].id] else []
  }

  /** Ids never repeat: the commit count is readable off the end of the id. */
  lemma {:induction false} CommitIdInjective(t: nat, i: nat, u: nat, j: nat)
    requires CommitId(t, i) == CommitId(u, j)
    ensures i == j
  {
    LastPiece("commit-" + Pad(t, 1), i);
    LastPiece("commit-" + Pad(u, 1), j);
    ValuePad(i, 1);
    ValuePad(j, 1);
  }

  /** An id reads `commit-<milliseconds>-<count>`. */
  lemma {:induction false} CommitIdReads(nowMs: nat, count: nat)
    ensures
      var pieces := Split(CommitId(nowMs, count), '-');
      && |pieces| == 3 && pieces[0] == "commit"
      && AllDigits(pieces[1]) && Value(pieces[1]) == nowMs && AllDigits(pieces[2]) && Value(pieces[2]) == count
  {
    hide Split, Pad;
    var time, number := Pad(nowMs, 1), Pad(count, 1);
    assert CommitId(nowMs, count) == "commit" + ['-'] + time + ['-'] + number;
    SplitConcat("commit" + ['-'] + time, number, '-');
    SplitConcat("commit", time, '-');
    NoDash("commit");
    NoDash(time);
    NoDash(number);
    assert ["commit"] + [time] + [number] == ["commit", time, number];
    ValuePad(nowMs, 1);
    ValuePad(count, 1);
  }

  lemma {:induction false} NoDash(s: string)
    requires '-' !in s
    ensures Split(s, '-') == [s]
  {
    hide Lines, Tail;
    TailClean(s, '-');
  }

  lemma {:induction false} LastPiece(front: string, n: nat)
    ensures Tail(front + "-" + Pad(n, 1), '-') == Pad(n, 1)
  {
    TailClean(Pad(n, 1), '-');
    SplitConcat(front, Pad(n, 1), '-');
    var whole := front + ['-'] + Pad(n, 1);
    assert Split(whole, '-')[|Split(whole, '-')| - 1] == Tail(whole, '-');
    assert Split(Pad(n, 1), '-') == [Pad(n, 1)];
  }

  lemma {:induction false} ChainedDistinct(nodes: seq<Node>, cs: seq<Commit>)
    requires Chained(nodes, cs)
    ensures DistinctIds(nodes)
  {
    hide Iso8601, MeanFitness, CommitId;
    forall i, j | 0 <= i < j < |nodes|
      ensures nodes[i].id != nodes[j].id
    {
      assert ChainedAt(nodes, cs, i) && ChainedAt(nodes, cs, j);
      if nodes[i].id == nodes[j].id {
        CommitIdInjective(cs[i].nowMs, i, cs[j].nowMs, j);
      }
    }
  }

  /** Among chained nodes the only scored leaf is the newest node, so `head` is that node when it is
      scored and absent otherwise. */
  lemma {:induction false} ChainedHead(nodes: seq<Node>, cs: seq<Commit>)
    requires Chained(nodes, cs)
    ensures forall n :: n in nodes && n.id !in ParentIds(nodes) && n.fitness.Some? ==> n == nodes[|nodes| - 1]
    ensures Head(nodes) == if nodes != [] && Scored(cs[|cs| - 1]) then Some(nodes[|nodes| - 1]) else None
  {
    hide Iso8601, MeanFitness, CommitId, Head;
    forall i | 0 <= i < |nodes| - 1 && nodes[i].fitness.Some?
      ensures nodes[i].id in ParentIds(nodes)
    {
      assert ChainedAt(nodes, cs, i) && ChainedAt(nodes, cs, i + 1);
      assert nodes[i + 1].parents[0] in ParentIds(nodes);
    }
    if nodes != [] {
      LastIsLeaf(nodes, cs);
      assert ChainedAt(nodes, cs, |cs| - 1);
    }
    HeadIsBestLeaf(nodes);
  }

  lemma {:induction false} LastIsLeaf(nodes: seq<Node>, cs: seq<Commit>)
    requires Chained(nodes, cs) && nodes != []
    ensures nodes[|nodes| - 1].id !in ParentIds(nodes)
  {
    hide Iso8601, MeanFitness, CommitId;
    ChainedDistinct(nodes, cs);
    forall i, j | 0 <= i < |nodes| && 0 <= j < |nodes[i].parents|
      ensures nodes[i].parents[j] != nodes[|nodes| - 1].id
    {
      assert ChainedAt(nodes, cs, i);
    }
  }

  lemma {:induction false} ChainedStep(before: seq<Node>, cs: seq<Commit>)
    requires cs != [] && Chained(before, cs[..|cs| - 1])
    requires Head(before) == if before != [] && Scored(cs[|cs| - 2]) then Some(before[|before| - 1]) else None
    ensures Chained(before + [CommitNode(before, cs[|cs| - 1])], cs)
  {
    hide Iso8601, MeanFitness, CommitId, Head;
    var k := |cs| - 1;
    var after := before + [CommitNode(before, cs[k])];
    forall i | 0 <= i < |cs|
      ensures ChainedAt(after, cs, i)
    {
      if i < k {
        assert ChainedAt(before, cs[..k], i);
      }
    }
  }

  /** Every run of commits is chained, `head` included. */
  lemma {:induction false} CommittedChained(cs: seq<Commit>)
    ensures Chained(Committed(cs), cs)
    ensures var nodes := Committed(cs);
      Head(nodes) == if nodes != [] && Scored(cs[|cs| - 1]) then Some(nodes[|nodes| - 1]) else None
  {
    hide Iso8601, MeanFitness, CommitId, Head;
    if cs != [] {
      CommittedChained(cs[..|cs| - 1]);
      ChainedStep(Committed(cs[..|cs| - 1]), cs);
    }
    ChainedHead(Committed(cs), cs);
  }

  /** The next commit of any run is appended without error, and the lineage stays append-only
      (hence acyclic). */
  lemma {:induction false} CommitNeverFails(cs: seq<Commit>, c: Commit)
    ensures AppendOnly(Committed(cs))
    ensures CanAppend(Committed(cs), CommitNode(Committed(cs), c))
  {
    hide Iso8601, MeanFitness, CommitId, Head;
    var nodes := Committed(cs);
    CommittedChained(cs);
    ChainedDistinct(nodes, cs);
    if cs != [] {
      CommitNeverFails(cs[..|cs| - 1], cs[|cs| - 1]);
      AppendKeeps(Committed(cs[..|cs| - 1]), CommitNode(Committed(cs[..|cs| - 1]), cs[|cs| - 1]));
      assert nodes[|nodes| - 1].id in Ids(nodes);
    }
    forall i | 0 <= i < |nodes|
      ensures nodes[i].id != CommitId(c.nowMs, |nodes|)
    {
      assert ChainedAt(nodes, cs, i);
      if nodes[i].id == CommitId(c.nowMs, |nodes|) {
        CommitIdInjective(cs[i].nowMs, i, c.nowMs, |nodes|);
      }
    }
  }

  /** `commit_artifact`: one append below the current head. Along a run of commits it always
      succeeds and continues the run. */
  method CommitArtifact(lineage: Lineage, c: Commit) returns (r: Result<string>)
    modifies lineage
    ensures r.Ok? <==> CanAppend(old(lineage.nodes), CommitNode(old(lineage.nodes), c))
    ensures r.Ok? ==> r.value == CommitId(c.nowMs, |old(lineage.nodes)|)
    ensures lineage.nodes == old(lineage.nodes) + if r.Ok? then [CommitNode(old(lineage.nodes), c)] else []
    ensures forall run :: old(lineage.nodes) == Committed(run) ==> r.Ok? && lineage.nodes == Committed(run + [c])
  {
    hide Iso8601, MeanFitness, CommitId, Head;
    ghost var before := lineage.nodes;
    var head := Head(lineage.nodes);
    var parents := if head.Some? then [head.value.id] else [];
    var id := CommitId(c.nowMs, |lineage.nodes|);
    var added := lineage.AddNode(Node(id, parents, MeanFitness(c.outcomes), c.artifactRef, Iso8601(c.nowMs)));
    forall run | before == Committed(run)
      ensures added.Ok? && lineage.nodes == Committed(run + [c])
    {
      CommitNeverFails(run, c);
      assert (run + [c])[..|run|] == run;
    }
    r := match added case Ok(_) => Ok(id) case Err(e) => Err(e);
  }

  // -------------------------------------------------------------------------
  // Ancestors along a commit run
  // -------------------------------------------------------------------------

  /** The first commit of the unbroken scored run that leads up to commit `i`. */
  function ChainStart(cs: seq<Commit>, i: nat): (j: nat)
    requires i < |cs|
    ensures j <= i
  {
    if i > 0 && Scored(cs[i - 1]) then ChainStart(cs, i - 1) else i
  }

  lemma {:induction false} ReachesBack(nodes: seq<Node>, cs: seq<Commit>, i: nat, j: nat)
    requires Chained(nodes, cs) && i < |cs| && ChainStart(cs, i) <= j <= i
    ensures Reaches(nodes, nodes[i].id, nodes[j].id)
    decreases i - j
  {
    hide Iso8601, MeanFitness, CommitId;
    if j == i {
      ReachesSelf(nodes, nodes[i].id);
    } else {
      ChainStartShared(cs, i, j);
      ReachesBack(nodes, cs, i, j + 1);
      ChainedDistinct(nodes, cs);
      FindDistinct(nodes, j + 1);
      assert ChainedAt(nodes, cs, j + 1);
      assert IsParent(nodes, nodes[j + 1].id, nodes[j].id);
      ReachesStep(nodes, nodes[i].id, nodes[j + 1].id, nodes[j].id);
    }
  }

  lemma {:induction false} ChainStartShared(cs: seq<Commit>, i: nat, j: nat)
    requires i < |cs| && ChainStart(cs, i) <= j < i
    ensures Scored(cs[j])
  {
    hide MeanFitness;
    if j < i - 1 {
      ChainStartShared(cs, i - 1, j);
    }
  }

  lemma {:induction false} ChainStartUnscored(cs: seq<Commit>, i: nat)
    requires i < |cs|
    ensures var j := ChainStart(cs, i); j > 0 ==> !Scored(cs[j - 1])
  {
    hide MeanFitness;
    if i > 0 && Scored(cs[i - 1]) {
      ChainStartUnscored(cs, i - 1);
    }
  }

  lemma {:induction false} AncestorsWithin(nodes: seq<Node>, cs: seq<Commit>, i: nat, j: nat, y: string)
    requires Chained(nodes, cs) && i < |cs| && ChainStart(cs, i) <= j <= i
    requires IsParent(nodes, nodes[j].id, y)
    ensures j > ChainStart(cs, i) && y == nodes[j - 1].id
  {
    hide Iso8601, MeanFitness, CommitId, ChainedAt;
    ChainedDistinct(nodes, cs);
    FindDistinct(nodes, j);
    ChainStartUnscored(cs, i);
    ChainedParents(nodes, cs, j);
  }

  lemma {:induction false} ChainedParents(nodes: seq<Node>, cs: seq<Commit>, j: nat)
    requires Chained(nodes, cs) && j < |cs|
    ensures nodes[j].parents == if j > 0 && Scored(cs[j - 1]) then [nodes[j - 1].id] else []
  {
    hide Iso8601, MeanFitness, CommitId;
    assert ChainedAt(nodes, cs, j);
  }

  /** A commit's ancestors are the commits back to the one after the last unscored commit before it:
      an unscored commit cuts the lineage, and what follows it starts afresh. */
  lemma {:induction false} CommitAncestors(nodes: seq<Node>, cs: seq<Commit>, i: nat)
    requires Chained(nodes, cs) && i < |cs|
    ensures forall x :: Reaches(nodes, nodes[i].id, x) <==>
                        exists j :: ChainStart(cs, i) <= j <= i && x == nodes[j].id
  {
    hide ChainedAt, Reaches, IsParent, ChainStart;
    var start := ChainStart(cs, i);
    var closed := set j | start <= j <= i :: nodes[j].id;
    forall x, y | x in closed && IsParent(nodes, x, y)
      ensures y in closed
    {
      var j :| start <= j <= i && nodes[j].id == x;
      AncestorsWithin(nodes, cs, i, j, y);
    }
    ClosedHoldsReachable(nodes, nodes[i].id, closed);
    forall j | start <= j <= i
      ensures Reaches(nodes, nodes[i].id, nodes[j].id)
    {
      ReachesBack(nodes, cs, i, j);
    }
  }

  /** `recommend` on a commit run: the fittest commit, and among equals the one committed earliest
      by the clock. The string tie-break of `compare_fitness` is chronological because every commit
      is stamped before the year 10000. */
  lemma {:induction false} RecommendIsEarliestBest(nodes: seq<Node>, cs: seq<Commit>)
    requires Chained(nodes, cs)
    requires forall i :: 0 <= i < |cs| ==> cs[i].nowMs < YEAR_10000_MS
    ensures BestParent(nodes).None? <==> forall i :: 0 <= i < |cs| ==> !Scored(cs[i])
    ensures BestParent(nodes).Some? ==>
      exists i :: 0 <= i < |cs| && Scored(cs[i]) && BestParent(nodes) == Some(nodes[i])
        && forall j :: 0 <= j < |cs| ==> NoBetter(cs[j], cs[i])
  {
    hide Iso8601, MeanFitness, CommitId, BestParent, LexLess, ChainParents;
    assert forall i :: 0 <= i < |cs| ==> ChainedAt(nodes, cs, i) && nodes[i] in nodes;
    BestParentIsBest(nodes);
    if BestParent(nodes).Some? {
      var i :| 0 <= i < |cs| && nodes[i] == BestParent(nodes).value;
      forall j | 0 <= j < |cs| && Scored(cs[j])
        ensures NoBetter(cs[j], cs[i])
      {
        OrderEmbedding(cs[j].nowMs, cs[i].nowMs);
        assert AtLeastAsGood(nodes[i], nodes[j]);
      }
    } else {
      forall i | 0 <= i < |cs|
        ensures !Scored(cs[i])
      {
        assert ChainedAt(nodes, cs, i) && nodes[i] in nodes;
      }
    }
  }

  /** `c` is unscored, less fit than `best`, or as fit and not committed before it. */
  ghost predicate NoBetter(c: Commit, best: Commit)
    requires Scored(best)
  {
    Scored(c) ==>
      var f, g := MeanFitness(c.outcomes).value, MeanFitness(best.outcomes).value;
      f < g || (f == g && best.nowMs <= c.nowMs)
  }

  // -------------------------------------------------------------------------
  // Watchdog
  // -------------------------------------------------------------------------

  datatype Verdict = Empty | Healthy | StalledOld | StalledNoImprovement | Crashed

  const STALL_MS := 7 * 86_400_000
  const IMPROVEMENT_WINDOW := 5

  function LastFive(nodes: seq<Node>): seq<Node> {
    LastOf(nodes, IMPROVEMENT_WINDOW)
  }

  /** `evaluate`; `Crashed` when the timestamp parser slices out of range. */
  function Evaluate(nodes: seq<Node>, now: nat): Verdict {
    if nodes == [] then Empty else
    var newest := ParseIso(nodes[|nodes| - 1].createdAt);
    if newest.Panicked? then Crashed else
    if newest.Millis? && SaturatingSub(now, newest.ms) >= STALL_MS then StalledOld else
    var scored := ScoredNodes(LastFive(nodes));
    ScoredNodesExact(LastFive(nodes));
    assert |scored| >= 1 ==> scored[0] in scored && scored[|scored| - 1] in scored;
    if |scored| >= 2 && scored[|scored| - 1].fitness.value <= scored[0].fitness.value then StalledNoImprovement
    else Healthy
  }

  /** The verdicts that only the newest node decides: a lineage without nodes is empty and none else is,
      and a stamp that crashes the parser crashes the watchdog. */
  lemma {:induction false} EmptyExactly(nodes: seq<Node>, now: nat)
    ensures Evaluate(nodes, now) == Empty <==> nodes == []
    ensures nodes != [] ==>
      var newest := ParseIso(nodes[|nodes| - 1].createdAt);
      && (Evaluate(nodes, now) == Crashed <==> newest.Panicked?)
      && (Evaluate(nodes, now) == StalledOld <==> newest.Millis? && now >= newest.ms + 604_800_000)
  {
    hide ParseIso, ScoredNodes;
  }

  /** The newest commit of a run is found old exactly when seven days have passed since its own
      clock reading: the print-and-parse detour loses nothing before the year 10000. */
  lemma {:induction false} StalledOldExactly(cs: seq<Commit>, now: nat)
    requires cs != [] && cs[|cs| - 1].nowMs < YEAR_10000_MS
    ensures Evaluate(Committed(cs), now) == StalledOld <==> now >= cs[|cs| - 1].nowMs + 604_800_000
    ensures Evaluate(Committed(cs), now) != Crashed
  {
    hide Iso8601, ParseIso, MeanFitness, CommitId, Head, ScoredNodes;
    CommittedChained(cs);
    assert ChainedAt(Committed(cs), cs, |cs| - 1);
    RoundTripBefore10000(cs[|cs| - 1].nowMs);
  }

  /** After that it never is, unless the printed year has seven digits: then the seven days count from
      a moment near the epoch, or beyond the 64-bit range, that the parser makes of the stamp. */
  lemma {:induction false} StalledOldLate(cs: seq<Commit>, now: nat)
    requires cs != [] && YEAR_10000_MS <= cs[|cs| - 1].nowMs < U64
    ensures
      var ms := cs[|cs| - 1].nowMs;
      var parsed := ParseIso(Iso8601(ms));
      && Evaluate(Committed(cs), now) != Crashed
      && (parsed == Unparsed <==> |YearText(ms)| != 7)
      && (parsed == Unparsed ==> Evaluate(Committed(cs), now) != StalledOld)
      && (parsed != Unparsed ==>
           && parsed.Millis? && (parsed.ms < 1_000_000_000_000_000 || U64 - 1_000_000_000_000_000 < parsed.ms)
           && (Evaluate(Committed(cs), now) == StalledOld <==> now >= parsed.ms + 604_800_000))
  {
    hide Printed, ParseIso, MeanFitness, CommitId, Head, ScoredNodes, StampOf, Pad;
    CommittedChained(cs);
    assert ChainedAt(Committed(cs), cs, |cs| - 1);
    var ms := cs[|cs| - 1].nowMs;
    YearWidth(ms);
    if |YearText(ms)| == 7 {
      SevenDigitYear(StampOf(ms));
    } else {
      MisalignedUnparsed(StampOf(ms));
    }
  }

  /** The first and last scored positions of a window. */
  ghost predicate ScoredEnds(nodes: seq<Node>, first: nat, last: nat) {
    && first <= last < |nodes| && nodes[first].fitness.Some? && nodes[last].fitness.Some?
    && (forall k :: 0 <= k < first ==> nodes[k].fitness.None?)
    && (forall k :: last < k < |nodes| ==> nodes[k].fitness.None?)
  }

  lemma {:induction false} ScoredBySpan(nodes: seq<Node>, first: nat, last: nat)
    requires ScoredEnds(nodes, first, last)
    ensures var s := ScoredNodes(nodes);
      |s| >= 1 && s[0] == nodes[first] && s[|s| - 1] == nodes[last] && (|s| >= 2 <==> first < last)
  {
    var n := |nodes| - 1;
    var rest := nodes[..n];
    if last < n {
      ScoredBySpan(rest, first, last);
    } else if first == n {
      NoneScored(rest);
    } else {
      var f, l := FindEnds(rest, first);
      ScoredBySpan(rest, f, l);
    }
  }

  lemma {:induction false} NoneScored(nodes: seq<Node>)
    requires forall k :: 0 <= k < |nodes| ==> nodes[k].fitness.None?
    ensures ScoredNodes(nodes) == []
  {
    if nodes != [] {
      NoneScored(nodes[..|nodes| - 1]);
    }
  }

  lemma {:induction false} FindEnds(nodes: seq<Node>, k: nat) returns (f: nat, l: nat)
    requires k < |nodes| && nodes[k].fitness.Some?
    ensures ScoredEnds(nodes, f, l)
  {
    f, l := 0, |nodes| - 1;
    while nodes[f].fitness.None?
      decreases k - f
      invariant f <= k && forall j :: 0 <= j < f ==> nodes[j].fitness.None?
    {
      f := f + 1;
    }
    while nodes[l].fitness.None?
      decreases l
      invariant k <= l < |nodes| && forall j :: l < j < |nodes| ==> nodes[j].fitness.None?
    {
      l := l - 1;
    }
  }

  /** A lineage whose newest commit is fresh is stalled exactly when, within its last five commits,
      the last scored one is a different commit from the first scored one and is no fitter. */
  lemma {:induction false} NoImprovementExactly(nodes: seq<Node>, now: nat)
    requires nodes != [] && Evaluate(nodes, now) != Crashed && Evaluate(nodes, now) != StalledOld
    ensures
      var w := if |nodes| <= 5 then nodes else nodes[|nodes| - 5..];
      Evaluate(nodes, now) == StalledNoImprovement <==>
        exists f: nat, l: nat :: ScoredEnds(w, f, l) && f < l && w[l].fitness.value <= w[f].fitness.value
    ensures Evaluate(nodes, now) == StalledNoImprovement || Evaluate(nodes, now) == Healthy
  {
    hide ParseIso, ScoredNodes;
    var w := LastFive(nodes);
    if k :| 0 <= k < |w| && w[k].fitness.Some? {
      var f, l := FindEnds(w, k);
      ScoredBySpan(w, f, l);
      assert forall f': nat, l': nat :: ScoredEnds(w, f', l') ==> f' == f && l' == l;
    } else {
      NoneScored(w);
      assert forall f: nat, l: nat :: !ScoredEnds(w, f, l);
    }
  }
}
