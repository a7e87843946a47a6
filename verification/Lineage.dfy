/** The lineage DAG of `src/evo/lineage.rs`: append, strict load, greedy selection, ancestor walk.
    Fitness is a real number; NaN and rounding are not modelled. */
module Lineage {
  import opened Text

  datatype Node = Node(id: string, parents: seq<string>, fitness: Option<real>, artifactRef: string, createdAt: string)

  datatype Fault = InvalidJson | Duplicate(id: string) | SelfParent(id: string) | Dangling(parent: string, id: string)

  datatype LineageError =
    | UnknownParent(parent: string, node: string)
    | DuplicateId(id: string)
    | Corruption(line: nat, fault: Fault)

  datatype Result<+T> = Ok(value: T) | Err(error: LineageError)

  function Ids(nodes: seq<Node>): set<string> {
    set i | 0 <= i < |nodes| :: nodes[i].id
  }

  /** `nodes.iter().find(|n| n.id == id)`. */
  function FindNode(nodes: seq<Node>, id: string): (r: Option<Node>)
    ensures r.Some? ==> r.value in nodes && r.value.id == id
    ensures r.Some? <==> id in Ids(nodes)
  {
    if nodes == [] then None
    else if nodes[0].id == id then Some(nodes[0])
    else
      assert forall i :: 1 <= i < |nodes| ==> nodes[i] == nodes[1..][i - 1];
      FindNode(nodes[1..], id)
  }

  ghost predicate DistinctIds(nodes: seq<Node>) {
    forall i, j :: 0 <= i < j < |nodes| ==> nodes[i].id != nodes[j].id
  }

  /** What `load` checks: distinct ids, and every parent another node of the file. */
  ghost predicate Loadable(nodes: seq<Node>) {
    && DistinctIds(nodes)
    && forall n :: n in nodes ==> forall p :: p in n.parents ==> p in Ids(nodes) && p != n.id
  }

  /** What `add_node` guarantees: distinct ids, and every parent appended earlier. */
  ghost predicate AppendOnly(nodes: seq<Node>) {
    && DistinctIds(nodes)
    && forall k :: 0 <= k < |nodes| ==> forall p :: p in nodes[k].parents ==> p in Ids(nodes[..k])
  }

  // -------------------------------------------------------------------------
  // Reachability along parent links
  // -------------------------------------------------------------------------

  ghost predicate IsParent(nodes: seq<Node>, child: string, parent: string) {
    FindNode(nodes, child).Some? && parent in FindNode(nodes, child).value.parents
  }

  ghost predicate IsPath(nodes: seq<Node>, path: seq<string>) {
    && path != []
    && forall i :: 0 <= i < |path| - 1 ==> IsParent(nodes, path[i], path[i + 1])
  }

  /** The reflexive-transitive closure of the parent relation. */
  ghost predicate Reaches(nodes: seq<Node>, from: string, to: string) {
    exists path :: IsPath(nodes, path) && path[0] == from && path[|path| - 1] == to
  }

  lemma {:induction false} ReachesSelf(nodes: seq<Node>, id: string)
    ensures Reaches(nodes, id, id)
  {
    assert IsPath(nodes, [id]);
  }

  lemma {:induction false} ReachesStep(nodes: seq<Node>, from: string, mid: string, to: string)
    requires Reaches(nodes, from, mid) && IsParent(nodes, mid, to)
    ensures Reaches(nodes, from, to)
  {
    var path :| IsPath(nodes, path) && path[0] == from && path[|path| - 1] == mid;
    var longer := path + [to];
    assert forall i :: 0 <= i < |longer| - 1 ==> IsParent(nodes, longer[i], longer[i + 1]);
    assert IsPath(nodes, longer) && longer[0] == from && longer[|longer| - 1] == to;
  }

  /** A set that holds the start and is closed under parents holds everything reachable. */
  lemma {:induction false} ClosedHoldsReachable(nodes: seq<Node>, start: string, closed: set<string>)
    requires start in closed
    requires forall x, y :: x in closed && IsParent(nodes, x, y) ==> y in closed
    ensures forall x :: Reaches(nodes, start, x) ==> x in closed
  {
    forall x | Reaches(nodes, start, x)
      ensures x in closed
    {
      var path :| IsPath(nodes, path) && path[0] == start && path[|path| - 1] == x;
      PathStaysIn(nodes, path, closed, |path| - 1);
    }
  }

  lemma {:induction false} PathStaysIn(nodes: seq<Node>, path: seq<string>, closed: set<string>, k: nat)
    requires IsPath(nodes, path) && k < |path| && path[0] in closed
    requires forall x, y :: x in closed && IsParent(nodes, x, y) ==> y in closed
    ensures path[k] in closed
  {
    if k > 0 {
      PathStaysIn(nodes, path, closed, k - 1);
      assert IsParent(nodes, path[k - 1], path[k]);
    }
  }

  ghost predicate WalkState(nodes: seq<Node>, id: string, seen: set<string>, stack: seq<string>, out: seq<Node>) {
    && seen == Ids(out) && DistinctIds(out)
    && (forall n :: n in out ==> FindNode(nodes, n.id) == Some(n))
    && (forall x :: x in seen || x in stack ==> Reaches(nodes, id, x))
    && (forall x, y :: x in seen && IsParent(nodes, x, y) ==> y in seen || y in stack)
    && (if out == [] then stack == [id] else out[0].id == id)
  }

  lemma {:induction false} WalkVisit(nodes: seq<Node>, id: string, seen: set<string>, stack: seq<string>, out: seq<Node>, node: Node)
    requires stack != [] && WalkState(nodes, id, seen, stack, out)
    requires var cur := stack[|stack| - 1]; cur !in seen && FindNode(nodes, cur) == Some(node)
    ensures WalkState(nodes, id, seen + {node.id}, stack[..|stack| - 1] + node.parents, out + [node])
  {
    hide Reaches, IsPath, FindNode;
    var cur := stack[|stack| - 1];
    var rest, stack', out', seen' := stack[..|stack| - 1], stack[..|stack| - 1] + node.parents, out + [node], seen + {cur};
    assert forall x :: x in stack <==> x in rest || x == cur;
    assert forall x :: x in stack' <==> x in rest || x in node.parents;
    assert Ids(out') == seen' by {
      assert forall i :: 0 <= i < |out| ==> out'[i] == out[i];
      assert out'[|out|] == node;
    }
    forall x | x in stack'
      ensures Reaches(nodes, id, x)
    {
      if x in node.parents {
        ReachesStep(nodes, id, cur, x);
      }
    }
    forall x, y | x in seen' && IsParent(nodes, x, y)
      ensures y in seen' || y in stack'
    {
      if x != cur {
        assert y in seen || y in stack;
      }
    }
    assert DistinctIds(out') by {
      assert forall i :: 0 <= i < |out| ==> out[i].id in seen;
    }
  }

  lemma {:induction false} WalkSkip(nodes: seq<Node>, id: string, seen: set<string>, stack: seq<string>, out: seq<Node>)
    requires stack != [] && WalkState(nodes, id, seen, stack, out) && stack[|stack| - 1] in seen
    ensures WalkState(nodes, id, seen, stack[..|stack| - 1], out)
  {
    var rest := stack[..|stack| - 1];
    assert stack == rest + [stack[|stack| - 1]];
    assert out != [];
  }

  /** `walk_ancestors`: on any node list at all, cyclic ones included, the walk ends; it lists each
      ancestor once with `id` first, and gives up exactly when some reachable id has no node. */
  method WalkAncestors(nodes: seq<Node>, id: string) returns (r: Option<seq<Node>>)
    ensures r.None? <==> exists x :: Reaches(nodes, id, x) && x !in Ids(nodes)
    ensures r.Some? ==> r.value != [] && r.value[0].id == id && DistinctIds(r.value)
    ensures r.Some? ==> forall n :: n in r.value ==> FindNode(nodes, n.id) == Some(n)
    ensures r.Some? ==> forall x :: x in Ids(r.value) <==> Reaches(nodes, id, x)
  {
    var out: seq<Node> := [];
    var seen: set<string> := {};
    var stack := [id];
    ReachesSelf(nodes, id);
    while stack != []
      invariant WalkState(nodes, id, seen, stack, out)
      decreases Ids(nodes) - seen, |stack|
    {
      var cur := stack[|stack| - 1];
      if cur in seen {
        WalkSkip(nodes, id, seen, stack, out);
        stack := stack[..|stack| - 1];
        continue;
      }
      var found := FindNode(nodes, cur);
      if found.None? {
        return None;
      }
      WalkVisit(nodes, id, seen, stack, out, found.value);
      assert cur in Ids(nodes) - seen;
      seen := seen + {cur};
      out := out + [found.value];
      stack := stack[..|stack| - 1] + found.value.parents;
    }
    ClosedHoldsReachable(nodes, id, seen);
    return Some(out);
  }

  // -------------------------------------------------------------------------
  // Append, load, save
  // -------------------------------------------------------------------------

  /** One line of the JSONL file, as far as the loader looks at it. */
  datatype Line = Blank | Malformed | Parsed(node: Node)

  /** The records of a file, each with its one-based line number. */
  function Numbered(lines: seq<Line>): seq<(nat, Node)> {
    if lines == [] then []
    else
      var k := |lines| - 1;
      Numbered(lines[..k]) + (if lines[k].Parsed? then [(k + 1, lines[k].node)] else [])
  }

  function Unnumbered(records: seq<(nat, Node)>): (nodes: seq<Node>)
    ensures |nodes| == |records| && forall i :: 0 <= i < |nodes| ==> nodes[i] == records[i].1
  {
    seq(|records|, i requires 0 <= i < |records| => records[i].1)
  }

  function Records(lines: seq<Line>): seq<Node> {
    Unnumbered(Numbered(lines))
  }

  /** What `save_to` writes: one record a line. */
  function SavedLines(nodes: seq<Node>): seq<Line> {
    seq(|nodes|, i requires 0 <= i < |nodes| => Parsed(nodes[i]))
  }

  /** Line `k` stops the first pass: it does not parse, or repeats an earlier id. */
  ghost predicate BadLine(lines: seq<Line>, k: nat)
    requires k < |lines|
  {
    lines[k].Malformed? || (lines[k].Parsed? && lines[k].node.id in Ids(Records(lines[..k])))
  }

  ghost predicate FirstBadLine(lines: seq<Line>, lineNo: nat) {
    && 1 <= lineNo <= |lines| && BadLine(lines, lineNo - 1)
    && forall k :: 0 <= k < lineNo - 1 ==> !BadLine(lines, k)
  }

  ghost predicate Readable(lines: seq<Line>) {
    forall k :: 0 <= k < |lines| ==> !BadLine(lines, k)
  }

  ghost predicate BadParents(node: Node, known: set<string>) {
    exists p :: p in node.parents && (p == node.id || p !in known)
  }

  predicate BadParent(node: Node, known: set<string>, m: nat)
    requires m < |node.parents|
  {
    node.parents[m] == node.id || node.parents[m] !in known
  }

  /** The fault reported for a record: that of its first bad parent. */
  ghost predicate ParentFault(node: Node, known: set<string>, fault: Fault) {
    exists m :: 0 <= m < |node.parents| && BadParent(node, known, m)
      && (forall j :: 0 <= j < m ==> !BadParent(node, known, j))
      && fault == if node.parents[m] == node.id then SelfParent(node.id) else Dangling(node.parents[m], node.id)
  }

  lemma {:induction false} RecordsStep(lines: seq<Line>, k: nat)
    requires k < |lines|
    ensures var more := if lines[k].Parsed? then [(k + 1, lines[k].node)] else [];
      && Numbered(lines[..k + 1]) == Numbered(lines[..k]) + more
      && Records(lines[..k + 1]) == Records(lines[..k]) + Unnumbered(more)
  {
    assert lines[..k + 1][..k] == lines[..k];
  }

  lemma {:induction false} OneRecord(lineNo: nat, node: Node)
    ensures Unnumbered([(lineNo, node)]) == [node]
  {
  }

  lemma {:induction false} IdsAppend(nodes: seq<Node>, node: Node)
    ensures Ids(nodes + [node]) == Ids(nodes) + {node.id}
    ensures DistinctIds(nodes) && node.id !in Ids(nodes) ==> DistinctIds(nodes + [node])
  {
    var longer := nodes + [node];
    assert longer[|nodes|] == node;
    assert forall i :: 0 <= i < |nodes| ==> longer[i] == nodes[i] && longer[i].id in Ids(nodes);
  }

  /** The first pass after `k` lines. */
  ghost predicate ReadState(lines: seq<Line>, k: nat, nodes: seq<(nat, Node)>, seen: set<string>)
    requires k <= |lines|
  {
    && nodes == Numbered(lines[..k])
    && seen == Ids(Records(lines[..k])) && DistinctIds(Records(lines[..k]))
    && forall j :: 0 <= j < k ==> !BadLine(lines, j)
  }

  lemma {:induction false} ReadStep(lines: seq<Line>, k: nat, nodes: seq<(nat, Node)>, seen: set<string>)
    requires k < |lines| && ReadState(lines, k, nodes, seen)
    ensures lines[k].Blank? ==> ReadState(lines, k + 1, nodes, seen)
    ensures lines[k].Malformed? || (lines[k].Parsed? && lines[k].node.id in seen) ==>
      FirstBadLine(lines, k + 1) && !Readable(lines)
    ensures lines[k].Parsed? && lines[k].node.id !in seen ==>
      ReadState(lines, k + 1, nodes + [(k + 1, lines[k].node)], seen + {lines[k].node.id})
  {
    hide Numbered, Records, Ids, DistinctIds;
    RecordsStep(lines, k);
    if lines[k].Parsed? {
      OneRecord(k + 1, lines[k].node);
      IdsAppend(Records(lines[..k]), lines[k].node);
    } else {
      assert Unnumbered([]) == [];
      assert Records(lines[..k]) + [] == Records(lines[..k]);
    }
    assert BadLine(lines, k) <==> lines[k].Malformed? || (lines[k].Parsed? && lines[k].node.id in seen);
  }

  /** The loader's first pass: parse each line, refuse a repeated id. */
  method ReadRecords(lines: seq<Line>) returns (r: Result<seq<(nat, Node)>>, seen: set<string>)
    ensures r.Ok? <==> Readable(lines)
    ensures r.Ok? ==> r.value == Numbered(lines) && seen == Ids(Records(lines)) && DistinctIds(Records(lines))
    ensures r.Err? ==> r.error.Corruption? && FirstBadLine(lines, r.error.line)
    ensures r.Err? ==> r.error.fault == match lines[r.error.line - 1] case Parsed(node) => Duplicate(node.id) case _ => InvalidJson
  {
    var nodes: seq<(nat, Node)> := [];
    seen := {};
    for idx := 0 to |lines|
      invariant ReadState(lines, idx, nodes, seen)
    {
      hide *;
      ReadStep(lines, idx, nodes, seen);
      match lines[idx] {
        case Blank =>
        case Malformed =>
          return Err(Corruption(idx + 1, InvalidJson)), seen;
        case Parsed(node) =>
          if node.id in seen {
            return Err(Corruption(idx + 1, Duplicate(node.id))), seen;
          }
          seen := seen + {node.id};
          nodes := nodes + [(idx + 1, node)];
      }
    }
    assert lines[..|lines|] == lines;
    r := Ok(nodes);
  }

  /** The loader's second pass: the first record with a self-referencing or dangling parent. */
  method FindBadParents(nodes: seq<(nat, Node)>, seen: set<string>) returns (r: Option<LineageError>, ghost at: nat)
    ensures r.None? ==> forall i :: 0 <= i < |nodes| ==> !BadParents(nodes[i].1, seen)
    ensures r.Some? ==> at < |nodes| && BadParents(nodes[at].1, seen)
                        && forall j :: 0 <= j < at ==> !BadParents(nodes[j].1, seen)
    ensures r.Some? ==> r.value.Corruption? && r.value.line == nodes[at].0 && ParentFault(nodes[at].1, seen, r.value.fault)
  {
    at := 0;
    for i := 0 to |nodes|
      invariant forall j :: 0 <= j < i ==> !BadParents(nodes[j].1, seen)
    {
      at := i;
      var node := nodes[i].1;
      for j := 0 to |node.parents|
        invariant forall m :: 0 <= m < j ==> !BadParent(node, seen, m)
      {
        var parent := node.parents[j];
        if parent == node.id || parent !in seen {
          assert parent in node.parents && BadParent(node, seen, j);
          assert BadParents(node, seen);
          var fault := if parent == node.id then SelfParent(node.id) else Dangling(parent, node.id);
          return Some(Corruption(nodes[i].0, fault)), i;
        }
      }
      GoodParents(node, seen);
    }
    r := None;
  }

  lemma {:induction false} GoodParents(node: Node, known: set<string>)
    requires forall m :: 0 <= m < |node.parents| ==> !BadParent(node, known, m)
    ensures !BadParents(node, known)
  {
    forall p | p in node.parents
      ensures p != node.id && p in known
    {
      var m :| 0 <= m < |node.parents| && node.parents[m] == p;
      assert !BadParent(node, known, m);
    }
  }

  /** `Lineage::load`: a file is accepted exactly when every line parses, no id repeats and every
      parent is another node of the file; a refusal names the first line at fault. */
  method Load(file: Option<seq<Line>>) returns (r: Result<seq<Node>>)
    ensures file.None? ==> r == Ok([])
    ensures file.Some? ==> (r.Ok? <==> Readable(file.value) && Loadable(Records(file.value)))
    ensures file.Some? && r.Ok? ==> r.value == Records(file.value)
    ensures file.Some? && r.Err? ==> r.error.Corruption?
    ensures file.Some? && r.Err? && !Readable(file.value) ==>
      && FirstBadLine(file.value, r.error.line)
      && r.error.fault == match file.value[r.error.line - 1] case Parsed(node) => Duplicate(node.id) case _ => InvalidJson
    ensures file.Some? && r.Err? && Readable(file.value) ==>
      var records, known := Numbered(file.value), Ids(Records(file.value));
      exists i :: 0 <= i < |records| && records[i].0 == r.error.line && ParentFault(records[i].1, known, r.error.fault)
                  && forall j :: 0 <= j < i ==> !BadParents(records[j].1, known)
  {
    if file.None? {
      return Ok([]);
    }
    var pass, seen := ReadRecords(file.value);
    if pass.Err? {
      return Err(pass.error);
    }
    var nodes := pass.value;
    var bad, at := FindBadParents(nodes, seen);
    if bad.Some? {
      assert Records(file.value)[at] == nodes[at].1;
      return Err(bad.value);
    }
    var out := Unnumbered(nodes);
    forall n | n in out
      ensures forall p :: p in n.parents ==> p in Ids(out) && p != n.id
    {
      var i :| 0 <= i < |out| && out[i] == n;
      assert !BadParents(nodes[i].1, seen);
    }
    return Ok(out);
  }

  lemma {:induction false} SavedRecords(nodes: seq<Node>)
    ensures Records(SavedLines(nodes)) == nodes
    ensures DistinctIds(nodes) ==> Readable(SavedLines(nodes))
  {
    var lines := SavedLines(nodes);
    forall k | 0 <= k <= |nodes|
      ensures Records(lines[..k]) == nodes[..k]
    {
      SavedPrefix(nodes, k);
    }
    assert lines[..|nodes|] == lines && nodes[..|nodes|] == nodes;
  }

  lemma {:induction false} SavedPrefix(nodes: seq<Node>, k: nat)
    requires k <= |nodes|
    ensures Records(SavedLines(nodes)[..k]) == nodes[..k]
  {
    if k > 0 {
      SavedPrefix(nodes, k - 1);
      RecordsStep(SavedLines(nodes), k - 1);
    }
  }

  lemma {:induction false} AppendOnlyIsLoadable(nodes: seq<Node>)
    requires AppendOnly(nodes)
    ensures Loadable(nodes)
  {
    forall n, p | n in nodes && p in n.parents
      ensures p in Ids(nodes) && p != n.id
    {
      var k :| 0 <= k < |nodes| && nodes[k] == n;
      assert p in Ids(nodes[..k]);
      var i :| 0 <= i < k && nodes[..k][i].id == p;
      assert nodes[i].id == p;
    }
  }

  /** What is saved can be loaded, and comes back as it was, exactly when it meets the loader's
      checks; by `AppendOnlyIsLoadable` every lineage built by appends does. */
  method SaveAndLoad(nodes: seq<Node>) returns (r: Result<seq<Node>>)
    ensures r.Ok? <==> Loadable(nodes)
    ensures r.Ok? ==> r.value == nodes
  {
    SavedRecords(nodes);
    r := Load(Some(SavedLines(nodes)));
  }

  /** Append-only lineages are acyclic: a path of parent links strictly descends in append order. */
  lemma {:induction false} PathDescends(nodes: seq<Node>, path: seq<string>, k: nat)
    requires AppendOnly(nodes) && IsPath(nodes, path) && 0 < k < |path|
    ensures exists i, j :: 0 <= j < i < |nodes| && nodes[i].id == path[0] && nodes[j].id == path[k]
  {
    assert IsParent(nodes, path[k - 1], path[k]);
    var i: nat;
    if k == 1 {
      i :| i < |nodes| && nodes[i] == FindNode(nodes, path[0]).value;
      ParentEarlier(nodes, i, path[1]);
    } else {
      PathDescends(nodes, path, k - 1);
      var i0, j :| 0 <= j < i0 < |nodes| && nodes[i0].id == path[0] && nodes[j].id == path[k - 1];
      FindDistinct(nodes, j);
      ParentEarlier(nodes, j, path[k]);
    }
  }

  lemma {:induction false} FindDistinct(nodes: seq<Node>, k: nat)
    requires DistinctIds(nodes) && k < |nodes|
    ensures FindNode(nodes, nodes[k].id) == Some(nodes[k])
  {
    var found := FindNode(nodes, nodes[k].id);
    assert nodes[k].id in Ids(nodes);
  }

  lemma {:induction false} ParentEarlier(nodes: seq<Node>, k: nat, p: string)
    requires AppendOnly(nodes) && k < |nodes| && p in nodes[k].parents
    ensures exists j :: 0 <= j < k && nodes[j].id == p
  {
    assert p in Ids(nodes[..k]);
    var j :| 0 <= j < k && nodes[..k][j].id == p;
    assert nodes[j].id == p;
  }

  lemma {:induction false} AppendOnlyIsAcyclic(nodes: seq<Node>, path: seq<string>)
    requires AppendOnly(nodes) && IsPath(nodes, path) && |path| > 1
    ensures path[0] != path[|path| - 1]
  {
    PathDescends(nodes, path, |path| - 1);
  }

  /** The loader is weaker than the appender: this two-node cycle is accepted. */
  lemma {:induction false} TwoCycleLoads()
    ensures var a, b := Node("a", ["b"], None, "", ""), Node("b", ["a"], None, "", "");
      Loadable([a, b]) && IsPath([a, b], ["a", "b", "a"])
  {
    var a, b := Node("a", ["b"], None, "", ""), Node("b", ["a"], None, "", "");
    var nodes := [a, b];
    assert nodes[0] == a && nodes[1] == b;
    assert "a" in Ids(nodes) && "b" in Ids(nodes);
    FindDistinct(nodes, 0);
    FindDistinct(nodes, 1);
    assert "b" in a.parents && "a" in b.parents;
  }

  // -------------------------------------------------------------------------
  // Which accepted files are acyclic
  // -------------------------------------------------------------------------

  ghost predicate Acyclic(nodes: seq<Node>) {
    forall path :: IsPath(nodes, path) && |path| > 1 ==> path[0] != path[|path| - 1]
  }

  ghost predicate IsReordering(nodes: seq<Node>, order: seq<Node>) {
    multiset(order) == multiset(nodes)
  }

  lemma {:induction false} SameIds(nodes: seq<Node>, order: seq<Node>)
    requires forall n :: n in nodes <==> n in order
    ensures Ids(nodes) == Ids(order)
  {
    forall id
      ensures id in Ids(nodes) <==> id in Ids(order)
    {
      if i :| 0 <= i < |nodes| && nodes[i].id == id {
        assert nodes[i] in order;
      }
      if i :| 0 <= i < |order| && order[i].id == id {
        assert order[i] in nodes;
      }
    }
  }

  lemma {:induction false} SameLookup(nodes: seq<Node>, order: seq<Node>, id: string)
    requires DistinctIds(nodes) && DistinctIds(order) && forall n :: n in nodes <==> n in order
    ensures FindNode(nodes, id) == FindNode(order, id)
  {
    SameIds(nodes, order);
    var found := FindNode(nodes, id);
    if found.Some? {
      var k :| 0 <= k < |order| && order[k] == found.value;
      FindDistinct(order, k);
    }
  }

  lemma {:induction false} ReorderedIsAcyclic(nodes: seq<Node>, order: seq<Node>)
    requires DistinctIds(nodes) && IsReordering(nodes, order) && AppendOnly(order)
    ensures Acyclic(nodes)
  {
    assert forall n :: n in nodes <==> n in multiset(nodes);
    assert forall n :: n in order <==> n in multiset(order);
    forall path | IsPath(nodes, path) && |path| > 1
      ensures path[0] != path[|path| - 1]
    {
      forall i | 0 <= i < |path| - 1
        ensures IsParent(order, path[i], path[i + 1])
      {
        assert IsParent(nodes, path[i], path[i + 1]);
        SameLookup(nodes, order, path[i]);
      }
      AppendOnlyIsAcyclic(order, path);
    }
  }

  /** Nobody's parent. */
  ghost predicate IsLeaf(nodes: seq<Node>, k: nat)
    requires k < |nodes|
  {
    forall n :: n in nodes ==> nodes[k].id !in n.parents
  }

  ghost predicate NoRepeats(path: seq<string>) {
    forall i, j :: 0 <= i < j < |path| ==> path[i] != path[j]
  }

  lemma {:induction false} PathFits(nodes: seq<Node>, path: seq<string>)
    requires NoRepeats(path) && forall i :: 0 <= i < |path| ==> path[i] in Ids(nodes)
    ensures |path| <= |nodes|
  {
    PathSize(path);
    IdsSize(nodes);
    var on := set i | 0 <= i < |path| :: path[i];
    assert on <= Ids(nodes);
    SubsetSize(on, Ids(nodes));
  }

  lemma {:induction false} PathSize(path: seq<string>)
    requires NoRepeats(path)
    ensures |(set i | 0 <= i < |path| :: path[i])| == |path|
  {
    if path != [] {
      var n := |path| - 1;
      var front := path[..n];
      PathSize(front);
      var before, all := set i | 0 <= i < |front| :: front[i], set i | 0 <= i < |path| :: path[i];
      assert path[n] !in before;
      forall x
        ensures x in all <==> x in before || x == path[n]
      {
        if x in before {
          var i :| 0 <= i < n && front[i] == x;
          assert path[i] == x;
        }
        if x in all {
          var i :| 0 <= i < |path| && path[i] == x;
          assert i < n ==> front[i] == x;
        }
      }
      assert all == before + {path[n]};
    }
  }

  lemma {:induction false} IdsSize(nodes: seq<Node>)
    ensures |Ids(nodes)| <= |nodes|
  {
    if nodes != [] {
      var n := |nodes| - 1;
      IdsSize(nodes[..n]);
      assert nodes == nodes[..n] + [nodes[n]];
      IdsAppend(nodes[..n], nodes[n]);
    }
  }

  lemma {:induction false} SubsetSize<T>(a: set<T>, b: set<T>)
    requires a <= b
    ensures |a| <= |b|
  {
    assert b == a + (b - a);
  }

  lemma {:induction false} PathSegment(nodes: seq<Node>, path: seq<string>, i: nat, j: nat)
    requires IsPath(nodes, path) && i < j <= |path|
    ensures IsPath(nodes, path[i..j])
  {
    var part := path[i..j];
    forall k | 0 <= k < |part| - 1
      ensures IsParent(nodes, part[k], part[k + 1])
    {
      assert IsParent(nodes, path[i + k], path[i + k + 1]);
    }
  }

  lemma {:induction false} ChildOf(nodes: seq<Node>, k: nat) returns (child: string)
    requires DistinctIds(nodes) && k < |nodes| && !IsLeaf(nodes, k)
    ensures child in Ids(nodes) && IsParent(nodes, child, nodes[k].id)
  {
    var c :| 0 <= c < |nodes| && nodes[k].id in nodes[c].parents;
    FindDistinct(nodes, c);
    child := nodes[c].id;
  }

  lemma {:induction false} NonEmpty(nodes: seq<Node>, path: seq<string>)
    requires IsPath(nodes, path)
    ensures path != []
  {
  }

  lemma {:induction false} Position(nodes: seq<Node>, id: string) returns (k: nat)
    requires id in Ids(nodes)
    ensures k < |nodes| && nodes[k].id == id
  {
    k :| 0 <= k < |nodes| && nodes[k].id == id;
  }

  /** A node that is somebody's parent has a child to walk back to; without cycles that ends. */
  lemma {:induction false} FindLeaf(nodes: seq<Node>, path: seq<string>) returns (k: nat)
    requires Loadable(nodes) && Acyclic(nodes) && IsPath(nodes, path) && NoRepeats(path)
    requires forall i :: 0 <= i < |path| ==> path[i] in Ids(nodes)
    ensures k < |nodes| && IsLeaf(nodes, k)
    decreases |nodes| - |path|
  {
    NonEmpty(nodes, path);
    k := Position(nodes, path[0]);
    if !IsLeaf(nodes, k) {
      var child := ChildOf(nodes, k);
      LongerPath(nodes, child, path);
      hide IsPath, NoRepeats, Acyclic, IsLeaf, Ids, IsParent;
      PathFits(nodes, [child] + path);
      k := FindLeaf(nodes, [child] + path);
    }
  }

  lemma {:induction false} LongerPath(nodes: seq<Node>, child: string, path: seq<string>)
    requires Acyclic(nodes) && IsPath(nodes, path) && NoRepeats(path) && IsParent(nodes, child, path[0])
    ensures IsPath(nodes, [child] + path) && NoRepeats([child] + path)
  {
    var longer := [child] + path;
    forall i | 0 <= i < |longer| - 1
      ensures IsParent(nodes, longer[i], longer[i + 1])
    {
      assert i > 0 ==> IsParent(nodes, path[i - 1], path[i]);
    }
    forall j | 0 < j < |longer|
      ensures longer[j] != child
    {
      PathSegment(nodes, longer, 0, j + 1);
      assert longer[0..j + 1][0] != longer[0..j + 1][j];
    }
  }

  function Drop(nodes: seq<Node>, k: nat): seq<Node>
    requires k < |nodes|
  {
    nodes[..k] + nodes[k + 1..]
  }

  lemma {:induction false} DropMembers(nodes: seq<Node>, k: nat)
    requires DistinctIds(nodes) && k < |nodes|
    ensures DistinctIds(Drop(nodes, k))
    ensures forall n :: n in Drop(nodes, k) <==> n in nodes && n.id != nodes[k].id
  {
    var rest := Drop(nodes, k);
    assert forall i :: 0 <= i < |rest| ==> rest[i] == nodes[if i < k then i else i + 1];
    forall n
      ensures n in rest <==> n in nodes && n.id != nodes[k].id
    {
      if n in nodes && n.id != nodes[k].id {
        var i :| 0 <= i < |nodes| && nodes[i] == n;
        assert rest[if i < k then i else i - 1] == n;
      }
    }
  }

  lemma {:induction false} DropMultiset(nodes: seq<Node>, k: nat)
    requires k < |nodes|
    ensures multiset(Drop(nodes, k)) + multiset{nodes[k]} == multiset(nodes)
  {
    assert nodes == nodes[..k] + [nodes[k]] + nodes[k + 1..];
  }

  lemma {:induction false} DropIds(nodes: seq<Node>, k: nat)
    requires DistinctIds(nodes) && k < |nodes|
    ensures Ids(Drop(nodes, k)) == Ids(nodes) - {nodes[k].id}
  {
    DropMembers(nodes, k);
    hide Drop, DistinctIds;
    var rest := Drop(nodes, k);
    forall id
      ensures id in Ids(rest) <==> id in Ids(nodes) && id != nodes[k].id
    {
      if i :| 0 <= i < |rest| && rest[i].id == id {
        assert rest[i] in nodes;
      }
      if i :| 0 <= i < |nodes| && nodes[i].id == id && id != nodes[k].id {
        assert nodes[i] in rest;
      }
    }
  }

  /** Without its leaf, an accepted acyclic file is one still. */
  lemma {:induction false} WithoutLeaf(nodes: seq<Node>, k: nat)
    requires Loadable(nodes) && Acyclic(nodes) && k < |nodes| && IsLeaf(nodes, k)
    ensures Loadable(Drop(nodes, k)) && Acyclic(Drop(nodes, k))
  {
    hide Drop, Ids, DistinctIds;
    var rest := Drop(nodes, k);
    DropMembers(nodes, k);
    DropIds(nodes, k);
    forall path | IsPath(rest, path) && |path| > 1
      ensures path[0] != path[|path| - 1]
    {
      forall i | 0 <= i < |path| - 1
        ensures IsParent(nodes, path[i], path[i + 1])
      {
        assert IsParent(rest, path[i], path[i + 1]);
        ParentKept(nodes, rest, path[i], path[i + 1]);
      }
    }
  }

  lemma {:induction false} ParentKept(nodes: seq<Node>, rest: seq<Node>, child: string, parent: string)
    requires DistinctIds(nodes) && IsParent(rest, child, parent) && forall n :: n in rest ==> n in nodes
    ensures IsParent(nodes, child, parent)
  {
    var j :| 0 <= j < |nodes| && nodes[j] == FindNode(rest, child).value;
    FindDistinct(nodes, j);
  }

  /** An accepted acyclic file can be put in append order: leaves last. */
  lemma {:induction false} AppendOrder(nodes: seq<Node>) returns (order: seq<Node>)
    requires Loadable(nodes) && Acyclic(nodes)
    ensures IsReordering(nodes, order) && AppendOnly(order)
    decreases |nodes|
  {
    if nodes == [] {
      order := [];
    } else {
      assert nodes[0].id in Ids(nodes) && IsPath(nodes, [nodes[0].id]);
      var k := FindLeaf(nodes, [nodes[0].id]);
      WithoutLeaf(nodes, k);
      DropMultiset(nodes, k);
      DropIds(nodes, k);
      var rest := Drop(nodes, k);
      var front := AppendOrder(rest);
      order := front + [nodes[k]];
      assert forall n :: n in rest <==> n in multiset(rest);
      assert forall n :: n in front <==> n in multiset(front);
      SameIds(rest, front);
      forall p | p in nodes[k].parents
        ensures p in Ids(front)
      {
        assert nodes[k] in nodes;
      }
      AppendKeeps(front, nodes[k]);
    }
  }

  /** An accepted file is acyclic exactly when it holds, in some order, a lineage built by appends. */
  lemma {:induction false} AcyclicExactly(nodes: seq<Node>)
    requires Loadable(nodes)
    ensures Acyclic(nodes) <==> exists order :: IsReordering(nodes, order) && AppendOnly(order)
  {
    hide Acyclic, AppendOnly, IsReordering;
    if Acyclic(nodes) {
      var order := AppendOrder(nodes);
    } else if order :| IsReordering(nodes, order) && AppendOnly(order) {
      ReorderedIsAcyclic(nodes, order);
    }
  }

  /** The lineage object. */
  class Lineage {
    var nodes: seq<Node>

    constructor ()
      ensures nodes == []
    {
      nodes := [];
    }

    /** `add_node`: refuse a known id, then refuse the first unknown parent, else append. */
    method AddNode(node: Node) returns (r: Result<()>)
      modifies this
      ensures r.Ok? <==> CanAppend(old(nodes), node)
      ensures nodes == if r.Ok? then old(nodes) + [node] else old(nodes)
      ensures r.Err? ==> r.error == if node.id in Ids(old(nodes)) then DuplicateId(node.id)
                                    else UnknownParent(FirstUnknown(old(nodes), node.parents), node.id)
    {
      var known := Ids(nodes);
      if node.id in known {
        return Err(DuplicateId(node.id));
      }
      for i := 0 to |node.parents|
        invariant nodes == old(nodes)
        invariant forall j :: 0 <= j < i ==> node.parents[j] in known
        invariant FirstUnknown(nodes, node.parents) == FirstUnknown(nodes, node.parents[i..])
      {
        if node.parents[i] !in known {
          return Err(UnknownParent(node.parents[i], node.id));
        }
        assert node.parents[i..][1..] == node.parents[i + 1..];
      }
      nodes := nodes + [node];
      return Ok(());
    }
  }

  ghost predicate CanAppend(nodes: seq<Node>, node: Node) {
    node.id !in Ids(nodes) && forall p :: p in node.parents ==> p in Ids(nodes)
  }

  ghost function FirstUnknown(nodes: seq<Node>, parents: seq<string>): string {
    if parents == [] then "" else if parents[0] !in Ids(nodes) then parents[0] else FirstUnknown(nodes, parents[1..])
  }

  /** When a parent is unknown, that is the first such one. */
  lemma {:induction false} FirstUnknownIs(nodes: seq<Node>, parents: seq<string>)
    requires exists p :: p in parents && p !in Ids(nodes)
    ensures exists i: nat :: UnknownAt(nodes, parents, i) && parents[i] == FirstUnknown(nodes, parents)
  {
    if parents[0] in Ids(nodes) {
      var rest := parents[1..];
      assert parents == [parents[0]] + rest;
      FirstUnknownIs(nodes, rest);
      var i: nat :| UnknownAt(nodes, rest, i) && rest[i] == FirstUnknown(nodes, rest);
      assert UnknownAt(nodes, parents, i + 1);
    } else {
      assert UnknownAt(nodes, parents, 0);
    }
  }

  /** The parent at `i` is unknown, and all before it are known. */
  ghost predicate UnknownAt(nodes: seq<Node>, parents: seq<string>, i: nat) {
    i < |parents| && parents[i] !in Ids(nodes) && forall j :: 0 <= j < i ==> parents[j] in Ids(nodes)
  }

  /** Whatever is appended, an append-only lineage stays one. */
  lemma {:induction false} AppendKeeps(nodes: seq<Node>, node: Node)
    requires AppendOnly(nodes) && CanAppend(nodes, node)
    ensures AppendOnly(nodes + [node])
  {
    IdsAppend(nodes, node);
    var longer := nodes + [node];
    forall k, p | 0 <= k < |longer| && p in longer[k].parents
      ensures p in Ids(longer[..k])
    {
      assert longer[..k] == if k < |nodes| then nodes[..k] else nodes;
    }
  }

  // -------------------------------------------------------------------------
  // Greedy selection
  // -------------------------------------------------------------------------

  datatype Ordering = Less | Equal | Greater

  function CompareText(s: string, t: string): Ordering {
    if LexLess(s, t) then Less else if LexLess(t, s) then Greater else Equal
  }

  /** `compare_fitness`. */
  function CompareFitness(a: Node, b: Node): Ordering {
    if a.fitness.None? || b.fitness.None? then Equal
    else if a.fitness.value < b.fitness.value then Less
    else if b.fitness.value < a.fitness.value then Greater
    else CompareText(b.createdAt, a.createdAt)
  }

  /** `Iterator::max_by`: on a tie the later element wins. */
  function MaxBy(nodes: seq<Node>): Option<Node> {
    if nodes == [] then None
    else
      var last := nodes[|nodes| - 1];
      var best := MaxBy(nodes[..|nodes| - 1]);
      if best.Some? && CompareFitness(best.value, last) == Greater then best else Some(last)
  }

  function ScoredNodes(nodes: seq<Node>): seq<Node> {
    if nodes == [] then []
    else
      var last := nodes[|nodes| - 1];
      ScoredNodes(nodes[..|nodes| - 1]) + (if last.fitness.Some? then [last] else [])
  }

  function Leaves(nodes: seq<Node>, parents: set<string>): seq<Node> {
    if nodes == [] then []
    else
      var last := nodes[|nodes| - 1];
      Leaves(nodes[..|nodes| - 1], parents) + (if last.id !in parents then [last] else [])
  }

  function ParentIds(nodes: seq<Node>): set<string> {
    set i, j | 0 <= i < |nodes| && 0 <= j < |nodes[i].parents| :: nodes[i].parents[j]
  }

  /** `best_parent`. */
  function BestParent(nodes: seq<Node>): Option<Node> {
    MaxBy(ScoredNodes(nodes))
  }

  /** `head`: the best among the leaves. */
  function Head(nodes: seq<Node>): Option<Node> {
    MaxBy(ScoredNodes(Leaves(nodes, ParentIds(nodes))))
  }

  /** `b` beats or ties with `n`: fitter, or as fit and not created later. */
  ghost predicate AtLeastAsGood(b: Node, n: Node)
    requires b.fitness.Some? && n.fitness.Some?
  {
    || n.fitness.value < b.fitness.value
    || (n.fitness.value == b.fitness.value && !LexLess(n.createdAt, b.createdAt))
  }

  lemma {:induction false} AtLeastAsGoodTransitive(a: Node, b: Node, c: Node)
    requires a.fitness.Some? && b.fitness.Some? && c.fitness.Some?
    requires AtLeastAsGood(a, b) && AtLeastAsGood(b, c)
    ensures AtLeastAsGood(a, c)
  {
    if a.fitness == b.fitness == c.fitness {
      LexNotAfter(a.createdAt, b.createdAt, c.createdAt);
    }
  }

  lemma {:induction false} MaxByIsBest(nodes: seq<Node>)
    requires forall n :: n in nodes ==> n.fitness.Some?
    ensures MaxBy(nodes).None? <==> nodes == []
    ensures MaxBy(nodes).Some? ==>
      var b := MaxBy(nodes).value; b in nodes && forall n :: n in nodes ==> AtLeastAsGood(b, n)
  {
    if nodes != [] {
      var rest, last := nodes[..|nodes| - 1], nodes[|nodes| - 1];
      MaxByIsBest(rest);
      var best := MaxBy(nodes).value;
      LexIrreflexive(best.createdAt);
      forall n | n in nodes
        ensures AtLeastAsGood(best, n)
      {
        if n in rest {
          var before := MaxBy(rest).value;
          if LexLess(last.createdAt, before.createdAt) {
            LexAsymmetric(last.createdAt, before.createdAt);
          }
          AtLeastAsGoodTransitive(best, before, n);
        }
      }
    }
  }

  lemma {:induction false} ScoredNodesExact(nodes: seq<Node>)
    ensures forall n :: n in ScoredNodes(nodes) <==> n in nodes && n.fitness.Some?
  {
    if nodes != [] {
      ScoredNodesExact(nodes[..|nodes| - 1]);
    }
  }

  lemma {:induction false} LeavesExact(nodes: seq<Node>, parents: set<string>)
    ensures forall n :: n in Leaves(nodes, parents) <==> n in nodes && n.id !in parents
  {
    if nodes != [] {
      LeavesExact(nodes[..|nodes| - 1], parents);
    }
  }

  /** `best_parent` is a scored node that no scored node beats; it is absent only when nothing is
      scored. */
  lemma {:induction false} BestParentIsBest(nodes: seq<Node>)
    ensures BestParent(nodes).None? <==> forall n :: n in nodes ==> n.fitness.None?
    ensures BestParent(nodes).Some? ==>
      var b := BestParent(nodes).value;
      && b in nodes && b.fitness.Some?
      && forall n :: n in nodes && n.fitness.Some? ==> AtLeastAsGood(b, n)
  {
    ScoredNodesExact(nodes);
    MaxByIsBest(ScoredNodes(nodes));
  }

  /** `b` beats `n`: fitter, or as fit and created earlier. */
  ghost predicate Beats(b: Node, n: Node)
    requires b.fitness.Some? && n.fitness.Some?
  {
    n.fitness.value < b.fitness.value || (n.fitness.value == b.fitness.value && LexLess(b.createdAt, n.createdAt))
  }

  /** The chosen node stands at `i`, and beats every scored node after it. */
  ghost predicate ChosenAt(nodes: seq<Node>, b: Node, i: nat) {
    && i < |nodes| && nodes[i] == b && b.fitness.Some?
    && forall j :: i < j < |nodes| && nodes[j].fitness.Some? ==> Beats(b, nodes[j])
  }

  lemma {:induction false} BestParentStep(front: seq<Node>, last: Node)
    ensures BestParent([]) == None
    ensures BestParent(front + [last]) ==
      if last.fitness.None? then BestParent(front)
      else if BestParent(front).Some? && CompareFitness(BestParent(front).value, last) == Greater then BestParent(front)
      else Some(last)
  {
    hide CompareFitness;
    assert (front + [last])[..|front|] == front;
    var scored := ScoredNodes(front);
    assert last.fitness.Some? ==> (scored + [last])[..|scored|] == scored;
    assert scored + [] == scored;
  }

  /** Of nodes that are as fit and created at one time, `best_parent` is the last in append order. */
  lemma {:induction false} BestParentIsLast(nodes: seq<Node>)
    requires BestParent(nodes).Some?
    ensures exists i: nat :: ChosenAt(nodes, BestParent(nodes).value, i)
  {
    hide BestParent, CompareFitness, Beats;
    var best := BestParent(nodes).value;
    if nodes == [] {
      BestParentStep([], best);
    } else {
      var n := |nodes| - 1;
      var front, last := nodes[..n], nodes[n];
      assert nodes == front + [last];
      BestParentStep(front, last);
      if last.fitness.Some? && BestParent(nodes) == Some(last) {
        assert ChosenAt(nodes, best, n);
      } else {
        BestParentIsLast(front);
        var i: nat :| ChosenAt(front, best, i);
        if last.fitness.Some? {
          GreaterBeats(best, last);
        }
        assert ChosenAt(nodes, best, i);
      }
    }
  }

  lemma {:induction false} GreaterBeats(b: Node, n: Node)
    requires b.fitness.Some? && n.fitness.Some? && CompareFitness(b, n) == Greater
    ensures Beats(b, n)
  {
  }

  /** `head` is the same choice made among the nodes that are nobody's parent. */
  lemma {:induction false} HeadIsBestLeaf(nodes: seq<Node>)
    ensures Head(nodes).None? <==> forall n :: n in nodes && n.id !in ParentIds(nodes) ==> n.fitness.None?
    ensures Head(nodes).Some? ==>
      var b := Head(nodes).value;
      && b in nodes && b.id !in ParentIds(nodes) && b.fitness.Some?
      && forall n :: n in nodes && n.id !in ParentIds(nodes) && n.fitness.Some? ==> AtLeastAsGood(b, n)
  {
    LeavesExact(nodes, ParentIds(nodes));
    ScoredNodesExact(Leaves(nodes, ParentIds(nodes)));
    MaxByIsBest(ScoredNodes(Leaves(nodes, ParentIds(nodes))));
  }
}
