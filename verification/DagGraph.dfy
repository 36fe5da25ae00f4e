/** The static half of the DAG executor: reading the node list, wiring the graph, finding cycles. */
module DagGraph {
  import opened Graphs
  import opened Wrappers

  datatype DependsOn = Absent | Listed(ids: seq<string>) | NotAList

  /** A node as given. `id` is `None` when it is not a string, `action` when it is not a list. */
  datatype Node = Node(id: Option<string>, action: Option<string>, dependsOn: DependsOn)

  datatype DagError =
    | MissingId
    | DuplicateId(id: string)
    | DependsNotAList(id: string)
    | UnknownDependency(id: string, dependency: string)
    | SelfDependency(id: string)
    | CycleDetected

  predicate HasId(node: Node) {
    node.id.Some? && node.id.value != ""
  }

  function Wanted(node: Node): seq<string> {
    match node.dependsOn
    case Listed(ids) => ids
    case Absent => []
    case NotAList => []
  }

  ghost predicate IdsSound(nodes: seq<Node>) {
    && (forall i :: 0 <= i < |nodes| ==> nodes[i].id.Some? && nodes[i].id.value != "")
    && (forall i, j :: 0 <= i < j < |nodes| ==> nodes[i].id != nodes[j].id)
  }

  ghost predicate IsNodeId(nodes: seq<Node>, id: string) {
    exists i :: 0 <= i < |nodes| && nodes[i].id == Some(id)
  }

  /** The node's own entry names the dependency. */
  predicate Lists(node: Node, d: string) {
    node.dependsOn.Listed? && d in node.dependsOn.ids
  }

  ghost predicate NodeDepsSound(nodes: seq<Node>, node: Node) {
    && !node.dependsOn.NotAList?
    && forall d :: Lists(node, d) ==> IsNodeId(nodes, d) && node.id != Some(d)
  }

  ghost predicate DepsSound(nodes: seq<Node>) {
    forall i :: 0 <= i < |nodes| ==> NodeDepsSound(nodes, nodes[i])
  }

  /** What an error says is true of the node list. Ids are checked before dependencies. */
  ghost predicate Justified(nodes: seq<Node>, e: DagError) {
    match e
    case MissingId => exists n :: n in nodes && (n.id.None? || n.id == Some(""))
    case DuplicateId(id) =>
      exists i, j :: 0 <= i < j < |nodes| && nodes[i].id == nodes[j].id == Some(id)
    case DependsNotAList(id) =>
      IdsSound(nodes) && exists n :: n in nodes && n.id == Some(id) && n.dependsOn.NotAList?
    case UnknownDependency(id, d) =>
      && IdsSound(nodes) && !IsNodeId(nodes, d)
      && exists n :: n in nodes && n.id == Some(id) && Lists(n, d)
    case SelfDependency(id) =>
      IdsSound(nodes) && exists n :: n in nodes && n.id == Some(id) && Lists(n, id)
    case CycleDetected => IdsSound(nodes) && DepsSound(nodes) && !Acyclic(DepsOf(nodes))
  }

  /** The nodes by id; of two nodes with one id the later. */
  function NodeMap(nodes: seq<Node>): map<string, Node> {
    if nodes == [] then map[]
    else
      var last := nodes[|nodes|-1];
      var rest := NodeMap(nodes[..|nodes|-1]);
      if last.id.Some? then rest[last.id.value := last] else rest
  }

  function DepsOf(nodes: seq<Node>): Deps {
    var byId := NodeMap(nodes);
    map id | id in byId :: Wanted(byId[id])
  }

  /** The relation is just what the nodes list, entry by entry. */
  ghost predicate DepsAreListed(nodes: seq<Node>, deps: Deps) {
    forall i :: 0 <= i < |nodes| && nodes[i].id.Some? ==>
      var id := nodes[i].id.value;
      id in deps && deps[id] == if nodes[i].dependsOn.Listed? then nodes[i].dependsOn.ids else []
  }

  lemma {:induction false} ListedDeps(nodes: seq<Node>)
    requires IdsSound(nodes)
    ensures DepsAreListed(nodes, DepsOf(nodes)) && forall id :: id in DepsOf(nodes) <==> IsNodeId(nodes, id)
  {
    NodeMapHolds(nodes);
  }

  lemma {:induction false} NodeMapHolds(nodes: seq<Node>)
    requires IdsSound(nodes)
    ensures forall i :: 0 <= i < |nodes| ==>
      nodes[i].id.value in NodeMap(nodes) && NodeMap(nodes)[nodes[i].id.value] == nodes[i]
    ensures forall id :: id in NodeMap(nodes) <==> IsNodeId(nodes, id)
  {
    if nodes != [] {
      var rest := nodes[..|nodes|-1];
      NodeMapHolds(rest);
      forall id | IsNodeId(rest, id) ensures IsNodeId(nodes, id) {
        var i :| 0 <= i < |rest| && rest[i].id == Some(id);
        assert nodes[i].id == Some(id);
      }
      forall id | IsNodeId(nodes, id) ensures id in NodeMap(nodes) {
        var i :| 0 <= i < |nodes| && nodes[i].id == Some(id);
        if i < |rest| { assert rest[i].id == Some(id); }
      }
      forall i | 0 <= i < |nodes|
        ensures nodes[i].id.value in NodeMap(nodes) && NodeMap(nodes)[nodes[i].id.value] == nodes[i]
      {
        if i < |rest| { assert rest[i] == nodes[i]; }
      }
    }
  }

  // ---------------------------------------------------------------- edge slots

  /** One entry of one dependency list: the `index`-th dependency of `node`. */
  datatype Slot = Slot(node: string, index: nat)

  function At<T>(m: map<string, seq<T>>, d: string): seq<T> {
    if d in m then m[d] else []
  }

  ghost predicate IsSlot(deps: Deps, upto: map<string, int>, d: string, e: Slot) {
    e.node in deps && e.node in upto && e.index < upto[e.node] && e.index < |deps[e.node]|
    && deps[e.node][e.index] == d
  }

  /** `graph` lists the nodes of the slots. */
  ghost predicate SameNames(graph: map<string, seq<string>>, slots: map<string, seq<Slot>>) {
    forall d :: |At(graph, d)| == |At(slots, d)|
      && forall i :: 0 <= i < |At(slots, d)| ==> At(graph, d)[i] == At(slots, d)[i].node
  }

  ghost predicate OnlySlots(deps: Deps, slots: map<string, seq<Slot>>, upto: map<string, int>) {
    && (forall d, e :: e in At(slots, d) ==> IsSlot(deps, upto, d, e))
    && (forall d, i, k :: 0 <= i < k < |At(slots, d)| ==> At(slots, d)[i] != At(slots, d)[k])
  }

  ghost predicate AllSlots(deps: Deps, slots: map<string, seq<Slot>>, upto: map<string, int>) {
    forall d, e :: IsSlot(deps, upto, d, e) ==> e in At(slots, d)
  }

  /** `graph` lists under every id one dependent for each of the first `upto` slots that name it. */
  ghost predicate Linked(deps: Deps, graph: map<string, seq<string>>,
                         slots: map<string, seq<Slot>>, upto: map<string, int>) {
    SameNames(graph, slots) && OnlySlots(deps, slots, upto) && AllSlots(deps, slots, upto)
  }

  /** All slots of all nodes are linked and counted. */
  ghost predicate Wired(deps: Deps, graph: map<string, seq<string>>,
                        slots: map<string, seq<Slot>>, indegree: map<string, int>) {
    && indegree.Keys == deps.Keys
    && (forall n :: n in deps ==> indegree[n] == |deps[n]|)
    && Linked(deps, graph, slots, indegree)
  }

  lemma LinkOne(deps: Deps, graph: map<string, seq<string>>, slots: map<string, seq<Slot>>,
                upto: map<string, int>, n: string, d: string)
    requires upto.Keys == deps.Keys && Linked(deps, graph, slots, upto)
    requires n in deps && 0 <= upto[n] < |deps[n]| && deps[n][upto[n]] == d
    ensures Linked(deps, graph[d := At(graph, d) + [n]],
                   slots[d := At(slots, d) + [Slot(n, upto[n])]], upto[n := upto[n] + 1])
  {
    var e := Slot(n, upto[n]);
    var graph' := graph[d := At(graph, d) + [n]];
    var slots' := slots[d := At(slots, d) + [e]];
    var upto' := upto[n := upto[n] + 1];
    assert SameNames(graph', slots') by {
      forall x
        ensures |At(graph', x)| == |At(slots', x)|
        ensures forall i :: 0 <= i < |At(slots', x)| ==> At(graph', x)[i] == At(slots', x)[i].node
      {
        assert |At(graph, x)| == |At(slots, x)|;
      }
    }
    assert e !in At(slots, d) by {
      assert e in At(slots, d) ==> IsSlot(deps, upto, d, e);
    }
    assert OnlySlots(deps, slots', upto') by {
      forall x, f | f in At(slots', x) ensures IsSlot(deps, upto', x, f) {
        if f in At(slots, x) { assert IsSlot(deps, upto, x, f); }
      }
      forall x, i, k | 0 <= i < k < |At(slots', x)| ensures At(slots', x)[i] != At(slots', x)[k] {
        if x != d {
          assert At(slots', x) == At(slots, x);
        } else if k == |At(slots, d)| {
          assert At(slots', x)[i] == At(slots, d)[i];
        } else {
          assert At(slots, x)[i] != At(slots, x)[k];
        }
      }
    }
    assert AllSlots(deps, slots', upto') by {
      forall x, f | IsSlot(deps, upto', x, f) ensures f in At(slots', x) {
        if f == e {
          assert x == d && At(slots', d)[|At(slots, d)|] == e;
        } else {
          assert IsSlot(deps, upto, x, f);
        }
      }
    }
  }

  // ---------------------------------------------------------------- countdown

  /** The slots of every node that still count: `indegree` is their number. */
  ghost predicate Counted(deps: Deps, indegree: map<string, int>, open: map<string, set<nat>>) {
    && indegree.Keys == deps.Keys == open.Keys
    && (forall n :: n in deps ==> indegree[n] == |open[n]|)
    && (forall n, j :: n in deps && j in open[n] ==> j < |deps[n]|)
  }

  ghost function UpTo(n: nat): (r: set<nat>)
    ensures |r| == n && forall j: nat :: j in r <==> j < n
  {
    if n == 0 then {} else UpTo(n - 1) + {n - 1}
  }

  ghost function AllOpen(deps: Deps): map<string, set<nat>> {
    map n | n in deps :: UpTo(|deps[n]|)
  }

  lemma AllOpenHolds(deps: Deps)
    ensures AllOpen(deps).Keys == deps.Keys
    ensures forall n :: n in deps ==> |AllOpen(deps)[n]| == |deps[n]|
    ensures forall n, j: nat :: n in deps ==> (j in AllOpen(deps)[n] <==> j < |deps[n]|)
  {
  }

  /** Slot `j` of `n` is open until its dependency is in `done`, or among the first `i` slots of `cur`. */
  ghost predicate OpenBut(deps: Deps, slots: map<string, seq<Slot>>, open: map<string, set<nat>>,
                          done: set<string>, cur: string, i: nat)
    requires i <= |At(slots, cur)| && open.Keys == deps.Keys
  {
    forall n, j: nat :: n in deps && j < |deps[n]| ==>
      (j in open[n] <==> deps[n][j] !in done && Slot(n, j) !in At(slots, cur)[..i])
  }

  ghost predicate OpenUntil(deps: Deps, open: map<string, set<nat>>, done: set<string>)
    requires open.Keys == deps.Keys
  {
    forall n, j: nat :: n in deps && j < |deps[n]| ==> (j in open[n] <==> deps[n][j] !in done)
  }

  /** The order lists every node once, after all of its dependencies. */
  ghost predicate Topological(deps: Deps, order: seq<string>) {
    && (forall n :: n in order <==> n in deps)
    && (forall i, j :: 0 <= i < j < |order| ==> order[i] != order[j])
    && DependenciesFirst(deps, order)
  }

  ghost predicate DependenciesFirst(deps: Deps, order: seq<string>) {
    forall i :: 0 <= i < |order| ==>
      order[i] in deps && forall d :: d in deps[order[i]] ==> d in order[..i]
  }

  lemma TopologicalIsAcyclic(deps: Deps, order: seq<string>)
    requires Topological(deps, order)
    ensures Acyclic(deps)
  {
    var rank: map<string, int> := map i | 0 <= i < |order| :: order[i] := i;
    forall a, b | Edge(deps, a, b) ensures a in rank && b in rank && rank[b] < rank[a] {
      var i :| 0 <= i < |order| && order[i] == a;
      assert b in order[..i];
      var k :| 0 <= k < i && order[k] == b;
      assert rank[order[i]] == i && rank[order[k]] == k;
    }
    forall a | a in deps ensures a in rank {
      var i :| 0 <= i < |order| && order[i] == a;
    }
    RankedIsAcyclic(deps, rank);
  }
}

/** `_build_graph` and `_detect_cycle`. */
module DagBuilder {
  import opened Collections
  import opened Graphs
  import opened Wrappers
  import opened DagGraph

  ghost function Elements(s: seq<string>): set<string> {
    set x | x in s
  }

  lemma {:induction false} DistinctSize(s: seq<string>)
    requires Distinct(s)
    ensures |Elements(s)| == |s|
  {
    if s != [] {
      var rest := s[..|s|-1];
      DistinctSize(rest);
      assert s == rest + [s[|s|-1]];
      assert Elements(s) == Elements(rest) + {s[|s|-1]};
    }
  }

  /** The nodes that have no open slot left are the visited ones and, once each, the queued. */
  ghost predicate Frontier(deps: Deps, indegree: map<string, int>, open: map<string, set<nat>>,
                           done: set<string>, queue: seq<string>) {
    && Counted(deps, indegree, open)
    && Distinct(queue)
    && (forall n :: n in queue ==> n in deps && open[n] == {} && n !in done)
    && (forall n :: n in done ==> n in deps && open[n] == {})
    && (forall n :: n in deps && open[n] == {} ==> n in done || n in queue)
  }

  /** Closing one slot lets its node join the frontier exactly when the count reaches zero. */
  lemma FrontierStep(deps: Deps, indegree: map<string, int>, open: map<string, set<nat>>,
                     done: set<string>, queue: seq<string>, e: Slot)
    requires Frontier(deps, indegree, open, done, queue)
    requires e.node in deps && e.index in open[e.node]
    ensures Frontier(deps, indegree[e.node := indegree[e.node] - 1],
                     open[e.node := open[e.node] - {e.index}], done,
                     if indegree[e.node] == 1 then queue + [e.node] else queue)
  {
    var left := open[e.node] - {e.index};
    assert |left| == |open[e.node]| - 1;
    assert e.node !in queue && e.node !in done;
  }

  /** Slot `i` of `cur` is still open when its turn comes. */
  lemma NextSlotIsOpen(deps: Deps, slots: map<string, seq<Slot>>, upto: map<string, int>,
                       open: map<string, set<nat>>, done: set<string>, cur: string, i: nat)
    requires OnlySlots(deps, slots, upto) && open.Keys == deps.Keys
    requires i < |At(slots, cur)| && cur !in done
    requires OpenBut(deps, slots, open, done, cur, i)
    ensures At(slots, cur)[i].node in deps
    ensures At(slots, cur)[i].index in open[At(slots, cur)[i].node]
    ensures var e := At(slots, cur)[i];
      OpenBut(deps, slots, open[e.node := open[e.node] - {e.index}], done, cur, i + 1)
  {
    var e := At(slots, cur)[i];
    assert e in At(slots, cur);
    assert IsSlot(deps, upto, cur, e);
    assert e !in At(slots, cur)[..i];
    assert At(slots, cur)[..i+1] == At(slots, cur)[..i] + [e];
  }

  /** Once all slots of `cur` are closed, `cur` is done. */
  lemma AllSlotsClosed(deps: Deps, slots: map<string, seq<Slot>>, upto: map<string, int>,
                       open: map<string, set<nat>>, done: set<string>, cur: string)
    requires OnlySlots(deps, slots, upto) && AllSlots(deps, slots, upto) && open.Keys == deps.Keys
    requires upto.Keys == deps.Keys && forall n :: n in deps ==> upto[n] == |deps[n]|
    requires OpenBut(deps, slots, open, done, cur, |At(slots, cur)|)
    ensures OpenUntil(deps, open, done + {cur})
  {
    assert At(slots, cur)[..|At(slots, cur)|] == At(slots, cur);
    forall n, j: nat | n in deps && j < |deps[n]|
      ensures Slot(n, j) in At(slots, cur) <==> deps[n][j] == cur
    {
      if Slot(n, j) in At(slots, cur) { assert IsSlot(deps, upto, cur, Slot(n, j)); }
      if deps[n][j] == cur { assert IsSlot(deps, upto, cur, Slot(n, j)); }
    }
  }

  /** When the queue runs dry, the nodes left over wait for each other. */
  lemma LeftoversAreCyclic(deps: Deps, slots: map<string, seq<Slot>>, indegree: map<string, int>,
                           open: map<string, set<nat>>, done: set<string>)
    requires Closed(deps) && Frontier(deps, indegree, open, done, [])
    requires OpenUntil(deps, open, done)
    requires done != deps.Keys
    ensures !Acyclic(deps)
  {
    var left := deps.Keys - done;
    var n0 :| n0 in deps.Keys && n0 !in done;
    assert n0 in left;
    forall n | n in left ensures HasEdgeInto(deps, n, left) {
      var j :| j in open[n];
      assert Edge(deps, n, deps[n][j]);
    }
    StuckNodesAreCyclic(deps, left);
  }

  /** Take `current` off the frontier: closing its slots brings its dependents closer. */
  method VisitDependents(ghost deps: Deps, graph: map<string, seq<string>>,
                         ghost slots: map<string, seq<Slot>>, ghost counts: map<string, int>,
                         ghost done: set<string>, current: string,
                         indegree0: map<string, int>, queue0: seq<string>,
                         ghost open0: map<string, set<nat>>)
    returns (indegree: map<string, int>, queue: seq<string>, ghost open: map<string, set<nat>>)
    requires Wired(deps, graph, slots, counts)
    requires Frontier(deps, indegree0, open0, done + {current}, queue0)
    requires current !in done && OpenUntil(deps, open0, done)
    ensures Frontier(deps, indegree, open, done + {current}, queue)
    ensures OpenUntil(deps, open, done + {current})
  {
    indegree, queue, open := indegree0, queue0, open0;
    var dependents := At(graph, current);
    assert |dependents| == |At(slots, current)|;
    assert At(slots, current)[..0] == [];
    for i := 0 to |dependents|
      invariant Frontier(deps, indegree, open, done + {current}, queue)
      invariant OpenBut(deps, slots, open, done, current, i)
    {
      ghost var e := At(slots, current)[i];
      NextSlotIsOpen(deps, slots, counts, open, done, current, i);
      FrontierStep(deps, indegree, open, done + {current}, queue, e);
      indegree := indegree[dependents[i] := indegree[dependents[i]] - 1];
      open := open[e.node := open[e.node] - {e.index}];
      if indegree[dependents[i]] == 0 {
        queue := queue + [dependents[i]];
      }
    }
    AllSlotsClosed(deps, slots, counts, open, done, current);
  }

  lemma TakeFirst(deps: Deps, indegree: map<string, int>, open: map<string, set<nat>>,
                  done: set<string>, queue: seq<string>)
    requires queue != [] && Frontier(deps, indegree, open, done, queue)
    ensures Frontier(deps, indegree, open, done + {queue[0]}, queue[1..])
  {
    var rest := queue[1..];
    assert queue == [queue[0]] + rest;
    assert forall n :: n in queue <==> n == queue[0] || n in rest;
  }

  /** The nodes of `done`, each once, in an order that puts dependencies first. */
  ghost predicate Visited(deps: Deps, done: set<string>, order: seq<string>) {
    && Distinct(order) && DependenciesFirst(deps, order)
    && |order| == |done| && forall n :: n in order <==> n in done
  }

  lemma VisitOne(deps: Deps, slots: map<string, seq<Slot>>, open: map<string, set<nat>>,
                 done: set<string>, order: seq<string>, current: string)
    requires open.Keys == deps.Keys && current in deps && open[current] == {}
    requires OpenUntil(deps, open, done)
    requires Visited(deps, done, order) && current !in done
    ensures Visited(deps, done + {current}, order + [current])
  {
    forall d | d in deps[current] ensures d in order {
      var j: nat :| j < |deps[current]| && deps[current][j] == d;
      assert j !in open[current];
    }
    var longer := order + [current];
    assert longer[..|order|] == order;
    assert forall i :: 0 <= i < |order| ==> longer[..i] == order[..i];
  }

  /** Where Kahn's algorithm stands: `done` visited in `order`, the frontier in `queue`. */
  ghost predicate Progress(deps: Deps, slots: map<string, seq<Slot>>, indegree: map<string, int>,
                           open: map<string, set<nat>>, done: set<string>, order: seq<string>,
                           queue: seq<string>) {
    && done <= deps.Keys && Visited(deps, done, order)
    && Frontier(deps, indegree, open, done, queue)
    && OpenUntil(deps, open, done)
  }

  /** One round of the loop of `_detect_cycle`. */
  method VisitNext(ghost deps: Deps, graph: map<string, seq<string>>,
                   ghost slots: map<string, seq<Slot>>, ghost counts: map<string, int>,
                   ghost done: set<string>, ghost order: seq<string>,
                   indegree0: map<string, int>, queue0: seq<string>, ghost open0: map<string, set<nat>>)
    returns (indegree: map<string, int>, queue: seq<string>, ghost open: map<string, set<nat>>)
    requires Wired(deps, graph, slots, counts)
    requires queue0 != [] && Progress(deps, slots, indegree0, open0, done, order, queue0)
    ensures queue0[0] in deps && queue0[0] !in done
    ensures Progress(deps, slots, indegree, open, done + {queue0[0]}, order + [queue0[0]], queue)
  {
    var current := queue0[0];
    VisitOne(deps, slots, open0, done, order, current);
    TakeFirst(deps, indegree0, open0, done, queue0);
    indegree, queue, open :=
      VisitDependents(deps, graph, slots, counts, done, current, indegree0, queue0[1..], open0);
  }

  lemma KahnStarts(deps: Deps, slots: map<string, seq<Slot>>, counts: map<string, int>,
                   queue: seq<string>)
    requires counts.Keys == deps.Keys && forall n :: n in deps ==> counts[n] == |deps[n]|
    requires Distinct(queue) && forall n :: n in queue <==> n in deps && counts[n] == 0
    ensures Progress(deps, slots, counts, AllOpen(deps), {}, [], queue)
  {
    hide AllOpen;
    AllOpenHolds(deps);
  }

  lemma {:induction false} KahnVerdict(deps: Deps, slots: map<string, seq<Slot>>, indegree: map<string, int>,
                    open: map<string, set<nat>>, done: set<string>, order: seq<string>)
    requires Closed(deps) && Progress(deps, slots, indegree, open, done, order, [])
    ensures Acyclic(deps) <==> |order| == |deps|
    ensures Acyclic(deps) ==> Topological(deps, order)
  {
    SubsetSize(done, deps.Keys);
    if done != deps.Keys {
      LeftoversAreCyclic(deps, slots, indegree, open, done);
    } else {
      TopologicalIsAcyclic(deps, order);
    }
  }

  method DetectCycle(ghost deps: Deps, ids: seq<string>, graph: map<string, seq<string>>,
                     counts: map<string, int>, ghost slots: map<string, seq<Slot>>)
    returns (cyclic: bool, ghost order: seq<string>)
    requires Closed(deps) && Wired(deps, graph, slots, counts)
    requires Distinct(ids) && |ids| == |deps| && forall n :: n in ids <==> n in deps
    ensures cyclic <==> !Acyclic(deps)
    ensures !cyclic ==> Topological(deps, order)
  {
    var indegree := counts;
    ghost var open := AllOpen(deps);
    var queue := ZeroCounts(ids, indegree);
    var visited := 0;
    order := [];
    ghost var done: set<string> := {};
    KahnStarts(deps, slots, counts, queue);
    while queue != []
      invariant visited == |order|
      invariant Progress(deps, slots, indegree, open, done, order, queue)
      decreases deps.Keys - done
    {
      var current := queue[0];
      visited := visited + 1;
      indegree, queue, open := VisitNext(deps, graph, slots, counts, done, order, indegree, queue, open);
      order := order + [current];
      done := done + {current};
    }
    cyclic := visited != |ids|;
    KahnVerdict(deps, slots, indegree, open, done, order);
  }

  /** The ids without a dependency, in the order of the node list. */
  method ZeroCounts(ids: seq<string>, indegree: map<string, int>) returns (queue: seq<string>)
    requires Distinct(ids) && forall n :: n in ids ==> n in indegree
    ensures Distinct(queue)
    ensures forall n :: n in queue <==> n in ids && indegree[n] == 0
  {
    queue := [];
    for i := 0 to |ids|
      invariant forall n :: n in queue <==> n in ids[..i] && indegree[n] == 0
      invariant Distinct(queue)
    {
      assert ids[i] !in ids[..i];
      if indegree[ids[i]] == 0 { queue := queue + [ids[i]]; }
    }
  }

  /** The first loop of `_build_graph`: every node has an id of its own. */
  method CollectIds(nodes: seq<Node>)
    returns (error: Option<DagError>, ids: seq<string>, indegree: map<string, int>)
    ensures error.None? <==> IdsSound(nodes)
    ensures error.Some? ==> (error.value.MissingId? || error.value.DuplicateId?) && Justified(nodes, error.value)
    ensures error.None? ==>
      && |ids| == |nodes| && Distinct(ids)
      && (forall k :: 0 <= k < |nodes| ==> nodes[k].id == Some(ids[k]))
      && (forall n :: n in ids <==> n in indegree)
      && (forall n :: n in indegree ==> indegree[n] == 0)
  {
    ids, indegree := [], map[];
    for i := 0 to |nodes|
      invariant IdsSound(nodes[..i])
      invariant |ids| == i && forall k :: 0 <= k < i ==> nodes[k].id == Some(ids[k])
      invariant Distinct(ids) && forall n :: n in ids <==> n in indegree
      invariant forall n :: n in indegree ==> indegree[n] == 0
    {
      if !HasId(nodes[i]) {
        return Some(MissingId), ids, indegree;
      }
      var id := nodes[i].id.value;
      if id in indegree {
        ghost var k :| 0 <= k < |ids| && ids[k] == id;
        assert nodes[k].id == nodes[i].id == Some(id);
        return Some(DuplicateId(id)), ids, indegree;
      }
      ids := ids + [id];
      indegree := indegree[id := 0];
    }
    assert nodes[..|nodes|] == nodes;
    error := None;
  }

  /** One round of the second loop: link the dependencies of the node `id`. */
  method LinkNode(ghost nodes: seq<Node>, node: Node, id: string, ghost deps: Deps,
                  graph0: map<string, seq<string>>, indegree0: map<string, int>,
                  ghost slots0: map<string, seq<Slot>>)
    returns (error: Option<DagError>, graph: map<string, seq<string>>, indegree: map<string, int>,
             ghost slots: map<string, seq<Slot>>)
    requires IdsSound(nodes) && node in nodes && node.id == Some(id) && id in deps
    requires deps[id] == Wanted(node) && forall n :: n in deps <==> IsNodeId(nodes, n)
    requires indegree0.Keys == deps.Keys && indegree0[id] == 0
    requires Linked(deps, graph0, slots0, indegree0)
    ensures error.None? <==> NodeDepsSound(nodes, node)
    ensures error.Some? ==> Justified(nodes, error.value)
    ensures error.None? ==>
      indegree == indegree0[id := |deps[id]|] && Linked(deps, graph, slots, indegree)
  {
    hide IdsSound, Linked;
    error, graph, indegree, slots := None, graph0, indegree0, slots0;
    if node.dependsOn.NotAList? {
      return Some(DependsNotAList(id)), graph, indegree, slots;
    }
    var wanted := Wanted(node);
    for j := 0 to |wanted|
      invariant indegree == indegree0[id := j]
      invariant Linked(deps, graph, slots, indegree)
      invariant forall d :: d in wanted[..j] ==> IsNodeId(nodes, d) && d != id
    {
      var d := wanted[j];
      if d !in indegree {
        return Some(UnknownDependency(id, d)), graph, indegree, slots;
      }
      if d == id {
        return Some(SelfDependency(id)), graph, indegree, slots;
      }
      LinkOne(deps, graph, slots, indegree, id, d);
      slots := slots[d := At(slots, d) + [Slot(id, j)]];
      graph := graph[d := At(graph, d) + [id]];
      indegree := indegree[id := indegree[id] + 1];
    }
    assert wanted[..|wanted|] == wanted;
  }

  lemma NothingLinked(deps: Deps, upto: map<string, int>)
    requires upto.Keys == deps.Keys && forall n :: n in upto ==> upto[n] == 0
    ensures Linked(deps, map[], map[], upto)
  {
    forall d, e ensures !IsSlot(deps, upto, d, e) {}
  }

  /** The second loop of `_build_graph`. */
  method LinkAll(nodes: seq<Node>, ids: seq<string>, ghost deps: Deps, indegree0: map<string, int>)
    returns (error: Option<DagError>, graph: map<string, seq<string>>, indegree: map<string, int>,
             ghost slots: map<string, seq<Slot>>)
    requires IdsSound(nodes) && |ids| == |nodes| && Distinct(ids)
    requires forall k :: 0 <= k < |nodes| ==>
      nodes[k].id == Some(ids[k]) && ids[k] in deps && deps[ids[k]] == Wanted(nodes[k])
    requires forall n :: n in deps <==> n in ids
    requires forall n :: n in deps <==> IsNodeId(nodes, n)
    requires indegree0.Keys == deps.Keys && forall n :: n in indegree0 ==> indegree0[n] == 0
    ensures error.None? <==> DepsSound(nodes)
    ensures error.Some? ==> Justified(nodes, error.value)
    ensures error.None? ==> Wired(deps, graph, slots, indegree)
  {
    hide IdsSound, Distinct, Elements, Linked, Justified, IsNodeId, NodeDepsSound, Wanted;
    error, graph, indegree, slots := None, map[], indegree0, map[];
    NothingLinked(deps, indegree);
    ElementsOf(ids);
    for i := 0 to |nodes|
      invariant error.None? && LinkedNodes(Elements(ids[..i]), deps, graph, indegree, slots)
      invariant forall k :: 0 <= k < i ==> NodeDepsSound(nodes, nodes[k])
    {
      NextElement(ids, i);
      error, graph, indegree, slots := LinkNode(nodes, nodes[i], ids[i], deps, graph, indegree, slots);
      if error.Some? {
        assert !NodeDepsSound(nodes, nodes[i]);
        return;
      }
    }
    assert ids[..|nodes|] == ids;
  }

  lemma ElementsOf(s: seq<string>)
    ensures Elements(s[..0]) == {}
    ensures forall x :: x in Elements(s) <==> x in s
  {
  }

  lemma NextElement(s: seq<string>, i: nat)
    requires Distinct(s) && i < |s|
    ensures s[i] !in Elements(s[..i])
    ensures Elements(s[..i+1]) == Elements(s[..i]) + {s[i]}
  {
    assert s[..i+1] == s[..i] + [s[i]];
  }

  /** The dependencies of the nodes `seen` are linked and counted, those of the others not yet. */
  ghost predicate LinkedNodes(seen: set<string>, deps: Deps, graph: map<string, seq<string>>,
                              indegree: map<string, int>, slots: map<string, seq<Slot>>) {
    && indegree.Keys == deps.Keys
    && (forall n :: n in deps ==> indegree[n] == if n in seen then |deps[n]| else 0)
    && Linked(deps, graph, slots, indegree)
  }

  /** `_build_graph`: the wiring of a node list without static errors, or the first error found. */
  method BuildGraph(nodes: seq<Node>)
    returns (r: Result<(map<string, seq<string>>, map<string, int>), DagError>,
             ids: seq<string>, ghost slots: map<string, seq<Slot>>, ghost order: seq<string>)
    ensures r.Success? <==> IdsSound(nodes) && DepsSound(nodes) && Acyclic(DepsOf(nodes))
    ensures r.Failure? ==> Justified(nodes, r.error)
    ensures r.Success? ==>
      && Wired(DepsOf(nodes), r.value.0, slots, r.value.1)
      && Topological(DepsOf(nodes), order)
      && Closed(DepsOf(nodes)) && DepsAreListed(nodes, DepsOf(nodes))
      && Distinct(ids) && forall n :: n in ids <==> n in DepsOf(nodes)
  {
    hide IdsSound, DepsSound, Wired, Topological, Acyclic, Closed, IsNodeId, DepsAreListed;
    slots, order := map[], [];
    var error, idList, indegree := CollectIds(nodes);
    ids := idList;
    if error.Some? {
      return Failure(error.value), ids, slots, order;
    }
    DepsOfHolds(nodes, ids);
    ListedDeps(nodes);
    var graph;
    error, graph, indegree, slots := LinkAll(nodes, ids, DepsOf(nodes), indegree);
    if error.Some? {
      return Failure(error.value), ids, slots, order;
    }
    ClosedDeps(nodes, ids);
    DistinctSize(ids);
    assert Elements(ids) == DepsOf(nodes).Keys;
    var cyclic: bool;
    cyclic, order := DetectCycle(DepsOf(nodes), ids, graph, indegree, slots);
    if cyclic {
      return Failure(CycleDetected), ids, slots, order;
    }
    r := Success((graph, indegree));
  }

  lemma DepsOfHolds(nodes: seq<Node>, ids: seq<string>)
    requires IdsSound(nodes) && |ids| == |nodes|
    requires forall k :: 0 <= k < |nodes| ==> nodes[k].id == Some(ids[k])
    ensures forall k :: 0 <= k < |nodes| ==> ids[k] in DepsOf(nodes) && DepsOf(nodes)[ids[k]] == Wanted(nodes[k])
    ensures forall n :: n in DepsOf(nodes) <==> n in ids
    ensures forall n :: n in DepsOf(nodes) <==> IsNodeId(nodes, n)
  {
    NodeMapHolds(nodes);
    forall n | n in DepsOf(nodes) ensures n in ids {
      var i :| 0 <= i < |nodes| && nodes[i].id == Some(n);
    }
  }

  lemma ClosedDeps(nodes: seq<Node>, ids: seq<string>)
    requires IdsSound(nodes) && |ids| == |nodes| && DepsSound(nodes)
    requires forall k :: 0 <= k < |nodes| ==> nodes[k].id == Some(ids[k])
    ensures Closed(DepsOf(nodes))
  {
    DepsOfHolds(nodes, ids);
    forall a, b | Edge(DepsOf(nodes), a, b) ensures b in DepsOf(nodes) {
      var k :| 0 <= k < |ids| && ids[k] == a;
      assert NodeDepsSound(nodes, nodes[k]);
    }
  }
}
