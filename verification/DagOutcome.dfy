/** What a whole run amounts to, whatever the order in which its actions ended. */
module DagOutcome {
  import opened Graphs
  import opened Wrappers
  import opened DagGraph
  import opened DagState
  import opened DagSteps

  function PlanOf(nodes: seq<Node>, failFast: bool, run: string -> Outcome): Plan {
    Plan(DepsOf(nodes), map[], NodeMap(nodes), run, failFast)
  }

  /** A node whose own result keeps its dependents from running. */
  ghost predicate Culprit(p: Plan, n: string) {
    !HasAction(p, n) || (p.failFast && p.run(n).Raised?)
  }

  /** Something the node depends on, directly or not, is a culprit. */
  ghost predicate Blocked(p: Plan, n: string) {
    exists m :: Depends(p.deps, n, m) && Culprit(p, m)
  }

  /** The result of one node: its own unless it is blocked; a blocked node is skipped under
      `fail_fast` and has no result at all without it. */
  ghost predicate NodeSettled(p: Plan, results: map<string, NodeResult>, n: string)
    requires n in p.deps
  {
    if !Blocked(p, n) then n in results && results[n] == Own(p, n)
    else if p.failFast then
      n in results && results[n].Skipped? && results[n].reason in p.deps[n]
      && results[n].reason in results && !results[results[n].reason].Value?
    else n !in results
  }

  ghost predicate Settled(p: Plan, results: map<string, NodeResult>) {
    results.Keys <= p.deps.Keys && forall n :: n in p.deps ==> NodeSettled(p, results, n)
  }

  /** Exactly the nodes that ran were launched, each once and after all of its dependencies. */
  ghost predicate LaunchedInOrder(p: Plan, results: map<string, NodeResult>, log: seq<Launch>) {
    && (forall i, k :: 0 <= i < k < |log| ==> log[i].node != log[k].node)
    && (forall n :: (exists i :: 0 <= i < |log| && log[i].node == n) <==>
          n in results && (results[n].Value? || results[n].Failed?))
    && (forall i :: 0 <= i < |log| ==>
          log[i].node in p.deps && forall d :: d in p.deps[log[i].node] ==> d in log[i].settled)
  }

  lemma BlockedByDependency(p: Plan, n: string, d: string)
    requires n in p.deps && d in p.deps[n] && (Culprit(p, d) || Blocked(p, d))
    ensures Blocked(p, n)
  {
    EdgeDepends(p.deps, n, d);
    if !Culprit(p, d) {
      var m :| Depends(p.deps, d, m) && Culprit(p, m);
      DependsTransitive(p.deps, n, d, m);
    }
  }

  lemma BlockedHasDependency(p: Plan, n: string) returns (d: string)
    requires Blocked(p, n)
    ensures n in p.deps && d in p.deps[n] && (Culprit(p, d) || Blocked(p, d))
  {
    var m :| Depends(p.deps, n, m) && Culprit(p, m);
    d := DependsFirst(p.deps, n, m);
  }

  /** With both queues empty a node is settled if all of its dependencies are. */
  lemma SettledAfterDependencies(p: Plan, s: State, n: string)
    requires Quiet(p, s, {}) && s.ready == [] && s.inFlight == {} && n in p.deps
    requires forall d :: d in p.deps[n] ==> d in p.deps && NodeSettled(p, s.results, d)
    ensures NodeSettled(p, s.results, n)
  {
    if n in s.results {
      assert ResultSound(p, s.results, n);
      if s.results[n].Skipped? {
        var r := s.results[n].reason;
        BlockedByDependency(p, n, r);
      } else {
        assert Clear(p, s.results, n);
        if Blocked(p, n) {
          var d := BlockedHasDependency(p, n);
          assert false;
        }
      }
    } else {
      var j :| j in s.open[n];
      var d := p.deps[n][j];
      assert !Spreads(p, s.results, d);
      BlockedByDependency(p, n, d);
    }
  }

  lemma {:induction false} EmptyQueuesSettleAll(p: Plan, s: State, order: seq<string>)
    requires Quiet(p, s, {}) && s.ready == [] && s.inFlight == {} && Topological(p.deps, order)
    ensures Settled(p, s.results)
  {
    for i := 0 to |order|
      invariant forall k :: 0 <= k < i ==> NodeSettled(p, s.results, order[k])
    {
      forall d | d in p.deps[order[i]] ensures d in p.deps && NodeSettled(p, s.results, d) {
        assert d in order[..i];
      }
      SettledAfterDependencies(p, s, order[i]);
    }
  }

  lemma {:induction false} LogOfRun(p: Plan, q: Plan, s: State, log: seq<Launch>)
    requires LogSound(q, s, log) && s.inFlight == {} && p.deps == q.deps
    ensures LaunchedInOrder(p, s.results, log)
  {
    forall n ensures (exists i :: 0 <= i < |log| && log[i].node == n) <==>
      n in s.results && (s.results[n].Value? || s.results[n].Failed?)
    {
      assert Ran(s, n) <==> n in s.results && (s.results[n].Value? || s.results[n].Failed?);
    }
  }

  lemma {:induction false} RunIsSettled(p: Plan, slots: map<string, seq<Slot>>, s: State,
                                             log: seq<Launch>, order: seq<string>)
    requires Quiet(p.(slots := slots), s, {}) && LogSound(p.(slots := slots), s, log)
    requires s.ready == [] && s.inFlight == {} && Topological(p.deps, order)
    ensures Settled(p, s.results) && LaunchedInOrder(p, s.results, log)
  {
    hide Quiet, Settled, Topological, LogSound, LaunchedInOrder;
    EmptyQueuesSettleAll(p.(slots := slots), s, order);
    SlotsDoNotMatter(p, slots, s.results);
    LogOfRun(p, p.(slots := slots), s, log);
  }

  /** The slots play no part in what a run amounts to. */
  lemma SlotsDoNotMatter(p: Plan, slots: map<string, seq<Slot>>, results: map<string, NodeResult>)
    requires Settled(p.(slots := slots), results)
    ensures Settled(p, results)
  {
    var q := p.(slots := slots);
    forall n | n in p.deps ensures NodeSettled(p, results, n) {
      assert NodeSettled(q, results, n);
      assert Own(q, n) == Own(p, n);
      assert Blocked(q, n) <==> Blocked(p, n) by {
        forall m ensures Culprit(q, m) <==> Culprit(p, m) {}
      }
    }
  }

  // ---------------------------------------------------------------- read off the node list

  /** A dependency that keeps a node from running: it failed or has no action list, or has no result at all. */
  predicate HoldsBack(failFast: bool, results: map<string, NodeResult>, d: string) {
    d !in results || results[d].NoAction? || (failFast && !results[d].Value?)
  }

  /** How a node has to end, given how those it lists have ended. */
  ghost predicate EndsAsListed(node: Node, failFast: bool, run: string -> Outcome, results: map<string, NodeResult>) {
    node.id.Some? &&
    var id := node.id.value;
    if !(exists d :: Lists(node, d) && HoldsBack(failFast, results, d)) then
      id in results &&
      if node.action.None? then results[id] == NoAction
      else match run(id)
        case Returned(v) => results[id] == Value(v)
        case Raised(e) => results[id] == Failed(e)
    else if failFast then
      id in results && results[id].Skipped?
      && Lists(node, results[id].reason) && HoldsBack(failFast, results, results[id].reason)
    else id !in results
  }

  ghost predicate AllEndAsListed(nodes: seq<Node>, failFast: bool, run: string -> Outcome,
                                 results: map<string, NodeResult>) {
    && (forall i :: 0 <= i < |nodes| ==> EndsAsListed(nodes[i], failFast, run, results))
    && forall id :: id in results ==> IsNodeId(nodes, id)
  }

  /** Each action is launched once, if it has a result of its own, and after all its node lists. */
  ghost predicate LaunchedAsListed(nodes: seq<Node>, results: map<string, NodeResult>, log: seq<Launch>) {
    && (forall i, k :: 0 <= i < k < |log| ==> log[i].node != log[k].node)
    && (forall id :: (exists i :: 0 <= i < |log| && log[i].node == id) <==>
          id in results && (results[id].Value? || results[id].Failed?))
    && (forall i, k, d :: 0 <= i < |log| && 0 <= k < |nodes| ==>
          nodes[k].id == Some(log[i].node) && Lists(nodes[k], d) ==> d in log[i].settled)
  }

  /** In a settled run every node ended as the list says. */
  lemma SettledAsListed(nodes: seq<Node>, failFast: bool, run: string -> Outcome, results: map<string, NodeResult>)
    requires IdsSound(nodes) && DepsSound(nodes) && Settled(PlanOf(nodes, failFast, run), results)
    ensures AllEndAsListed(nodes, failFast, run, results)
  {
    ListedDeps(nodes);
    forall i | 0 <= i < |nodes| ensures EndsAsListed(nodes[i], failFast, run, results) {
      NodeAsListed(nodes, failFast, run, results, i);
    }
  }

  lemma NodeAsListed(nodes: seq<Node>, failFast: bool, run: string -> Outcome, results: map<string, NodeResult>, i: nat)
    requires IdsSound(nodes) && DepsSound(nodes) && Settled(PlanOf(nodes, failFast, run), results) && i < |nodes|
    ensures EndsAsListed(nodes[i], failFast, run, results)
  {
    hide DepsOf, NodeMap, Blocked, Culprit, HasAction;
    var p, node := PlanOf(nodes, failFast, run), nodes[i];
    var id := node.id.value;
    ListedDeps(nodes);
    assert NodeSettled(p, results, id);
    assert NodeDepsSound(nodes, node);
    OwnAsListed(nodes, failFast, run, i);
    forall d | Lists(node, d) ensures HoldsBack(failFast, results, d) <==> Culprit(p, d) || Blocked(p, d) {
      assert NodeSettled(p, results, d);
      HeldBackIff(p, results, d);
    }
    if Blocked(p, id) {
      var d := BlockedHasDependency(p, id);
    } else if d :| Lists(node, d) && HoldsBack(failFast, results, d) {
      BlockedByDependency(p, id, d);
    }
  }

  lemma HeldBackIff(p: Plan, results: map<string, NodeResult>, d: string)
    requires d in p.deps && NodeSettled(p, results, d)
    ensures HoldsBack(p.failFast, results, d) <==> Culprit(p, d) || Blocked(p, d)
  {
  }

  lemma OwnAsListed(nodes: seq<Node>, failFast: bool, run: string -> Outcome, i: nat)
    requires IdsSound(nodes) && i < |nodes|
    ensures var own, id := Own(PlanOf(nodes, failFast, run), nodes[i].id.value), nodes[i].id.value;
      if nodes[i].action.None? then own == NoAction
      else match run(id)
        case Returned(v) => own == Value(v)
        case Raised(e) => own == Failed(e)
  {
    NodeMapHolds(nodes);
  }

  lemma LogAsListed(nodes: seq<Node>, failFast: bool, run: string -> Outcome,
                    results: map<string, NodeResult>, log: seq<Launch>)
    requires IdsSound(nodes) && LaunchedInOrder(PlanOf(nodes, failFast, run), results, log)
    ensures LaunchedAsListed(nodes, results, log)
  {
    ListedDeps(nodes);
  }

  /** The order in which actions end decides nothing but which failed dependency a skip names. */
  lemma OrderDoesNotMatter(p: Plan, a: map<string, NodeResult>, b: map<string, NodeResult>)
    requires Settled(p, a) && Settled(p, b)
    ensures a.Keys == b.Keys
    ensures forall n :: n in a ==> a[n] == b[n] || (a[n].Skipped? && b[n].Skipped?)
  {
    forall n | n in p.deps
      ensures n in a <==> n in b
      ensures n in a ==> a[n] == b[n] || (a[n].Skipped? && b[n].Skipped?)
    {
      assert NodeSettled(p, a, n) && NodeSettled(p, b, n);
    }
  }

  /** The node ended as a failure of its own. */
  ghost predicate FailedItself(results: map<string, NodeResult>, n: string) {
    n in results && (results[n].Failed? || results[n].NoAction?)
  }

  /** Following the reasons of skips back ends at a failure. */
  lemma {:induction false} SkipTracesToFailure(p: Plan, results: map<string, NodeResult>, order: seq<string>, k: nat)
    returns (m: string)
    requires p.failFast && Settled(p, results) && Topological(p.deps, order)
    requires k < |order| && order[k] in results && results[order[k]].Skipped?
    ensures Depends(p.deps, order[k], m) && FailedItself(results, m)
  {
    var n := order[k];
    assert NodeSettled(p, results, n);
    m := results[n].reason;
    EdgeDepends(p.deps, n, m);
    if results[m].Skipped? {
      assert m in order[..k];
      var i :| 0 <= i < k && order[i] == m;
      var m' := SkipTracesToFailure(p, results, order, i);
      DependsTransitive(p.deps, n, m, m');
      m := m';
    }
  }

  /** Under `fail_fast` every node has a result, and it is a skip exactly if something the node
      depends on failed. */
  lemma {:induction false} SkippedIffDependencyFailed(p: Plan, results: map<string, NodeResult>,
                                                           order: seq<string>, n: string)
    requires p.failFast && Settled(p, results) && Topological(p.deps, order) && n in p.deps
    ensures n in results
    ensures results[n].Skipped? <==> exists m :: Depends(p.deps, n, m) && FailedItself(results, m)
  {
    assert NodeSettled(p, results, n);
    if results[n].Skipped? {
      var k :| 0 <= k < |order| && order[k] == n;
      var m := SkipTracesToFailure(p, results, order, k);
    }
    if m :| Depends(p.deps, n, m) && FailedItself(results, m) {
      assert NodeSettled(p, results, m);
      assert Culprit(p, m);
      assert Blocked(p, n);
    }
  }

  /** Every node ends with a result exactly if, without `fail_fast`, nothing depends on a node that
      lacks an action list. */
  lemma AllSettledIff(p: Plan, results: map<string, NodeResult>)
    requires Settled(p, results) && Closed(p.deps)
    ensures results.Keys == p.deps.Keys <==>
      p.failFast || forall n, d :: Edge(p.deps, n, d) ==> HasAction(p, d)
  {
    if p.failFast {
      forall n | n in p.deps ensures n in results { assert NodeSettled(p, results, n); }
    } else {
      forall n, d | Edge(p.deps, n, d) && !HasAction(p, d) ensures n !in results {
        EdgeDepends(p.deps, n, d);
        assert Culprit(p, d);
        assert Blocked(p, n) && NodeSettled(p, results, n);
      }
      forall n | n in p.deps && n !in results
        ensures exists x, d :: Edge(p.deps, x, d) && !HasAction(p, d)
      {
        assert NodeSettled(p, results, n);
        var m :| Depends(p.deps, n, m) && Culprit(p, m);
        var path :| Joins(p.deps, path, n, m);
        assert Step(p.deps, path, |path| - 2);
        assert Edge(p.deps, path[|path|-2], m);
      }
    }
  }

  /** The documentation has dependents run regardless without `fail_fast`; a node without an action
      list is the exception: its dependent never gets a result. */
  lemma DependentOfNoActionIsLost(run: string -> Outcome, results: map<string, NodeResult>)
    requires var nodes := [Node(Some("a"), None, Absent), Node(Some("b"), Some("act"), Listed(["a"]))];
      Settled(PlanOf(nodes, false, run), results)
    ensures "a" in results && "b" !in results
  {
    var a, b := Node(Some("a"), None, Absent), Node(Some("b"), Some("act"), Listed(["a"]));
    var nodes := [a, b];
    var p := PlanOf(nodes, false, run);
    assert nodes[..1] == [a] && [a][..0] == [];
    assert NodeMap([a]) == map["a" := a];
    assert NodeMap(nodes) == map["a" := a, "b" := b];
    assert p.deps["b"] == ["a"] && p.deps["a"] == [];
    EdgeDepends(p.deps, "b", "a");
    assert Culprit(p, "a");
    assert Blocked(p, "b") && NodeSettled(p, results, "b") && NodeSettled(p, results, "a");
    if Blocked(p, "a") {
      var d := BlockedHasDependency(p, "a");
      assert false;
    }
  }
}
