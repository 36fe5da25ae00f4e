/** `_DagRun` and `execute_action_dag`. */
module DagExecutor {
  import opened Collections
  import opened Graphs
  import opened Wrappers
  import opened DagGraph
  import opened DagBuilder
  import opened DagState
  import opened DagSteps
  import opened DagOutcome

  class DagRun {
    ghost const plan: Plan
    const graph: map<string, seq<string>>
    const nodeMap: map<string, Node>
    const failFast: bool
    const run: string -> Outcome
    var indegree: map<string, int>
    var results: map<string, NodeResult>
    var ready: seq<string>
    var inFlight: set<string>
    ghost var open: map<string, set<nat>>
    ghost var log: seq<Launch>

    ghost function View(): State reads this {
      State(indegree, results, ready, inFlight, open)
    }

    /** The fixed parts agree with the plan. */
    ghost predicate Planned() {
      && plan.nodes == nodeMap && plan.run == run && plan.failFast == failFast
      && nodeMap.Keys == plan.deps.Keys
      && Closed(plan.deps)
      && SameNames(graph, plan.slots)
      && OnlySlots(plan.deps, plan.slots, Full(plan.deps))
      && AllSlots(plan.deps, plan.slots, Full(plan.deps))
    }

    /** `self.indegree[node] -= 1`, on behalf of the slot `e`. */
    method Decrement(node: string, ghost e: Slot)
      requires node in indegree && e.node == node && node in open
      modifies `indegree, `open
      ensures View() == old(View()).(indegree := old(indegree)[node := old(indegree)[node] - 1],
                                     open := old(open)[node := old(open)[node] - {e.index}])
    {
      indegree := indegree[node := indegree[node] - 1];
      open := open[node := open[node] - {e.index}];
    }

    method MarkSkipped(dependent: string, reason: string)
      requires Planned() && failFast && Base(plan, View(), {})
      requires dependent in plan.deps && reason in plan.deps[dependent]
      requires reason in results && Blocking(plan, results[reason])
      requires dependent !in results ==> dependent !in ready && dependent !in inFlight
      modifies `indegree, `results, `open
      ensures Base(plan, View(), {}) && SkipsOnly(plan, old(View()), View())
      ensures dependent in results
      decreases plan.deps.Keys - results.Keys, 0
    {
      hide Base, SkipsOnly, MidSkip, ResultSound, SameNames, OnlySlots, AllSlots, Closed;
      ghost var s0 := View();
      if dependent in results {
        NothingSkipped(plan, s0);
        return;
      }
      results := results[dependent := Skipped(reason)];
      ghost var s1 := View();
      SettledKeepsBase(plan, s0, s1, dependent);
      var dependents := At(graph, dependent);
      NamesAgree(graph, plan.slots, dependent);
      MidSkipStart(plan, s0, s1, dependent);
      for i := 0 to |dependents|
        invariant Base(plan, View(), {})
        invariant Extends(s1.results, results)
        invariant MidSkip(plan, s0, s1, View(), dependent, i)
      {
        SkipOne(dependent, s0, s1, i, dependents[i]);
      }
      MidSkipEnd(plan, s0, s1, View(), dependent);
    }

    /** `_skip_dependents`; `s0` is the state before `node` got its result. */
    method SkipDependents(node: string, ghost s0: State)
      requires Planned() && failFast && Base(plan, s0, {}) && Base(plan, View(), {})
      requires node in plan.deps && node !in s0.results && node in results && Blocking(plan, results[node])
      requires View() == s0.(results := s0.results[node := results[node]])
      modifies `indegree, `results, `open
      ensures Base(plan, View(), {}) && Extends(old(results), results)
      ensures MidSkip(plan, s0, old(View()), View(), node, |At(plan.slots, node)|)
    {
      hide Base, SkipsOnly, MidSkip, ResultSound, SameNames, OnlySlots, AllSlots, Closed, Blocking;
      ghost var s1 := View();
      var dependents := At(graph, node);
      NamesAgree(graph, plan.slots, node);
      MidSkipStart(plan, s0, s1, node);
      for i := 0 to |dependents|
        invariant Base(plan, View(), {})
        invariant Extends(s1.results, results)
        invariant MidSkip(plan, s0, s1, View(), node, i)
      {
        SkipOne(node, s0, s1, i, dependents[i]);
      }
    }

    /** The body of both skipping loops: one dependent of `node` loses a count and is skipped. */
    method SkipOne(node: string, ghost s0: State, ghost s1: State, ghost i: nat, dependent: string)
      requires Planned() && failFast && Base(plan, s0, {}) && Base(plan, View(), {})
      requires node in plan.deps && node !in s0.results && node in s1.results && Blocking(plan, s1.results[node])
      requires Extends(s1.results, results) && MidSkip(plan, s0, s1, View(), node, i)
      requires i < |At(plan.slots, node)| && dependent == At(plan.slots, node)[i].node
      modifies `indegree, `results, `open
      ensures Base(plan, View(), {}) && Extends(s1.results, results)
      ensures MidSkip(plan, s0, s1, View(), node, i + 1)
      decreases plan.deps.Keys - results.Keys, 1
    {
      hide Base, SkipsOnly, MidSkip, ResultSound, SameNames, OnlySlots, AllSlots, Closed, Blocking;
      ghost var e := At(plan.slots, node)[i];
      ghost var s2 := View();
      MidSkipNext(plan, s0, s1, s2, node, i);
      Decrement(dependent, e);
      ghost var s3 := View();
      CloseKeepsBase(plan, s2, s3, e, {});
      MarkSkipped(dependent, node);
      MidSkipStep(plan, s0, s1, s2, s3, View(), node, i);
    }

    /** `submit`. */
    method Submit(node: string)
      requires Planned() && Quiet(plan, View(), {node}) && LogSound(plan, View(), log)
      modifies `indegree, `results, `open, `inFlight, `log
      ensures Quiet(plan, View(), {}) && LogSound(plan, View(), log)
      ensures Extends(old(results), results) && inFlight <= old(inFlight) + {node}
      ensures HasAction(plan, node) ==>
        && inFlight == old(inFlight) + {node} && results == old(results)
        && log == old(log) + [Launch(node, old(results).Keys)]
      ensures !HasAction(plan, node) ==> node in results && results[node] == NoAction && log == old(log)
    {
      hide Base, Quiet, Sound, MidSkip, LogSound, SameNames, OnlySlots, AllSlots, Closed, Blocking;
      ghost var s0 := View();
      QuietHand(plan, s0, node);
      if nodeMap[node].action.None? {
        results := results[node := NoAction];
        ghost var s1 := View();
        SettleKeepsBase(plan, s0, s1, node);
        if failFast {
          BlockingWhenFailFast(plan, NoAction);
          SkipDependents(node, s0);
          SkipsMakeQuiet(plan, s0, s1, View(), node);
        } else {
          KeptBackIsQuiet(plan, s0, s1, node);
        }
        OnlySkips(plan, s0, s1, View(), node);
        LogKept(plan, s0, View(), log, node);
      } else {
        inFlight := inFlight + {node};
        log := log + [Launch(node, results.Keys)];
        LaunchKeepsQuiet(plan, s0, View(), node);
        LogLaunched(plan, s0, View(), log[..|log|-1], node);
        assert log == log[..|log|-1] + [Launch(node, results.Keys)];
      }
    }

    /** `_complete`, for a node just taken out of `in_flight`. */
    method Complete(node: string, value: NodeResult, failed: bool)
      requires Planned() && Quiet(plan, View(), {node}) && HasAction(plan, node)
      requires value == Own(plan, node) && failed == value.Failed?
      modifies `indegree, `results, `open, `ready
      ensures Quiet(plan, View(), {})
      ensures Extends(old(results), results) && node in results && results[node] == value
      ensures forall n :: n in results && n !in old(results) && n != node ==> results[n].Skipped?
    {
      hide Base, Quiet, Sound, MidEither, SameNames, OnlySlots, AllSlots, Closed, Blocking, HasAction, Own;
      ghost var s0 := View();
      QuietHand(plan, s0, node);
      results := results[node := value];
      ghost var s1 := View();
      OwnBlocks(plan, node);
      MidEitherStart(plan, s0, s1, node);
      var dependents := At(graph, node);
      NamesAgree(graph, plan.slots, node);
      for i := 0 to |dependents|
        invariant MidEither(plan, s0, s1, View(), node, i)
      {
        CompleteOne(node, failed, s0, s1, i, dependents[i]);
      }
      MidEitherEnd(plan, s0, s1, View(), node);
    }

    /** The body of the loop of `_complete`. */
    method CompleteOne(node: string, failed: bool, ghost s0: State, ghost s1: State, ghost i: nat, dependent: string)
      requires Planned() && Sound(plan, s0, {node}) && s1 == s0.(results := s0.results[node := Own(plan, node)])
      requires (failed && failFast) == Blocking(plan, s1.results[node])
      requires MidEither(plan, s0, s1, View(), node, i)
      requires i < |At(plan.slots, node)| && dependent == At(plan.slots, node)[i].node
      modifies `indegree, `results, `open, `ready
      ensures MidEither(plan, s0, s1, View(), node, i + 1)
    {
      hide Base, Sound, MidSkip, MidPass, SameNames, OnlySlots, AllSlots, Closed, Blocking, Own;
      SettleKeepsBase(plan, s0, s1, node);
      MidEitherBase(plan, s0, node);
      if failed && failFast {
        SkipOne(node, s0, s1, i, dependent);
      } else {
        PassOne(node, s0, s1, i, dependent);
      }
    }

    /** The other branch of the loop of `_complete`: a dependent loses a count, and at zero is ready. */
    method PassOne(node: string, ghost s0: State, ghost s1: State, ghost i: nat, dependent: string)
      requires Planned() && Base(plan, s0, {node}) && node in s1.results && !Blocking(plan, s1.results[node])
      requires MidPass(plan, s0, s1, View(), node, i)
      requires i < |At(plan.slots, node)| && dependent == At(plan.slots, node)[i].node
      modifies `indegree, `open, `ready
      ensures MidPass(plan, s0, s1, View(), node, i + 1)
    {
      hide Base, Sound, MidPass, SameNames, OnlySlots, AllSlots, Closed, Blocking;
      ghost var e := At(plan.slots, node)[i];
      ghost var s2 := View();
      MidPassNext(plan, s0, s1, s2, node, i);
      Decrement(dependent, e);
      if indegree[dependent] == 0 && dependent !in results {
        ready := ready + [dependent];
      }
      MidPassStep(plan, s0, s1, s2, View(), node, i);
    }

    /** `drain_completed`: some of the running actions end, in any order. */
    method DrainCompleted()
      requires Planned() && Quiet(plan, View(), {}) && LogSound(plan, View(), log)
      requires inFlight != {}
      modifies `indegree, `results, `open, `ready, `inFlight
      ensures Quiet(plan, View(), {}) && LogSound(plan, View(), log)
      ensures Extends(old(results), results) && old(results).Keys < results.Keys
    {
      hide Base, Quiet, Sound, LogSound, SameNames, OnlySlots, AllSlots, Closed, Blocking, Extends;
      ghost var before := results;
      var done: set<string> :| done != {} && done <= inFlight;
      ghost var first := false;
      ExtendsSelf(results);
      while done != {}
        invariant Quiet(plan, View(), {}) && LogSound(plan, View(), log)
        invariant done <= inFlight && Extends(before, results)
        invariant first || done != {}
        invariant first ==> before.Keys < results.Keys
        decreases done
      {
        var node :| node in done;
        ghost var s0 := View();
        done := done - {node};
        FlightIsUnsettled(plan, s0, log, node);
        inFlight := inFlight - {node};
        LandKeepsQuiet(plan, s0, View(), node);
        ghost var s1 := View();
        match run(node) {
          case Returned(v) => Complete(node, Value(v), false);
          case Raised(e) => Complete(node, Failed(e), true);
        }
        LogLanded(plan, s0, View(), log, node);
        ExtendsTransitive(before, s0.results, results);
        first := true;
      }
    }

    /** The wiring `_build_graph` returned, and a run that has not started. */
    constructor (ghost plan: Plan, graph: map<string, seq<string>>, indegree: map<string, int>,
                 ids: seq<string>, nodeMap: map<string, Node>, failFast: bool, run: string -> Outcome)
      requires plan.nodes == nodeMap && plan.run == run && plan.failFast == failFast
      requires nodeMap.Keys == plan.deps.Keys && Closed(plan.deps)
      requires Wired(plan.deps, graph, plan.slots, indegree)
      requires Distinct(ids) && forall n :: n in ids <==> n in plan.deps
      ensures Planned() && this.plan == plan
      ensures Quiet(plan, View(), {}) && LogSound(plan, View(), log)
      ensures results == map[] && inFlight == {} && log == []
    {
      hide Quiet, Distinct, Closed, OnlySlots, AllSlots, SameNames, AllOpen;
      this.plan := plan;
      this.graph := graph;
      this.nodeMap := nodeMap;
      this.failFast := failFast;
      this.run := run;
      this.indegree := indegree;
      this.results := map[];
      this.inFlight := {};
      this.open := AllOpen(plan.deps);
      this.log := [];
      new;
      ready := ZeroCounts(ids, indegree);
      assert Full(plan.deps) == indegree;
      StartIsQuiet(plan, View(), ids);
    }
  }

  /** `execute_action_dag`. */
  method ExecuteActionDag(nodes: seq<Node>, failFast: bool, run: string -> Outcome)
    returns (r: Result<map<string, NodeResult>, DagError>, ghost log: seq<Launch>)
    ensures r.Success? <==> IdsSound(nodes) && DepsSound(nodes) && Acyclic(DepsOf(nodes))
    ensures r.Failure? ==> Justified(nodes, r.error)
    ensures r.Success? ==> Settled(PlanOf(nodes, failFast, run), r.value)
    ensures r.Success? ==> LaunchedInOrder(PlanOf(nodes, failFast, run), r.value, log)
    ensures r.Success? ==> AllEndAsListed(nodes, failFast, run, r.value) && LaunchedAsListed(nodes, r.value, log)
  {
    hide Quiet, LogSound, Settled, LaunchedInOrder, IdsSound, DepsSound, Justified, Acyclic, Topological,
      Wired, Distinct, Closed, Extends, AllEndAsListed, LaunchedAsListed, DepsAreListed;
    log := [];
    var built, ids;
    ghost var slots, order;
    built, ids, slots, order := BuildGraph(nodes);
    if built.Failure? {
      return Failure(built.error), log;
    }
    ghost var plan := PlanOf(nodes, failFast, run).(slots := slots);
    var state := new DagRun(plan, built.value.0, built.value.1, ids, NodeMap(nodes), failFast, run);
    while state.ready != [] || state.inFlight != {}
      invariant fresh(state) && state.Planned() && state.plan == plan
      invariant Quiet(plan, state.View(), {}) && LogSound(plan, state.View(), state.log)
      decreases plan.deps.Keys - state.results.Keys
    {
      ghost var before := state.results;
      SubmitAll(state);
      if state.inFlight == {} {
        break;
      }
      state.DrainCompleted();
      ResultsWithin(plan, state.View());
      LessLeft(plan.deps.Keys, before.Keys, state.results.Keys);
    }
    RunIsSettled(PlanOf(nodes, failFast, run), slots, state.View(), state.log, order);
    r := Success(state.results);
    log := state.log;
    SettledAsListed(nodes, failFast, run, r.value);
    LogAsListed(nodes, failFast, run, r.value, log);
  }

  /** The inner loop: everything ready is submitted. */
  method SubmitAll(state: DagRun)
    requires state.Planned() && Quiet(state.plan, state.View(), {})
    requires LogSound(state.plan, state.View(), state.log)
    modifies state
    ensures Quiet(state.plan, state.View(), {}) && LogSound(state.plan, state.View(), state.log)
    ensures state.ready == [] && old(state.results).Keys <= state.results.Keys
  {
    hide Quiet, LogSound, Extends;
    ExtendsSelf(state.results);
    while state.ready != []
      invariant Quiet(state.plan, state.View(), {}) && LogSound(state.plan, state.View(), state.log)
      invariant Extends(old(state.results), state.results)
      invariant old(state.results).Keys <= state.results.Keys
      decreases |state.ready|
    {
      ghost var s0 := state.View();
      var node := state.ready[0];
      state.ready := state.ready[1..];
      PopKeepsQuiet(state.plan, s0, state.View(), node);
      LogPopped(state.plan, s0, state.View(), state.log);
      state.Submit(node);
      ExtendsTransitive(old(state.results), s0.results, state.results);
    }
  }
}
