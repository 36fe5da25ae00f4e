/** What a run of the DAG executor must keep, stated on values. */
module DagState {
  import opened Collections
  import opened Graphs
  import opened DagGraph

  datatype Outcome = Returned(value: string) | Raised(error: string)

  datatype NodeResult =
    | Value(value: string)
    | Failed(error: string)
    | NoAction
    | Skipped(reason: string)

  /** What is fixed for a run: the graph, the nodes, what each action does, the failure rule. */
  datatype Plan = Plan(deps: Deps, slots: map<string, seq<Slot>>, nodes: map<string, Node>,
                       run: string -> Outcome, failFast: bool)

  /** The mutable state, and the slots still open. */
  datatype State = State(indegree: map<string, int>, results: map<string, NodeResult>,
                         ready: seq<string>, inFlight: set<string>, open: map<string, set<nat>>)

  /** An action handed to the pool, and the nodes that had a result at that moment. */
  datatype Launch = Launch(node: string, settled: set<string>)

  ghost predicate HasAction(p: Plan, n: string) {
    n in p.nodes && p.nodes[n].action.Some?
  }

  /** A result that keeps the dependents from running. */
  ghost predicate Blocking(p: Plan, r: NodeResult) {
    if p.failFast then !r.Value? else r.NoAction?
  }

  ghost predicate Clear(p: Plan, results: map<string, NodeResult>, n: string)
    requires n in p.deps
  {
    forall d :: d in p.deps[n] ==> d in results && !Blocking(p, results[d])
  }

  ghost predicate ResultSound(p: Plan, results: map<string, NodeResult>, n: string)
    requires n in p.deps && n in results
  {
    match results[n]
    case Skipped(r) => p.failFast && r in p.deps[n] && r in results && Blocking(p, results[r])
    case NoAction => !HasAction(p, n) && Clear(p, results, n)
    case Value(v) => HasAction(p, n) && p.run(n) == Returned(v) && Clear(p, results, n)
    case Failed(e) => HasAction(p, n) && p.run(n) == Raised(e) && Clear(p, results, n)
  }

  /** A slot is open at least until its dependency has a result. */
  ghost predicate KeptOpen(p: Plan, s: State) {
    forall n, j: nat :: n in p.deps && n in s.open && j < |p.deps[n]| && p.deps[n][j] !in s.results ==> j in s.open[n]
  }

  /** What waits to run has no open slot and no result. */
  ghost predicate QueuedClear(p: Plan, s: State, hand: set<string>) {
    forall n :: n in s.ready || n in s.inFlight || n in hand ==>
      n in p.deps && n !in s.results && n in s.open && s.open[n] == {}
  }

  ghost predicate ResultsSound(p: Plan, results: map<string, NodeResult>) {
    results.Keys <= p.deps.Keys && forall n :: n in results ==> ResultSound(p, results, n)
  }

  ghost predicate Base(p: Plan, s: State, hand: set<string>) {
    && Counted(p.deps, s.indegree, s.open) && KeptOpen(p, s) && QueuedClear(p, s, hand)
    && ResultsSound(p, s.results)
  }

  /** A node without a result and without an open slot is in a queue, or in flight, or in hand. */
  ghost predicate NoneForgotten(p: Plan, s: State, hand: set<string>) {
    forall n :: n in p.deps && n !in s.results && n in s.open && s.open[n] == {} ==>
      n in s.ready || n in s.inFlight || n in hand
  }

  ghost predicate OncePlaced(s: State, hand: set<string>) {
    && Distinct(s.ready)
    && (forall n :: n in s.ready ==> n !in s.inFlight && n !in hand)
    && s.inFlight !! hand
  }

  /** A closed slot of a node without a result stands for a dependency that lets it run. */
  ghost predicate ClosedLetsRun(p: Plan, s: State) {
    forall n, j: nat :: n in p.deps && n in s.open && n !in s.results && j < |p.deps[n]| && j !in s.open[n] ==>
      p.deps[n][j] in s.results && !Blocking(p, s.results[p.deps[n][j]])
  }

  /** The scheduling invariant; `hand` holds a node taken from a queue and not settled yet. */
  ghost predicate Sound(p: Plan, s: State, hand: set<string>) {
    Base(p, s, hand) && OncePlaced(s, hand) && NoneForgotten(p, s, hand) && ClosedLetsRun(p, s)
  }

  /** The result of `d` has reached its dependents. */
  ghost predicate Spreads(p: Plan, results: map<string, NodeResult>, d: string) {
    d in results && (p.failFast || !results[d].NoAction?)
  }

  /** Between two steps every result that spreads has closed its slots. */
  ghost predicate Quiet(p: Plan, s: State, hand: set<string>) {
    Sound(p, s, hand) && AllSpread(p, s)
  }

  ghost predicate AllSpread(p: Plan, s: State) {
    forall n, j: nat :: n in p.deps && n in s.open && j < |p.deps[n]| && Spreads(p, s.results, p.deps[n][j]) ==>
      j !in s.open[n]
  }

  ghost predicate Ran(s: State, n: string) {
    n in s.inFlight || (n in s.results && (s.results[n].Value? || s.results[n].Failed?))
  }

  /** Every action was launched at most once, after all that it depends on had a result. */
  ghost predicate LogSound(p: Plan, s: State, log: seq<Launch>) {
    && (forall i, k :: 0 <= i < k < |log| ==> log[i].node != log[k].node)
    && (forall i :: 0 <= i < |log| ==>
          log[i].node in p.deps && Ran(s, log[i].node) && HasAction(p, log[i].node)
          && forall d :: d in p.deps[log[i].node] ==> d in log[i].settled)
    && (forall n :: Ran(s, n) ==> exists i :: 0 <= i < |log| && log[i].node == n)
  }

  ghost predicate Extends(old_: map<string, NodeResult>, new_: map<string, NodeResult>) {
    forall n :: n in old_ ==> n in new_ && new_[n] == old_[n]
  }

  /** What `_mark_skipped` does: results are added, all of them skips, and exactly the slots of the
      nodes added are closed. No slot of a node left without a result is touched. */
  ghost predicate SkipsOnly(p: Plan, s: State, t: State) {
    && Extends(s.results, t.results)
    && t.results.Keys <= p.deps.Keys
    && (forall n :: n in t.results && n !in s.results ==> t.results[n].Skipped?)
    && t.open.Keys == s.open.Keys == p.deps.Keys
    && (forall n, j: nat :: n in p.deps && j < |p.deps[n]| ==>
          (j in t.open[n] <==> j in s.open[n] && (p.deps[n][j] in t.results ==> p.deps[n][j] in s.results)))
    && (forall n :: n in p.deps && n !in t.results ==> t.open[n] == s.open[n])
    && t.ready == s.ready && t.inFlight == s.inFlight
  }
}
