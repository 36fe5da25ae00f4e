/** How one step changes the state. */
module DagSteps {
  import opened Collections
  import opened Graphs
  import opened DagGraph
  import opened DagState

  /** Every slot of every node. */
  ghost function Full(deps: Deps): map<string, int> {
    map n | n in deps :: |deps[n]|
  }

  /** `s1` is `s0` with `x` skipped; `s` is reached after the first `i` dependents of `x`. */
  ghost predicate MidSkip(p: Plan, s0: State, s1: State, s: State, x: string, i: nat) {
    && i <= |At(p.slots, x)|
    && s.results.Keys <= p.deps.Keys
    && (forall n :: n in s.results && n !in s1.results ==> s.results[n].Skipped?)
    && s.open.Keys == s0.open.Keys == p.deps.Keys
    && (forall n, j: nat :: n in p.deps && j < |p.deps[n]| ==>
          (j in s.open[n] <==>
             && j in s0.open[n] && (p.deps[n][j] in s.results ==> p.deps[n][j] in s1.results)
             && Slot(n, j) !in At(p.slots, x)[..i]))
    && (forall n :: n in p.deps && n !in s.results ==> s.open[n] == s0.open[n])
    && s.ready == s0.ready && s.inFlight == s0.inFlight
  }

  lemma NamesAgree(graph: map<string, seq<string>>, slots: map<string, seq<Slot>>, d: string)
    requires SameNames(graph, slots)
    ensures |At(graph, d)| == |At(slots, d)|
    ensures forall i :: 0 <= i < |At(slots, d)| ==> At(graph, d)[i] == At(slots, d)[i].node
  {
  }

  lemma NothingSkipped(p: Plan, s: State)
    requires Base(p, s, {})
    ensures SkipsOnly(p, s, s)
  {
  }

  lemma MidSkipStart(p: Plan, s0: State, s1: State, x: string)
    requires Base(p, s0, {}) && Base(p, s1, {}) && x in s1.results
    requires s1 == s0.(results := s0.results[x := s1.results[x]])
    ensures MidSkip(p, s0, s1, s1, x, 0)
  {
  }

  lemma SettledKeepsBase(p: Plan, s: State, t: State, x: string)
    requires Base(p, s, {}) && x in p.deps && x !in s.results && x !in s.ready && x !in s.inFlight
    requires x in t.results && t == s.(results := s.results[x := t.results[x]])
    requires t.results[x].Skipped? && p.failFast
    requires var r := t.results[x].reason; r in p.deps[x] && r in s.results && Blocking(p, s.results[r])
    ensures Base(p, t, {}) && Extends(s.results, t.results)
  {
    ExtendKeepsSound(p, s.results, t.results);
  }

  lemma ExtendKeepsSound(p: Plan, old_: map<string, NodeResult>, new_: map<string, NodeResult>)
    requires Extends(old_, new_) && old_.Keys <= p.deps.Keys
    requires forall n :: n in old_ ==> ResultSound(p, old_, n)
    ensures forall n :: n in old_ ==> ResultSound(p, new_, n)
  {
  }

  lemma CloseKeepsCount(p: Plan, s: State, t: State, e: Slot)
    requires Counted(p.deps, s.indegree, s.open) && e.node in p.deps && e.index in s.open[e.node]
    requires t.indegree == s.indegree[e.node := s.indegree[e.node] - 1]
    requires t.open == s.open[e.node := s.open[e.node] - {e.index}]
    ensures Counted(p.deps, t.indegree, t.open)
  {
  }

  lemma CloseKeepsBase(p: Plan, s: State, t: State, e: Slot, hand: set<string>)
    requires Base(p, s, hand) && e.node in p.deps && e.node in s.open && e.index in s.open[e.node]
    requires e.node in s.indegree && e.index < |p.deps[e.node]| && p.deps[e.node][e.index] in s.results
    requires t == s.(indegree := s.indegree[e.node := s.indegree[e.node] - 1],
                     open := s.open[e.node := s.open[e.node] - {e.index}])
    ensures Base(p, t, hand)
  {
    hide ResultsSound, Counted;
    CloseKeepsCount(p, s, t, e);
    assert KeptOpen(p, t) by { hide QueuedClear; }
    hide KeptOpen;
  }

  lemma MidSkipNext(p: Plan, s0: State, s1: State, s: State, x: string, i: nat)
    requires OnlySlots(p.deps, p.slots, Full(p.deps)) && Base(p, s0, {}) && Base(p, s, {})
    requires x in p.deps && x !in s0.results && x in s1.results && MidSkip(p, s0, s1, s, x, i)
    requires i < |At(p.slots, x)|
    ensures At(p.slots, x)[i].node in p.deps && At(p.slots, x)[i].index in s.open[At(p.slots, x)[i].node]
    ensures At(p.slots, x)[i].node in s.indegree && s.open.Keys == p.deps.Keys
    ensures At(p.slots, x)[i].index < |p.deps[At(p.slots, x)[i].node]|
    ensures x in p.deps[At(p.slots, x)[i].node]
    ensures p.deps[At(p.slots, x)[i].node][At(p.slots, x)[i].index] == x
    ensures At(p.slots, x)[i].node !in s.ready && At(p.slots, x)[i].node !in s.inFlight
  {
    var e := At(p.slots, x)[i];
    assert e in At(p.slots, x);
    assert IsSlot(p.deps, Full(p.deps), x, e);
    assert e !in At(p.slots, x)[..i];
  }

  lemma MidSkipStep(p: Plan, s0: State, s1: State, s2: State, s3: State, s4: State, x: string, i: nat)
    requires i < |At(p.slots, x)| && x in s1.results && Extends(s1.results, s2.results)
    requires MidSkip(p, s0, s1, s2, x, i)
    requires var e := At(p.slots, x)[i];
      && e.node in p.deps && e.index in s2.open[e.node] && e.index < |p.deps[e.node]|
      && p.deps[e.node][e.index] == x
      && s3.open == s2.open[e.node := s2.open[e.node] - {e.index}]
      && s3.results == s2.results && s3.ready == s2.ready && s3.inFlight == s2.inFlight
      && SkipsOnly(p, s3, s4) && e.node in s4.results
    ensures MidSkip(p, s0, s1, s4, x, i + 1)
    ensures Extends(s1.results, s4.results)
  {
    var e := At(p.slots, x)[i];
    assert At(p.slots, x)[..i+1] == At(p.slots, x)[..i] + [e];
  }

  lemma MidSkipEnd(p: Plan, s0: State, s1: State, s: State, x: string)
    requires OnlySlots(p.deps, p.slots, Full(p.deps)) && AllSlots(p.deps, p.slots, Full(p.deps))
    requires x in p.deps && x !in s0.results && x in s1.results
    requires s1.results == s0.results[x := s1.results[x]] && s1.results[x].Skipped? && Extends(s1.results, s.results)
    requires MidSkip(p, s0, s1, s, x, |At(p.slots, x)|)
    ensures SkipsOnly(p, s0, s) && x in s.results
  {
    assert At(p.slots, x)[..|At(p.slots, x)|] == At(p.slots, x);
    forall n, j: nat | n in p.deps && j < |p.deps[n]|
      ensures Slot(n, j) in At(p.slots, x) <==> p.deps[n][j] == x
    {
      assert Slot(n, j) in At(p.slots, x) ==> IsSlot(p.deps, Full(p.deps), x, Slot(n, j));
      assert p.deps[n][j] == x ==> IsSlot(p.deps, Full(p.deps), x, Slot(n, j));
    }
  }

  // ---------------------------------------------------------------- a node settles

  /** The result a node gets when it is its turn. */
  ghost function Own(p: Plan, n: string): NodeResult {
    if !HasAction(p, n) then NoAction
    else match p.run(n)
      case Returned(v) => Value(v)
      case Raised(e) => Failed(e)
  }

  lemma InHand(p: Plan, s: State, x: string)
    requires Base(p, s, {x})
    ensures x in p.deps && x in s.open && x !in s.results && s.open[x] == {} && s.open.Keys == p.deps.Keys
  {
    assert x in {x};
  }

  /** A node is settled in its turn: all that it depends on lets it run. */
  lemma TurnIsClear(p: Plan, s: State, x: string)
    requires Base(p, s, {x}) && ClosedLetsRun(p, s)
    ensures x in p.deps && Clear(p, s.results, x)
  {
    InHand(p, s, x);
    forall d | d in p.deps[x] ensures d in s.results && !Blocking(p, s.results[d]) {
      var j: nat :| j < |p.deps[x]| && p.deps[x][j] == d;
      assert j !in s.open[x];
    }
  }

  lemma OwnIsSound(p: Plan, results: map<string, NodeResult>, x: string)
    requires x in p.deps && x !in results && Clear(p, results, x)
    ensures ResultSound(p, results[x := Own(p, x)], x)
  {
  }

  lemma SettleOwnBase(p: Plan, s: State, t: State, x: string)
    requires Base(p, s, {x}) && ClosedLetsRun(p, s) && x !in s.ready && x !in s.inFlight
    requires t == s.(results := s.results[x := Own(p, x)])
    ensures Base(p, t, {}) && Extends(s.results, t.results)
  {
    hide ResultSound, Own, Clear, Blocking;
    InHand(p, s, x);
    TurnIsClear(p, s, x);
    OwnIsSound(p, s.results, x);
    ExtendKeepsSound(p, s.results, t.results);
  }

  lemma SettleKeepsSound(p: Plan, s: State, t: State, x: string)
    requires Sound(p, s, {x})
    requires t == s.(results := s.results[x := Own(p, x)])
    ensures Sound(p, t, {}) && Extends(s.results, t.results)
  {
    hide Base, Own, Blocking;
    InHand(p, s, x);
    assert x !in s.ready && x !in s.inFlight;
    SettleOwnBase(p, s, t, x);
  }

  lemma SettleKeepsBase(p: Plan, s: State, t: State, x: string)
    requires Sound(p, s, {x}) && t == s.(results := s.results[x := Own(p, x)])
    ensures x in p.deps && x !in s.results && x !in s.ready && x !in s.inFlight
    ensures Base(p, s, {}) && Base(p, t, {})
  {
    InHand(p, s, x);
    hide Own, ResultSound;
    SettleKeepsSound(p, s, t, x);
  }

  lemma SkipsSpread(p: Plan, s0: State, s1: State, s: State, x: string)
    requires AllSlots(p.deps, p.slots, Full(p.deps)) && AllSpread(p, s0)
    requires x !in s0.results && x in s1.results && s1.results == s0.results[x := s1.results[x]]
    requires MidSkip(p, s0, s1, s, x, |At(p.slots, x)|) && Extends(s1.results, s.results)
    ensures AllSpread(p, s)
  {
    assert At(p.slots, x)[..|At(p.slots, x)|] == At(p.slots, x);
    forall n, j: nat | n in p.deps && j < |p.deps[n]| && Spreads(p, s.results, p.deps[n][j])
      ensures j !in s.open[n]
    {
      assert p.deps[n][j] == x ==> IsSlot(p.deps, Full(p.deps), x, Slot(n, j));
    }
  }

  /** After all dependents of a blocking node are skipped nothing is left to do for it. */
  lemma {:induction false} SkipsMakeQuiet(p: Plan, s0: State, s1: State, s: State, x: string)
    requires AllSlots(p.deps, p.slots, Full(p.deps))
    requires Quiet(p, s0, {x}) && s1 == s0.(results := s0.results[x := Own(p, x)])
    requires MidSkip(p, s0, s1, s, x, |At(p.slots, x)|) && Extends(s1.results, s.results)
    requires Base(p, s, {})
    ensures Quiet(p, s, {})
  {
    hide Base, Own, Blocking, AllSlots;
    InHand(p, s0, x);
    assert AllSpread(p, s) by {
      hide MidSkip, OncePlaced, NoneForgotten, ClosedLetsRun, AllSpread;
      SkipsSpread(p, s0, s1, s, x);
    }
    hide AllSpread;
    assert x in s1.results;
  }

  /** A result that does not spread leaves everything as it is. */
  lemma KeptBackIsQuiet(p: Plan, s: State, t: State, x: string)
    requires Quiet(p, s, {x}) && !p.failFast && Own(p, x).NoAction?
    requires t == s.(results := s.results[x := NoAction])
    ensures Quiet(p, t, {})
  {
    SettleKeepsSound(p, s, t, x);
  }

  /** `s` is reached from `s1` after the first `i` dependents of `x`, none of them skipped. */
  ghost predicate MidPass(p: Plan, s0: State, s1: State, s: State, x: string, i: nat) {
    && i <= |At(p.slots, x)|
    && s.results == s1.results && s.inFlight == s1.inFlight
    && s.open.Keys == s0.open.Keys == p.deps.Keys
    && (forall n, j: nat :: n in p.deps && j < |p.deps[n]| ==>
          (j in s.open[n] <==> j in s0.open[n] && Slot(n, j) !in At(p.slots, x)[..i]))
    && Sound(p, s, {})
  }

  lemma MidPassStart(p: Plan, s0: State, s1: State, x: string)
    requires Sound(p, s0, {x}) && s1 == s0.(results := s0.results[x := Own(p, x)])
    ensures MidPass(p, s0, s1, s1, x, 0)
  {
    SettleKeepsSound(p, s0, s1, x);
  }

  /** In the midst of either kind of loop, by what the result of `x` is. */
  ghost predicate MidEither(p: Plan, s0: State, s1: State, s: State, x: string, i: nat) {
    && x in s1.results && Extends(s1.results, s.results)
    && if Blocking(p, s1.results[x]) then Base(p, s, {}) && MidSkip(p, s0, s1, s, x, i) else MidPass(p, s0, s1, s, x, i)
  }

  lemma MidEitherStart(p: Plan, s0: State, s1: State, x: string)
    requires Sound(p, s0, {x}) && s1 == s0.(results := s0.results[x := Own(p, x)])
    ensures MidEither(p, s0, s1, s1, x, 0)
  {
    hide Base, Sound, MidSkip, MidPass, Blocking, Own;
    SettleKeepsBase(p, s0, s1, x);
    MidSkipStart(p, s0, s1, x);
    MidPassStart(p, s0, s1, x);
  }

  lemma MidEitherBase(p: Plan, s0: State, x: string)
    requires Sound(p, s0, {x})
    ensures Base(p, s0, {x})
  {
    hide Base;
  }

  /** After the whole loop nothing is left to do for `x`, and what it added are skips. */
  lemma {:induction false} MidEitherEnd(p: Plan, s0: State, s1: State, s: State, x: string)
    requires OnlySlots(p.deps, p.slots, Full(p.deps)) && AllSlots(p.deps, p.slots, Full(p.deps))
    requires Quiet(p, s0, {x}) && s1 == s0.(results := s0.results[x := Own(p, x)])
    requires MidEither(p, s0, s1, s, x, |At(p.slots, x)|)
    ensures Quiet(p, s, {}) && Extends(s0.results, s.results) && x in s.results && s.results[x] == Own(p, x)
    ensures forall n :: n in s.results && n !in s0.results && n != x ==> s.results[n].Skipped?
  {
    hide Base, Quiet, Sound, MidSkip, MidPass, OnlySlots, AllSlots, Blocking, Own;
    QuietHand(p, s0, x);
    SettleKeepsBase(p, s0, s1, x);
    if Blocking(p, s1.results[x]) {
      SkipsMakeQuiet(p, s0, s1, s, x);
    } else {
      PassesMakeQuiet(p, s0, s1, s, x);
    }
    OnlySkips(p, s0, s1, s, x);
  }

  lemma MidPassNext(p: Plan, s0: State, s1: State, s: State, x: string, i: nat)
    requires OnlySlots(p.deps, p.slots, Full(p.deps)) && Base(p, s0, {x})
    requires MidPass(p, s0, s1, s, x, i) && i < |At(p.slots, x)|
    ensures var e := At(p.slots, x)[i];
      && e.node in p.deps && e.node in s.open && e.node in s.indegree && e.index in s.open[e.node]
      && e.index < |p.deps[e.node]| && p.deps[e.node][e.index] == x
  {
    var e := At(p.slots, x)[i];
    assert x in {x};
    assert e in At(p.slots, x);
    assert IsSlot(p.deps, Full(p.deps), x, e);
    assert e !in At(p.slots, x)[..i];
  }

  /** The count of `e.node` goes down; at zero the node joins the ready queue unless it has a result. */
  lemma MidPassStep(p: Plan, s0: State, s1: State, s: State, t: State, x: string, i: nat)
    requires i < |At(p.slots, x)| && MidPass(p, s0, s1, s, x, i)
    requires x in s1.results && !Blocking(p, s1.results[x])
    requires var e := At(p.slots, x)[i];
      && e.node in p.deps && e.node in s.open && e.node in s.indegree && e.index in s.open[e.node]
      && e.index < |p.deps[e.node]| && p.deps[e.node][e.index] == x
      && t == s.(indegree := s.indegree[e.node := s.indegree[e.node] - 1],
                 open := s.open[e.node := s.open[e.node] - {e.index}],
                 ready := if s.indegree[e.node] == 1 && e.node !in s.results
                          then s.ready + [e.node] else s.ready)
    ensures MidPass(p, s0, s1, t, x, i + 1)
  {
    MidPassOpen(p, s0, s1, s, t, x, i);
    MidPassSound(p, s, t, At(p.slots, x)[i]);
  }

  lemma MidPassOpen(p: Plan, s0: State, s1: State, s: State, t: State, x: string, i: nat)
    requires i < |At(p.slots, x)| && MidPass(p, s0, s1, s, x, i)
    requires var e := At(p.slots, x)[i]; e.node in s.open && t.open == s.open[e.node := s.open[e.node] - {e.index}]
    ensures t.open.Keys == s0.open.Keys
    ensures forall n, j: nat :: n in p.deps && j < |p.deps[n]| ==>
      (j in t.open[n] <==> j in s0.open[n] && Slot(n, j) !in At(p.slots, x)[..i+1])
  {
    hide Sound;
    assert At(p.slots, x)[..i+1] == At(p.slots, x)[..i] + [At(p.slots, x)[i]];
  }

  /** One count of `e.node` goes down, and the node becomes ready when that was the last. */
  ghost predicate PassesOne(p: Plan, s: State, t: State, e: Slot) {
    && e.node in p.deps && e.node in s.open && e.node in s.indegree && e.index in s.open[e.node]
    && e.index < |p.deps[e.node]| && p.deps[e.node][e.index] in s.results
    && !Blocking(p, s.results[p.deps[e.node][e.index]])
    && t == s.(indegree := s.indegree[e.node := s.indegree[e.node] - 1],
               open := s.open[e.node := s.open[e.node] - {e.index}],
               ready := if s.indegree[e.node] == 1 && e.node !in s.results then s.ready + [e.node] else s.ready)
  }

  lemma PassKeepsBase(p: Plan, s: State, t: State, e: Slot)
    requires Base(p, s, {}) && PassesOne(p, s, t, e)
    ensures Base(p, t, {})
    ensures e.node !in s.ready && e.node !in s.inFlight && s.open.Keys == p.deps.Keys
    ensures (s.indegree[e.node] == 1) == (t.open[e.node] == {})
  {
    hide ResultsSound, Blocking;
    assert |t.open[e.node]| == |s.open[e.node]| - 1 && s.indegree[e.node] == |s.open[e.node]|;
    CloseKeepsBase(p, s, t.(ready := s.ready), e, {});
    hide KeptOpen, Counted;
  }

  lemma MidPassSound(p: Plan, s: State, t: State, e: Slot)
    requires Sound(p, s, {}) && PassesOne(p, s, t, e)
    ensures Sound(p, t, {})
  {
    hide Base, Blocking;
    PassKeepsBase(p, s, t, e);
    assert ClosedLetsRun(p, t) by { hide OncePlaced, NoneForgotten; }
    hide ClosedLetsRun;
    assert NoneForgotten(p, t, {}) by { hide OncePlaced; }
    hide NoneForgotten;
  }

  lemma {:induction false} PassesMakeQuiet(p: Plan, s0: State, s1: State, s: State, x: string)
    requires AllSlots(p.deps, p.slots, Full(p.deps)) && Quiet(p, s0, {x})
    requires s1 == s0.(results := s0.results[x := Own(p, x)])
    requires MidPass(p, s0, s1, s, x, |At(p.slots, x)|)
    ensures Quiet(p, s, {}) && s.results == s1.results
  {
    hide Sound, AllSlots, Own;
    PassesSpread(p, s0, s1, s, x);
    hide AllSpread, MidPass;
  }

  lemma PassesSpread(p: Plan, s0: State, s1: State, s: State, x: string)
    requires AllSlots(p.deps, p.slots, Full(p.deps)) && AllSpread(p, s0)
    requires x in s1.results && s1.results == s0.results[x := s1.results[x]]
    requires MidPass(p, s0, s1, s, x, |At(p.slots, x)|)
    ensures AllSpread(p, s) && Sound(p, s, {}) && s.results == s1.results
  {
    hide Sound, Blocking;
    assert At(p.slots, x)[..|At(p.slots, x)|] == At(p.slots, x);
    forall n, j: nat | n in p.deps && j < |p.deps[n]| && Spreads(p, s.results, p.deps[n][j])
      ensures j !in s.open[n]
    {
      assert p.deps[n][j] == x ==> IsSlot(p.deps, Full(p.deps), x, Slot(n, j));
    }
  }

  lemma StartIsQuiet(p: Plan, s: State, ids: seq<string>)
    requires s.indegree.Keys == p.deps.Keys && forall n :: n in p.deps ==> s.indegree[n] == |p.deps[n]|
    requires s.results == map[] && s.inFlight == {} && s.open == AllOpen(p.deps) && Distinct(s.ready)
    requires forall n :: n in ids <==> n in p.deps
    requires forall n :: n in s.ready <==> n in ids && s.indegree[n] == 0
    ensures Quiet(p, s, {})
  {
    hide AllOpen;
    AllOpenHolds(p.deps);
    assert ResultsSound(p, s.results) && AllSpread(p, s);
    hide ResultsSound, AllSpread;
    assert ClosedLetsRun(p, s) && KeptOpen(p, s) && Counted(p.deps, s.indegree, s.open);
    hide ClosedLetsRun, KeptOpen, Counted, Distinct;
    assert forall n :: n in p.deps ==> (s.open[n] == {} <==> s.indegree[n] == 0);
  }

  lemma QuietHand(p: Plan, s: State, x: string)
    requires Quiet(p, s, {x})
    ensures Sound(p, s, {x}) && Base(p, s, {x}) && x in p.deps && x !in s.results
    ensures x !in s.inFlight
  {
    InHand(p, s, x);
  }

  lemma BlockingWhenFailFast(p: Plan, r: NodeResult)
    requires p.failFast && !r.Value?
    ensures Blocking(p, r)
  {
  }

  lemma OwnBlocks(p: Plan, x: string)
    requires HasAction(p, x)
    ensures Blocking(p, Own(p, x)) <==> p.failFast && Own(p, x).Failed?
  {
  }

  lemma OnlySkips(p: Plan, s0: State, s1: State, s: State, x: string)
    requires s1.results.Keys == s0.results.Keys + {x} && Extends(s1.results, s.results)
    requires s.results == s1.results || MidSkip(p, s0, s1, s, x, |At(p.slots, x)|)
    ensures forall n :: n in s.results && n !in s0.results && n != x ==> s.results[n].Skipped?
  {
  }

  lemma LaunchKeepsQuiet(p: Plan, s: State, t: State, x: string)
    requires Quiet(p, s, {x}) && t == s.(inFlight := s.inFlight + {x})
    ensures Quiet(p, t, {})
  {
  }

  lemma LandKeepsQuiet(p: Plan, s: State, t: State, x: string)
    requires Quiet(p, s, {}) && x in s.inFlight && t == s.(inFlight := s.inFlight - {x})
    ensures Quiet(p, t, {x})
  {
  }

  /** Results other than those of actions do not concern the log. */
  lemma LogKept(p: Plan, s: State, t: State, log: seq<Launch>, x: string)
    requires LogSound(p, s, log) && Extends(s.results, t.results) && t.inFlight == s.inFlight
    requires forall n :: n in t.results && n !in s.results ==> t.results[n].Skipped? || t.results[n].NoAction?
    ensures LogSound(p, t, log)
  {
    forall n ensures Ran(t, n) <==> Ran(s, n) {}
  }

  lemma FlightIsUnsettled(p: Plan, s: State, log: seq<Launch>, x: string)
    requires LogSound(p, s, log) && Quiet(p, s, {}) && x in s.inFlight
    ensures x in p.deps && x !in s.results && HasAction(p, x)
  {
    assert Ran(s, x);
    var i :| 0 <= i < |log| && log[i].node == x;
  }

  lemma LogLaunched(p: Plan, s: State, t: State, log: seq<Launch>, x: string)
    requires HasAction(p, x)
    requires LogSound(p, s, log) && Quiet(p, s, {x}) && t == s.(inFlight := s.inFlight + {x})
    ensures LogSound(p, t, log + [Launch(x, s.results.Keys)])
  {
    InHand(p, s, x);
    TurnIsClear(p, s, x);
    hide Quiet;
    var longer := log + [Launch(x, s.results.Keys)];
    forall n ensures Ran(t, n) <==> Ran(s, n) || n == x {}
    forall n | Ran(t, n) ensures exists i :: 0 <= i < |longer| && longer[i].node == n {
      if n == x {
        assert longer[|log|].node == x;
      } else {
        var i :| 0 <= i < |log| && log[i].node == n;
        assert longer[i].node == n;
      }
    }
  }

  lemma LogLanded(p: Plan, s: State, t: State, log: seq<Launch>, x: string)
    requires LogSound(p, s, log) && x in s.inFlight && t.inFlight == s.inFlight - {x}
    requires Extends(s.results, t.results) && x in t.results && (t.results[x].Value? || t.results[x].Failed?)
    requires forall n :: n in t.results && n !in s.results && n != x ==> t.results[n].Skipped?
    ensures LogSound(p, t, log)
  {
    forall n ensures Ran(t, n) <==> Ran(s, n) {}
  }

  lemma ExtendsSelf(a: map<string, NodeResult>)
    ensures Extends(a, a)
  {
  }

  lemma ExtendsTransitive(a: map<string, NodeResult>, b: map<string, NodeResult>, c: map<string, NodeResult>)
    requires Extends(a, b) && Extends(b, c)
    ensures Extends(a, c) && a.Keys <= b.Keys <= c.Keys
  {
  }

  lemma PopKeepsQuiet(p: Plan, s: State, t: State, x: string)
    requires Quiet(p, s, {}) && s.ready != [] && x == s.ready[0] && t == s.(ready := s.ready[1..])
    ensures Quiet(p, t, {x})
  {
    assert s.ready == [x] + t.ready;
    assert forall n :: n in s.ready <==> n == x || n in t.ready;
    assert x !in t.ready;
  }

  lemma LogPopped(p: Plan, s: State, t: State, log: seq<Launch>)
    requires LogSound(p, s, log) && t == s.(ready := t.ready)
    ensures LogSound(p, t, log)
  {
    forall n ensures Ran(t, n) <==> Ran(s, n) {}
  }

  lemma LessLeft(all: set<string>, a: set<string>, b: set<string>)
    requires a < b <= all
    ensures all - b < all - a
  {
    var x :| x in b && x !in a;
    assert x in all - a && x !in all - b;
  }

  lemma ResultsWithin(p: Plan, s: State)
    requires Quiet(p, s, {})
    ensures s.results.Keys <= p.deps.Keys
  {
  }
}
