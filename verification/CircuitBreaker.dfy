/** The circuit breaker as a value: its locked sections, and what holds over whole runs of them. */
module BreakerModel {
  datatype Phase = Closed | Open | HalfOpen

  datatype Breaker = Breaker(threshold: int, recovery: real, phase: Phase, failures: int, openedAt: real)

  /** The locked sections of all callers, in the order they get the lock. A call enters, and later, if it
      returns or raises a retriable error, its outcome is recorded; any other error records nothing. */
  datatype Section = Enter(now: real) | Look(now: real) | Failed(now: real) | Succeeded | Reset

  function Fresh(threshold: int, recovery: real): Breaker {
    Breaker(threshold, recovery, Closed, 0, 0.0)
  }

  /** `_maybe_transition_locked`. */
  function Transition(b: Breaker, now: real): Breaker {
    if b.phase.Open? && now - b.openedAt >= b.recovery then b.(phase := HalfOpen) else b
  }

  predicate Admits(b: Breaker, now: real) {
    !Transition(b, now).phase.Open?
  }

  function Step(b: Breaker, s: Section): Breaker {
    match s
    case Enter(now) => Transition(b, now)
    case Look(now) => Transition(b, now)
    case Failed(now) =>
      if b.phase.HalfOpen? || b.failures + 1 >= b.threshold
      then b.(failures := b.failures + 1, phase := Open, openedAt := now)
      else b.(failures := b.failures + 1)
    case Succeeded => b.(phase := Closed, failures := 0)
    case Reset => b.(phase := Closed, failures := 0, openedAt := 0.0)
  }

  function After(b: Breaker, run: seq<Section>): Breaker {
    if run == [] then b else Step(After(b, run[..|run|-1]), run[|run|-1])
  }

  /** How many failures were recorded since the last success or reset. */
  function FailuresSince(run: seq<Section>): nat {
    if run == [] || run[|run|-1].Succeeded? || run[|run|-1].Reset? then 0
    else FailuresSince(run[..|run|-1]) + if run[|run|-1].Failed? then 1 else 0
  }

  /** When the last failure was recorded. */
  function LastFailure(run: seq<Section>): real {
    if run == [] then 0.0
    else if run[|run|-1].Failed? then run[|run|-1].now
    else LastFailure(run[..|run|-1])
  }

  /** The clock reading at section `i`, for the sections that take one. */
  predicate Timed(s: Section) {
    s.Enter? || s.Look? || s.Failed?
  }

  /** The clock is monotonic and read under the lock. */
  ghost predicate Ordered(run: seq<Section>) {
    forall i, j :: 0 <= i < j < |run| && Timed(run[i]) && Timed(run[j]) ==> run[i].now <= run[j].now
  }

  /** `t` is no earlier than any reading of the run. */
  ghost predicate Later(run: seq<Section>, t: real) {
    forall i :: 0 <= i < |run| && Timed(run[i]) ==> run[i].now <= t
  }

  lemma InitOrdered(run: seq<Section>)
    requires run != [] && Ordered(run)
    ensures Ordered(run[..|run|-1])
    ensures Timed(run[|run|-1]) ==> Later(run[..|run|-1], run[|run|-1].now)
  {
  }

  /** The counter counts the failures since the last success or reset, and the breaker is not closed
      exactly if there are as many as the threshold. */
  lemma {:induction false} OpenIffThreshold(threshold: int, recovery: real, run: seq<Section>)
    requires threshold >= 1
    ensures var b := After(Fresh(threshold, recovery), run);
      b.threshold == threshold && b.recovery == recovery && b.failures == FailuresSince(run)
      && (b.phase != Closed <==> FailuresSince(run) >= threshold)
  {
    if run != [] { OpenIffThreshold(threshold, recovery, run[..|run|-1]); }
  }

  /** While it is not closed it was opened by the latest failure; half open, some reading since then was
      past the timeout. */
  lemma {:induction false} OpenedByLastFailure(threshold: int, recovery: real, run: seq<Section>, t: real)
    requires threshold >= 1 && recovery > 0.0 && Ordered(run) && Later(run, t)
    ensures var b := After(Fresh(threshold, recovery), run);
      && (b.phase != Closed ==> b.openedAt == LastFailure(run))
      && (b.phase.HalfOpen? ==> t - LastFailure(run) >= recovery)
  {
    hide Ordered;
    if run != [] {
      var init, last := run[..|run|-1], run[|run|-1];
      InitOrdered(run);
      assert forall i :: 0 <= i < |init| ==> init[i] == run[i];
      OpenIffThreshold(threshold, recovery, init);
      OpenedByLastFailure(threshold, recovery, init, t);
      if Timed(last) {
        assert run[|run|-1].now <= t;
        OpenedByLastFailure(threshold, recovery, init, last.now);
      }
    }
  }

  /** A call is refused exactly if, since the last success or reset, as many failures as the threshold
      were recorded and the latest of them is not yet the recovery timeout ago. This takes in every
      interleaving: late failures push the refusals on, a late success ends them. */
  lemma RefusedIff(threshold: int, recovery: real, run: seq<Section>, now: real)
    requires threshold >= 1 && recovery > 0.0 && Ordered(run) && Later(run, now)
    ensures !Admits(After(Fresh(threshold, recovery), run), now) <==>
      FailuresSince(run) >= threshold && now < LastFailure(run) + recovery
  {
    hide After, FailuresSince, LastFailure, Ordered, Later;
    OpenIffThreshold(threshold, recovery, run);
    OpenedByLastFailure(threshold, recovery, run, now);
  }

  /** The sections of calls that enter and have no outcome yet, and of readers of the state. */
  ghost predicate NoOutcome(run: seq<Section>) {
    forall i :: 0 <= i < |run| ==> run[i].Enter? || run[i].Look?
  }

  function Admitted(b: Breaker, run: seq<Section>): nat {
    if run == [] then 0
    else
      var init, last := run[..|run|-1], run[|run|-1];
      Admitted(b, init) + if last.Enter? && Admits(After(b, init), last.now) then 1 else 0
  }

  function Entries(run: seq<Section>): nat {
    if run == [] then 0
    else Entries(run[..|run|-1]) + if run[|run|-1].Enter? then 1 else 0
  }

  /** The documented single trial call: a half-open breaker admits every call until an outcome is
      recorded, so there is one trial exactly if just one call enters in that time. */
  lemma {:induction false} TrialsAreEntries(b: Breaker, run: seq<Section>)
    requires b.phase.HalfOpen? && NoOutcome(run)
    ensures Admitted(b, run) == Entries(run) && After(b, run) == b
  {
    if run != [] {
      var init := run[..|run|-1];
      assert forall i :: 0 <= i < |init| ==> init[i] == run[i];
      TrialsAreEntries(b, init);
    }
  }

  /** An open breaker whose timeout has passed can thus have any number of trials under way. */
  lemma {:induction false} TrialsUnbounded(b: Breaker, now: real, k: nat)
    requires b.phase.Open? && now - b.openedAt >= b.recovery
    ensures Admitted(b, seq(k, i => Enter(now))) == k
    ensures k > 0 ==> After(b, seq(k, i => Enter(now))).phase.HalfOpen?
  {
    if k > 0 {
      var run := seq(k, i => Enter(now));
      assert run[..k-1] == seq(k - 1, i => Enter(now));
      TrialsUnbounded(b, now, k - 1);
    }
  }
}

/** `CircuitBreaker`. */
module CircuitBreaking {
  import opened Wrappers
  import opened BreakerModel

  /** How the wrapped function ends. */
  datatype Outcome = Returned | RaisedRetriable | RaisedOther

  datatype CallResult = Refused | Ran(outcome: Outcome)

  class CircuitBreaker {
    const threshold: int
    const recovery: real
    var phase: Phase
    var failures: int
    var openedAt: real

    function Value(): Breaker
      reads this
    {
      Breaker(threshold, recovery, phase, failures, openedAt)
    }

    /** `__init__`, past its two checks. */
    constructor (threshold: int, recovery: real)
      requires threshold >= 1 && recovery > 0.0
      ensures Value() == Fresh(threshold, recovery)
    {
      this.threshold := threshold;
      this.recovery := recovery;
      phase := Closed;
      failures := 0;
      openedAt := 0.0;
    }

    /** `__init__`; `None` is its `ValueError`. */
    static method Create(threshold: int, recovery: real) returns (r: Option<CircuitBreaker>)
      ensures r.None? <==> threshold < 1 || recovery <= 0.0
      ensures r.Some? ==> fresh(r.value) && r.value.Value() == Fresh(threshold, recovery)
    {
      if threshold < 1 || recovery <= 0.0 {
        return None;
      }
      var breaker := new CircuitBreaker(threshold, recovery);
      return Some(breaker);
    }

    /** `_maybe_transition_locked`. */
    method MaybeTransition(now: real)
      modifies `phase
      ensures Value() == Transition(old(Value()), now)
    {
      if phase.Open? && now - openedAt >= recovery {
        phase := HalfOpen;
      }
    }

    /** The `state` property. */
    method State(now: real) returns (r: Phase)
      modifies `phase
      ensures Value() == Step(old(Value()), Look(now)) && r == phase
    {
      MaybeTransition(now);
      return phase;
    }

    /** The locked section that opens `call`. */
    method Admit(now: real) returns (admitted: bool)
      modifies `phase
      ensures Value() == Step(old(Value()), Enter(now)) && admitted == Admits(old(Value()), now)
    {
      MaybeTransition(now);
      return !phase.Open?;
    }

    /** `_on_success_locked`. */
    method OnSuccess()
      modifies `phase, `failures
      ensures Value() == Step(old(Value()), Succeeded)
    {
      phase := Closed;
      failures := 0;
    }

    /** `_on_failure_locked`. */
    method OnFailure(now: real)
      modifies `phase, `failures, `openedAt
      ensures Value() == Step(old(Value()), Failed(now))
    {
      failures := failures + 1;
      if phase.HalfOpen? || failures >= threshold {
        phase := Open;
        openedAt := now;
      }
    }

    /** `call`, when no other caller takes the lock in between. */
    method Call(entered: real, outcome: Outcome, ended: real) returns (r: CallResult)
      modifies `phase, `failures, `openedAt
      ensures r == if Admits(old(Value()), entered) then Ran(outcome) else Refused
      ensures Value() == After(old(Value()), CallSections(old(Value()), entered, outcome, ended))
      ensures r.Refused? ==> phase == Open && failures == old(failures) && openedAt == old(openedAt)
      ensures r.Ran? && outcome.Returned? ==> phase == Closed && failures == 0 && openedAt == old(openedAt)
      ensures r.Ran? && outcome.RaisedRetriable? ==>
        failures == old(failures) + 1 && (failures >= threshold ==> phase == Open && openedAt == ended)
      ensures r.Ran? && outcome.RaisedOther? ==>
        failures == old(failures) && openedAt == old(openedAt)
        && phase == (if old(phase) == Open then HalfOpen else old(phase))
    {
      ghost var b := Value();
      CallSteps(b, entered, outcome, ended);
      var admitted := Admit(entered);
      if !admitted {
        return Refused;
      }
      match outcome {
        case Returned => OnSuccess();
        case RaisedRetriable => OnFailure(ended);
        case RaisedOther =>
      }
      return Ran(outcome);
    }

    /** `reset`. */
    method ResetBreaker()
      modifies `phase, `failures, `openedAt
      ensures Value() == Step(old(Value()), Reset)
    {
      phase := Closed;
      failures := 0;
      openedAt := 0.0;
    }
  }

  /** The locked sections of one call. */
  function CallSections(b: Breaker, entered: real, outcome: Outcome, ended: real): seq<Section> {
    if !Admits(b, entered) then [Enter(entered)]
    else
      match outcome
      case Returned => [Enter(entered), Succeeded]
      case RaisedRetriable => [Enter(entered), Failed(ended)]
      case RaisedOther => [Enter(entered)]
  }

  lemma CallSteps(b: Breaker, entered: real, outcome: Outcome, ended: real)
    ensures After(b, CallSections(b, entered, outcome, ended)) ==
      var admitted := Step(b, Enter(entered));
      if !Admits(b, entered) then admitted
      else
        match outcome
        case Returned => Step(admitted, Succeeded)
        case RaisedRetriable => Step(admitted, Failed(ended))
        case RaisedOther => admitted
  {
    var s := CallSections(b, entered, outcome, ended);
    assert After(b, s[..0]) == b;
    assert s[..1] == [Enter(entered)] && s[..1][..0] == [];
    assert After(b, s[..1]) == Step(b, Enter(entered));
    if |s| == 2 { assert After(b, s) == Step(After(b, s[..1]), s[1]); }
  }
}
