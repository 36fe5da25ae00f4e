/** Which verification passes raise an alert. */
module Announcements {
  import opened Wrappers
  import opened Changes

  type Signature = seq<seq<string>>

  /** The passes of one monitor, those that could not run, and approvals of a new baseline. Watch mode runs
      its passes with `repeat` false. */
  datatype Pass = Verified(changes: seq<Change>, repeat: bool) | Failed(message: string, repeat: bool) | Approved

  /** A pass reads `_announced` to decide whether it alerts and stores its own signature later. A pass that
      ran does both under the lock; one that could not, after it has let go of the lock. */
  datatype Event = Looks(pass: Pass) | Stores(pass: Pass)

  function KindName(kind: ChangeKind): string {
    match kind
    case Created => "created"
    case Modified => "modified"
    case Deleted => "deleted"
    case Renamed => "renamed"
    case MetadataChanged => "metadata_changed"
    case PermissionChanged => "permission_changed"
  }

  function Mark(ch: Change): seq<string> {
    [KindName(ch.kind), ch.path, if ch.previousPath.Some? then ch.previousPath.value else "",
     if ch.after.Some? then ch.after.value.checksum else ""]
  }

  function SignatureOf(s: seq<Change>): Signature {
    seq(|s|, i requires 0 <= i < |s| => Mark(s[i]))
  }

  function PassSignature(p: Pass): Option<Signature> {
    match p
    case Verified(changes, _) => Some(SignatureOf(changes))
    case Failed(message, _) => Some([["error", message]])
    case Approved => None
  }

  /** `_announced` after the run. */
  function AnnouncedAfter(run: seq<Event>): Option<Signature> {
    if run == [] then None
    else if run[|run|-1].Stores? then PassSignature(run[|run|-1].pass)
    else AnnouncedAfter(run[..|run|-1])
  }

  /** The last pass that ran, or approval, that is concluded. */
  function Concluded(run: seq<Event>): Option<Pass> {
    if run == [] then None
    else if run[|run|-1].Stores? && !run[|run|-1].pass.Failed? then Some(run[|run|-1].pass)
    else Concluded(run[..|run|-1])
  }

  /** A failure was recorded since. */
  predicate FailedSince(run: seq<Event>) {
    run != [] &&
    if run[|run|-1].Stores? then run[|run|-1].pass.Failed? else FailedSince(run[..|run|-1])
  }

  /** The pass that has the lock and has looked. */
  function Running(run: seq<Event>): Option<Pass> {
    if run == [] then None
    else
      var last := run[|run|-1];
      if last.pass.Failed? then Running(run[..|run|-1])
      else if last.Looks? then Some(last.pass)
      else None
  }

  /** The lock lets the passes that run take turns. */
  predicate Locked(run: seq<Event>) {
    run == [] || (Locked(run[..|run|-1]) && InTurn(run[..|run|-1], run[|run|-1]))
  }

  predicate InTurn(run: seq<Event>, e: Event) {
    match e.pass
    case Failed(_, _) => true
    case Verified(_, _) => Running(run) == if e.Looks? then None else Some(e.pass)
    case Approved => e.Stores? && Running(run) == None
  }

  /** The pass alerts, with `announced` as it finds it. */
  predicate Alerts(announced: Option<Signature>, p: Pass) {
    match p
    case Verified(changes, repeat) => changes != [] && (repeat || Some(SignatureOf(changes)) != announced)
    case Failed(message, repeat) => repeat || Some([["error", message]]) != announced
    case Approved => false
  }

  function PreviousPath(x: Change): string {
    if x.previousPath.Some? then x.previousPath.value else ""
  }

  /** Two changes look the same to an alert: their kinds and paths, and the content the file has now. */
  predicate SameChange(x: Change, y: Change) {
    x.kind == y.kind && x.path == y.path
    && PreviousPath(x) == PreviousPath(y)
    && (if x.after.Some? then x.after.value.checksum else "") == (if y.after.Some? then y.after.value.checksum else "")
  }

  predicate SameDrift(s: seq<Change>, t: seq<Change>) {
    |s| == |t| && forall i :: 0 <= i < |s| ==> SameChange(s[i], t[i])
  }

  lemma MarkIff(x: Change, y: Change)
    ensures Mark(x) == Mark(y) <==> SameChange(x, y)
  {
    var m, n := Mark(x), Mark(y);
    assert m == n ==> m[0] == n[0] && m[1] == n[1] && m[2] == n[2] && m[3] == n[3];
    KindNamesDiffer(x.kind, y.kind);
  }

  lemma KindNamesDiffer(x: ChangeKind, y: ChangeKind)
    ensures KindName(x) == KindName(y) <==> x == y
  {
    assert "created" != "deleted" by { assert "created"[0] != "deleted"[0]; }
    assert "created" != "renamed" by { assert "created"[0] != "renamed"[0]; }
    assert "deleted" != "renamed" by { assert "deleted"[0] != "renamed"[0]; }
    assert |"created"| == |"deleted"| == |"renamed"| == 7;
    assert |"modified"| == 8 && |"metadata_changed"| == 16 && |"permission_changed"| == 18;
  }

  lemma {:induction false} SignatureIff(s: seq<Change>, t: seq<Change>)
    ensures SignatureOf(s) == SignatureOf(t) <==> SameDrift(s, t)
  {
    hide Mark, SameChange;
    forall i | 0 <= i < |s| && i < |t| ensures Mark(s[i]) == Mark(t[i]) <==> SameChange(s[i], t[i]) {
      MarkIff(s[i], t[i]);
    }
    var x, y := SignatureOf(s), SignatureOf(t);
    assert forall i :: 0 <= i < |s| ==> x[i] == Mark(s[i]);
    assert forall i :: 0 <= i < |t| ==> y[i] == Mark(t[i]);
    if x == y {
      assert |s| == |t|;
      forall i | 0 <= i < |s| ensures SameChange(s[i], t[i]) {
        assert x[i] == y[i];
      }
    }
    if SameDrift(s, t) {
      assert forall i :: 0 <= i < |s| ==> x[i] == y[i];
    }
  }

  lemma FailureIsNoDrift(s: seq<Change>, message: string)
    ensures SignatureOf(s) != [["error", message]]
  {
    if |s| == 1 {
      assert |SignatureOf(s)[0]| == 4 && |["error", message]| == 2;
    }
  }

  /** What is announced is what the last concluded pass found, unless a failure was recorded since. */
  lemma {:induction false} AnnouncedIs(run: seq<Event>)
    ensures !FailedSince(run) ==>
      AnnouncedAfter(run) == if Concluded(run).Some? then PassSignature(Concluded(run).value) else None
    ensures FailedSince(run) ==> exists message :: AnnouncedAfter(run) == Some([["error", message]])
    ensures Concluded(run).Some? ==> !Concluded(run).value.Failed?
  {
    hide SignatureOf;
    if run != [] {
      AnnouncedIs(run[..|run|-1]);
      var last := run[|run|-1];
      if last.Stores? && last.pass.Failed? {
        assert AnnouncedAfter(run) == Some([["error", last.pass.message]]);
      }
    }
  }

  /** A pass in watch mode alerts exactly if it finds drift and the pass concluded last, with no approval
      and no failure recorded since, did not find the same. */
  lemma AlertsIff(run: seq<Event>, changes: seq<Change>)
    ensures Alerts(AnnouncedAfter(run), Verified(changes, false)) <==>
      var before := Concluded(run);
      changes != []
      && !(before.Some? && before.value.Verified? && !FailedSince(run) && SameDrift(before.value.changes, changes))
  {
    hide SignatureOf, SameDrift, AnnouncedAfter, Concluded, FailedSince;
    AnnouncedIs(run);
    if FailedSince(run) {
      var message :| AnnouncedAfter(run) == Some([["error", message]]);
      FailureIsNoDrift(changes, message);
    } else if Concluded(run).Some? && Concluded(run).value.Verified? {
      SignatureIff(Concluded(run).value.changes, changes);
    }
  }

  /** Any other pass, asked for by itself, alerts exactly if it finds drift; and a failure then always. */
  lemma RepeatsAlert(run: seq<Event>, changes: seq<Change>, message: string)
    ensures Alerts(AnnouncedAfter(run), Verified(changes, true)) <==> changes != []
    ensures Alerts(AnnouncedAfter(run), Failed(message, true))
  {
  }

  /** What was recorded last, if anything was. */
  function Recorded(run: seq<Event>): Option<Pass> {
    if run == [] then None
    else if run[|run|-1].Stores? then Some(run[|run|-1].pass)
    else Recorded(run[..|run|-1])
  }

  /** A failure in watch mode alerts exactly if what was recorded last is not a failure with the same message. */
  lemma {:induction false} FailureAlertsIff(run: seq<Event>, message: string)
    ensures Alerts(AnnouncedAfter(run), Failed(message, false)) <==>
      !(Recorded(run).Some? && Recorded(run).value.Failed? && Recorded(run).value.message == message)
  {
    hide SignatureOf;
    if run != [] {
      var last := run[|run|-1];
      if last.Looks? {
        FailureAlertsIff(run[..|run|-1], message);
      } else if last.pass.Verified? {
        FailureIsNoDrift(last.pass.changes, message);
      } else if last.pass.Failed? {
        assert [["error", message]][0][1] == message && [["error", last.pass.message]][0][1] == last.pass.message;
      }
    }
  }

  /** The alerts of the passes and failures. */
  function AlertCount(run: seq<Event>): nat {
    if run == [] then 0
    else
      var init, last := run[..|run|-1], run[|run|-1];
      AlertCount(init) + if last.Looks? && Alerts(AnnouncedAfter(init), last.pass) then 1 else 0
  }

  /** The alerts of the passes that ran. */
  function DriftAlerts(run: seq<Event>): nat {
    if run == [] then 0
    else
      var init, last := run[..|run|-1], run[|run|-1];
      DriftAlerts(init) + if last.Looks? && last.pass.Verified? && Alerts(AnnouncedAfter(init), last.pass) then 1 else 0
  }

  function FailuresRecorded(run: seq<Event>): nat {
    if run == [] then 0
    else
      FailuresRecorded(run[..|run|-1]) + if run[|run|-1].Stores? && run[|run|-1].pass.Failed? then 1 else 0
  }

  ghost predicate AllFind(run: seq<Event>, changes: seq<Change>) {
    forall e :: e in run ==> e.pass.Failed? || e.pass == Verified(changes, false)
  }

  /** While every pass finds the same drift, failures in any interleaving, it is reported once and then at
      most once more for every failure recorded. */
  lemma {:induction false} RepeatsNeedFailures(run: seq<Event>, changes: seq<Change>)
    requires Locked(run) && AllFind(run, changes)
    ensures DriftAlerts(run) <= 1 + FailuresRecorded(run)
  {
    RepeatsCounted(run, changes);
  }

  /** The next pass to look, counting one that has looked as concluded, will alert. */
  predicate AlertsNext(run: seq<Event>, changes: seq<Change>) {
    Running(run).None? && Some(SignatureOf(changes)) != AnnouncedAfter(run)
  }

  lemma {:induction false} RepeatsCounted(run: seq<Event>, changes: seq<Change>)
    requires Locked(run) && AllFind(run, changes)
    ensures DriftAlerts(run) + (if AlertsNext(run, changes) then 1 else 0) <= 1 + FailuresRecorded(run)
  {
    hide SignatureOf;
    if run != [] {
      var init, last := run[..|run|-1], run[|run|-1];
      assert last in run && forall e :: e in init ==> e in run;
      RepeatsCounted(init, changes);
    }
  }

  /** A pass that nothing comes between. */
  function Whole(p: Pass): seq<Event> {
    [Looks(p), Stores(p)]
  }

  lemma {:induction false} WholeAfter(run: seq<Event>, p: Pass)
    ensures var r := run + Whole(p);
      && AnnouncedAfter(r) == PassSignature(p)
      && AlertCount(r) == AlertCount(run) + (if Alerts(AnnouncedAfter(run), p) then 1 else 0)
      && (p.Verified? ==> Concluded(r) == Some(p) && !FailedSince(r))
  {
    hide Alerts, PassSignature;
    var r := run + Whole(p);
    assert r[..|r|-1] == run + [Looks(p)] && (run + [Looks(p)])[..|run|] == run;
  }

  function Passes(p: Pass, k: nat): seq<Event> {
    if k == 0 then [] else Passes(p, k - 1) + Whole(p)
  }

  /** A drift that every pass finds the same is reported once, when it appears. */
  lemma {:induction false} StableDriftAlertsOnce(run: seq<Event>, changes: seq<Change>, k: nat)
    requires changes != [] && k > 0 && Alerts(AnnouncedAfter(run), Verified(changes, false))
    ensures AlertCount(run + Passes(Verified(changes, false), k)) == AlertCount(run) + 1
  {
    hide SignatureOf, AnnouncedAfter, AlertCount;
    var p := Verified(changes, false);
    var init := run + Passes(p, k - 1);
    assert run + Passes(p, k) == init + Whole(p);
    WholeAfter(init, p);
    if k > 1 {
      StableDriftAlertsOnce(run, changes, k - 1);
      var before := run + Passes(p, k - 2);
      assert init == before + Whole(p);
      WholeAfter(before, p);
    } else {
      assert init == run;
    }
  }

  /** Watch mode documents that a drift is not reported again while it stays the same. A pass over other
      paths in between, which finds nothing, makes the next pass over the drifted ones report it again,
      every time. */
  lemma {:induction false} PassesBetweenAlertAgain(changes: seq<Change>, k: nat)
    requires changes != []
    ensures AlertCount(Alternating(changes, k)) == k
  {
    hide SignatureOf, AnnouncedAfter, AlertCount, Concluded, FailedSince;
    if k > 0 {
      var init, drift, clean := Alternating(changes, k - 1), Verified(changes, false), Verified([], false);
      PassesBetweenAlertAgain(changes, k - 1);
      AlternatingEnds(changes, k - 1);
      AlertsIff(init, changes);
      WholeAfter(init, drift);
      WholeAfter(init + Whole(drift), clean);
    } else {
      NoAlerts();
    }
  }

  lemma NoAlerts()
    ensures AlertCount([]) == 0
  {
  }

  lemma {:induction false} AlternatingEnds(changes: seq<Change>, k: nat)
    ensures Concluded(Alternating(changes, k)) == if k == 0 then None else Some(Verified([], false))
  {
    if k > 0 { WholeAfter(Alternating(changes, k - 1) + Whole(Verified(changes, false)), Verified([], false)); }
  }

  /** A pass that finds the drift and a pass elsewhere that finds nothing, `k` times over. */
  function Alternating(changes: seq<Change>, k: nat): seq<Event> {
    if k == 0 then []
    else Alternating(changes, k - 1) + Whole(Verified(changes, false)) + Whole(Verified([], false))
  }

  /** A pass could not run and alerts; a later one finds the drift that was found before. It does not alert if
      it looks before the failure is recorded, and what it stores then covers the failure, so the next pass
      does not alert either. */
  lemma {:induction false} FailureIsCovered(changes: seq<Change>, message: string)
    requires changes != []
    ensures var drift, failure := Verified(changes, false), Failed(message, false);
      var run := Whole(drift) + [Looks(failure), Looks(drift), Stores(failure), Stores(drift)];
      Locked(run) && AlertCount(run) == 2 && DriftAlerts(run) == 1 && !Alerts(AnnouncedAfter(run), drift)
  {
    hide SignatureOf;
    var drift, failure := Verified(changes, false), Failed(message, false);
    FailureIsNoDrift(changes, message);
    var a, b := [Looks(drift)], Whole(drift);
    var c := b + [Looks(failure)];
    var d := c + [Looks(drift)];
    var e := d + [Stores(failure)];
    var run := e + [Stores(drift)];
    assert run == Whole(drift) + [Looks(failure), Looks(drift), Stores(failure), Stores(drift)];
    assert a[..0] == [];
    NextEvent([], Looks(drift));
    assert [] + [Looks(drift)] == a && a + [Stores(drift)] == b;
    NextEvent(a, Stores(drift));
    NextEvent(b, Looks(failure));
    NextEvent(c, Looks(drift));
    NextEvent(d, Stores(failure));
    NextEvent(e, Stores(drift));
  }

  /** What one event adds to a run. */
  lemma {:induction false} NextEvent(run: seq<Event>, e: Event)
    ensures var r, alert := run + [e], e.Looks? && Alerts(AnnouncedAfter(run), e.pass);
      && AnnouncedAfter(r) == (if e.Stores? then PassSignature(e.pass) else AnnouncedAfter(run))
      && AlertCount(r) == AlertCount(run) + (if alert then 1 else 0)
      && DriftAlerts(r) == DriftAlerts(run) + (if alert && e.pass.Verified? then 1 else 0)
      && Running(r) == (if e.pass.Failed? then Running(run) else if e.Looks? then Some(e.pass) else None)
      && (Locked(r) <==> Locked(run) && InTurn(run, e))
  {
    hide Alerts, PassSignature;
    assert (run + [e])[..|run|] == run;
  }

  /** The part of `IntegrityMonitor` that decides about alerts. */
  class Announcer {
    var announced: Option<Signature>

    constructor ()
      ensures announced == AnnouncedAfter([])
    {
      announced := None;
    }

    /** `_conclude`. When it stores, failures may have made `meanwhile` of the field. */
    method Conclude(changes: seq<Change>, repeat: bool, meanwhile: Option<Signature>) returns (alert: bool)
      modifies this
      ensures alert == Alerts(old(announced), Verified(changes, repeat))
      ensures announced == PassSignature(Verified(changes, repeat))
    {
      var signature := SignatureOf(changes);
      var announce := repeat || Some(signature) != announced;
      announced := meanwhile;
      announced := Some(signature);
      return announce && changes != [];
    }

    /** `_record_failure`. When it stores, any pass may have made `meanwhile` of the field. */
    method RecordFailure(message: string, repeat: bool, meanwhile: Option<Signature>) returns (alert: bool)
      modifies this
      ensures alert == Alerts(old(announced), Failed(message, repeat))
      ensures announced == PassSignature(Failed(message, repeat))
    {
      var signature := [["error", message]];
      alert := repeat || Some(signature) != announced;
      announced := meanwhile;
      announced := Some(signature);
    }

    /** `create_baseline` and `accept`, once the new baseline is stored. */
    method Approve()
      modifies this
      ensures announced == PassSignature(Approved)
    {
      announced := None;
    }
  }
}
