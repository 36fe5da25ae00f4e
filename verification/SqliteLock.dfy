/** Named leases in a shared table: the transactions, and every interleaving of them. */
module Leases {
  import opened Wrappers

  /** A row of `automation_locks`, under its name; without an expiry the lease lasts until released. */
  datatype Lease = Lease(owner: string, acquiredAt: real, expires: Option<real>)

  type Table = map<string, Lease>

  predicate Expired(expires: Option<real>, now: real) {
    expires.Some? && expires.value <= now
  }

  predicate Free(rows: Table, name: string, now: real) {
    name in rows ==> Expired(rows[name].expires, now)
  }

  function Until(now: real, ttl: Option<real>): Option<real> {
    if ttl.Some? then Some(now + ttl.value) else None
  }

  /** `INSERT OR REPLACE`. */
  function Claimed(rows: Table, name: string, owner: string, ttl: Option<real>, now: real): Table {
    rows[name := Lease(owner, now, Until(now, ttl))]
  }

  predicate Owns(rows: Table, name: string, owner: string) {
    name in rows && rows[name].owner == owner
  }

  /** `UPDATE ... SET expires_at WHERE name AND owner`. */
  function Refreshed(rows: Table, name: string, owner: string, expires: real): Table {
    if Owns(rows, name, owner) then rows[name := rows[name].(expires := Some(expires))] else rows
  }

  /** `DELETE ... WHERE name AND owner`. */
  function Released(rows: Table, name: string, owner: string): Table {
    if Owns(rows, name, owner) then rows - {name} else rows
  }

  // ---------------------------------------------------------------- all instances together

  /** What an instance is made with; its owner is a fresh UUID. */
  datatype Config = Config(name: string, ttl: Option<real>)

  /** What all instances do, in the order it takes effect: their transactions, and the setting of `_held`
      once a claim is committed and its clearing once a release is. A claim or a refresh comes with what its
      instance read from its clock before, at any earlier moment: the readings are in no order. `Busy` is a
      transaction that ends in a database error. */
  datatype Event =
    | Claim(owner: string, read: real)
    | SetHeld(owner: string)
    | Busy(owner: string)
    | Refresh(owner: string, read: real)
    | Release(owner: string)
    | ClearHeld(owner: string)

  /** The table, for each instance from its granted claim to the deletion of its row the expiry of the lease,
      and the instances that have `_held` set. */
  datatype System = System(rows: Table, leases: map<string, Option<real>>, held: set<string>)

  const START := System(map[], map[], {})

  /** The instance has deleted its row in `release` and not yet cleared `_held`. */
  predicate Releasing(s: System, owner: string) {
    owner in s.held && owner !in s.leases
  }

  predicate Grants(locks: map<string, Config>, s: System, e: Event)
    requires e.owner in locks
  {
    e.Claim? && e.owner !in s.leases && e.owner !in s.held && Free(s.rows, locks[e.owner].name, e.read)
  }

  /** The lock of an instance lets its methods take turns: what does not come in its turn has no effect. */
  function Step(locks: map<string, Config>, s: System, e: Event): System
    requires e.owner in locks
  {
    var name, ttl := locks[e.owner].name, locks[e.owner].ttl;
    match e
    case Claim(owner, read) =>
      if Grants(locks, s, e)
      then s.(rows := Claimed(s.rows, name, owner, ttl, read), leases := s.leases[owner := Until(read, ttl)])
      else s
    case SetHeld(owner) => if owner in s.leases then s.(held := s.held + {owner}) else s
    case Busy(_) => s
    case Refresh(owner, read) =>
      if ttl.Some? && owner in s.held && owner in s.leases && Owns(s.rows, name, owner)
      then s.(rows := Refreshed(s.rows, name, owner, read + ttl.value),
              leases := s.leases[owner := Some(read + ttl.value)])
      else s
    case Release(owner) =>
      if owner in s.held && owner in s.leases
      then s.(rows := Released(s.rows, name, owner), leases := s.leases - {owner})
      else s
    case ClearHeld(owner) => if Releasing(s, owner) then s.(held := s.held - {owner}) else s
  }

  /** Every event is of a known instance. */
  ghost predicate Possible(locks: map<string, Config>, run: seq<Event>) {
    forall i :: 0 <= i < |run| ==> run[i].owner in locks
  }

  function After(locks: map<string, Config>, run: seq<Event>): System
    requires Possible(locks, run)
  {
    if run == [] then START else Step(locks, After(locks, run[..|run|-1]), run[|run|-1])
  }

  /** `t` is no earlier than what any claim read. */
  ghost predicate ReadBy(run: seq<Event>, t: real) {
    forall i :: 0 <= i < |run| && run[i].Claim? ==> run[i].read <= t
  }

  /** The instance's lease has not run out at `t`. */
  predicate Holds(s: System, owner: string, t: real) {
    owner in s.leases && !Expired(s.leases[owner], t)
  }

  ghost predicate RowsAreLeases(locks: map<string, Config>, s: System) {
    && s.leases.Keys <= locks.Keys
    && forall n :: n in s.rows ==>
         var o := s.rows[n].owner;
         o in s.leases && locks[o].name == n && s.leases[o] == s.rows[n].expires
  }

  ghost predicate HoldersOwn(locks: map<string, Config>, s: System, t: real)
    requires s.leases.Keys <= locks.Keys
  {
    forall o :: Holds(s, o, t) ==> Owns(s.rows, locks[o].name, o)
  }

  lemma StepKeeps(locks: map<string, Config>, s: System, e: Event, t: real)
    requires e.owner in locks && (e.Claim? ==> e.read <= t)
    requires RowsAreLeases(locks, s) && HoldersOwn(locks, s, t)
    ensures RowsAreLeases(locks, Step(locks, s, e)) && HoldersOwn(locks, Step(locks, s, e), t)
  {
    match e
    case Claim(_, _) => ClaimKeeps(locks, s, e, t);
    case _ =>
  }

  lemma ClaimKeeps(locks: map<string, Config>, s: System, e: Event, t: real)
    requires e.owner in locks && e.Claim? && e.read <= t
    requires RowsAreLeases(locks, s) && HoldersOwn(locks, s, t)
    ensures RowsAreLeases(locks, Step(locks, s, e)) && HoldersOwn(locks, Step(locks, s, e), t)
  {
  }

  lemma {:induction false} RunKeeps(locks: map<string, Config>, run: seq<Event>, t: real)
    requires Possible(locks, run) && ReadBy(run, t)
    ensures RowsAreLeases(locks, After(locks, run)) && HoldersOwn(locks, After(locks, run), t)
  {
    hide Step, RowsAreLeases, HoldersOwn;
    if run != [] {
      RunKeeps(locks, run[..|run|-1], t);
      StepKeeps(locks, After(locks, run[..|run|-1]), run[|run|-1], t);
    } else {
      NothingLeased(locks, t);
    }
  }

  lemma NothingLeased(locks: map<string, Config>, t: real)
    ensures RowsAreLeases(locks, START) && HoldersOwn(locks, START, t)
  {
  }

  /** In every interleaving, at any moment no earlier than what the claims read, an instance whose lease
      has not run out owns the row, with that expiry; the converse holds while the row is unexpired. The
      clocks need not agree, nor go forward. */
  lemma {:induction false} HolderOwnsRow(locks: map<string, Config>, run: seq<Event>, owner: string, t: real)
    requires Possible(locks, run) && ReadBy(run, t) && owner in locks
    ensures var s, name := After(locks, run), locks[owner].name;
      Holds(s, owner, t) <==> Owns(s.rows, name, owner) && !Expired(s.rows[name].expires, t)
  {
    hide After;
    RunKeeps(locks, run, t);
  }

  /** Two instances never hold unexpired leases of one name together. */
  lemma MutualExclusion(locks: map<string, Config>, run: seq<Event>, a: string, b: string, t: real)
    requires Possible(locks, run) && ReadBy(run, t)
    requires a in locks && b in locks && a != b && locks[a].name == locks[b].name
    ensures !(Holds(After(locks, run), a, t) && Holds(After(locks, run), b, t))
  {
    hide After;
    HolderOwnsRow(locks, run, a, t);
    HolderOwnsRow(locks, run, b, t);
  }

  /** A claim whose clock runs ahead takes a lease that, by the holder's own clock, has time left: before
      the reading of a granted claim two instances can hold one. */
  lemma ClockAheadSharesLease(a: string, b: string, name: string)
    requires a != b
    ensures var locks := map[a := Config(name, Some(10.0)), b := Config(name, Some(10.0))];
      var run := [Claim(a, 0.0), Claim(b, 20.0)];
      Possible(locks, run) && Holds(After(locks, run), a, 5.0) && Holds(After(locks, run), b, 5.0)
  {
    var locks := map[a := Config(name, Some(10.0)), b := Config(name, Some(10.0))];
    TwoClaims(locks, a, b, 0.0, 20.0);
  }

  lemma TwoClaims(locks: map<string, Config>, a: string, b: string, x: real, y: real)
    requires a in locks && b in locks && a != b && locks[a].name == locks[b].name
    requires locks[a].ttl.Some? && x + locks[a].ttl.value <= y
    ensures var run := [Claim(a, x), Claim(b, y)];
      Possible(locks, run) && After(locks, run).leases == map[a := Until(x, locks[a].ttl), b := Until(y, locks[b].ttl)]
  {
    var run := [Claim(a, x), Claim(b, y)];
    assert run[..1] == [Claim(a, x)] && run[..1][..0] == [];
    assert After(locks, run[..0]) == START;
    assert After(locks, run[..1]) == Step(locks, After(locks, run[..0]), run[0]);
    assert After(locks, run) == Step(locks, After(locks, run[..1]), run[1]);
  }

  // ---------------------------------------------------------------- how long a lease lasts

  /** A granted lease lasts its `ttl` from the reading of the claim, and without one for good. */
  lemma {:induction false} GrantedLasts(locks: map<string, Config>, run: seq<Event>, o: string, read: real, u: real)
    requires Possible(locks, run) && o in locks && Grants(locks, After(locks, run), Claim(o, read))
    ensures Holds(Step(locks, After(locks, run), Claim(o, read)), o, u)
      <==> locks[o].ttl.None? || u < read + locks[o].ttl.value
  {
    hide After;
  }

  /** A refresh by the owner of the row starts the `ttl` anew, from its own reading. */
  lemma {:induction false} RefreshLasts(locks: map<string, Config>, run: seq<Event>, o: string, read: real, u: real)
    requires Possible(locks, run) && o in locks && locks[o].ttl.Some? && o in After(locks, run).held
    requires Owns(After(locks, run).rows, locks[o].name, o)
    ensures Holds(Step(locks, After(locks, run), Refresh(o, read)), o, u) <==> u < read + locks[o].ttl.value
  {
    HeldKept(locks, run, o);
    hide After;
  }

  /** Nothing in `more` ends the lease of `o`: every claim of the name reads less than its `ttl` after `read`,
      and `o` itself does not release it or read less for a refresh. */
  ghost predicate Undisturbed(locks: map<string, Config>, more: seq<Event>, o: string, read: real)
    requires o in locks && forall i :: 0 <= i < |more| ==> more[i].owner in locks
  {
    forall i :: 0 <= i < |more| ==>
      match more[i]
      case Claim(x, r) => locks[x].name == locks[o].name && locks[o].ttl.Some? ==> r < read + locks[o].ttl.value
      case Refresh(x, r) => x == o ==> r >= read
      case Release(x) => x != o
      case _ => true
  }

  /** The row is that of `o`, and lasts at least its `ttl` from `read`. */
  ghost predicate Kept(locks: map<string, Config>, s: System, o: string, read: real)
    requires o in locks
  {
    var name, ttl := locks[o].name, locks[o].ttl;
    Owns(s.rows, name, o)
    && if ttl.None? then s.rows[name].expires == None
       else s.rows[name].expires.Some? && s.rows[name].expires.value >= read + ttl.value
  }

  lemma {:induction false} KeepsLease(locks: map<string, Config>, s: System, e: Event, o: string, read: real)
    requires o in locks && e.owner in locks && Kept(locks, s, o, read) && Undisturbed(locks, [e], o, read)
    ensures Kept(locks, Step(locks, s, e), o, read)
  {
    assert [e][0] == e;
  }

  /** Until then the row stays, whatever else happens, and every claim of the name that reads less is refused;
      without a `ttl`, every claim. */
  lemma {:induction false} RefusedMeanwhile(locks: map<string, Config>, run: seq<Event>, o: string, read: real,
                                            more: seq<Event>, x: string, r: real)
    requires Possible(locks, run) && Possible(locks, more) && o in locks && x in locks
    requires Grants(locks, After(locks, run), Claim(o, read)) && Undisturbed(locks, more, o, read)
    requires locks[x].name == locks[o].name && (locks[o].ttl.Some? ==> r < read + locks[o].ttl.value)
    ensures Possible(locks, run + [Claim(o, read)] + more)
    ensures var s := After(locks, run + [Claim(o, read)] + more);
      Owns(s.rows, locks[o].name, o) && !Grants(locks, s, Claim(x, r))
  {
    StaysKept(locks, run, o, read, more);
    hide After;
  }

  lemma {:induction false} StaysKept(locks: map<string, Config>, run: seq<Event>, o: string, read: real,
                                     more: seq<Event>)
    requires Possible(locks, run) && Possible(locks, more) && o in locks
    requires Grants(locks, After(locks, run), Claim(o, read)) && Undisturbed(locks, more, o, read)
    ensures Possible(locks, run + [Claim(o, read)] + more)
    ensures Kept(locks, After(locks, run + [Claim(o, read)] + more), o, read)
    decreases |more|
  {
    hide Step, Kept, Grants, After;
    var all := run + [Claim(o, read)] + more;
    if more == [] {
      Next(locks, run, Claim(o, read));
      assert all == run + [Claim(o, read)];
      StartsKept(locks, After(locks, run), o, read);
    } else {
      var init, last := more[..|more|-1], more[|more|-1];
      StaysKept(locks, run, o, read, init);
      assert all == run + [Claim(o, read)] + init + [last];
      Next(locks, run + [Claim(o, read)] + init, last);
      assert [last][0] == last;
      KeepsLease(locks, After(locks, run + [Claim(o, read)] + init), last, o, read);
    }
  }

  lemma StartsKept(locks: map<string, Config>, s: System, o: string, read: real)
    requires o in locks && Grants(locks, s, Claim(o, read))
    ensures Kept(locks, Step(locks, s, Claim(o, read)), o, read)
  {
  }

  /** A claim that is granted finds every lease of the name run out; one that is refused, for an instance
      that holds none, finds a lease that had not run out when the clock was read. */
  lemma ClaimSeesLeases(locks: map<string, Config>, run: seq<Event>, e: Event, t: real)
    requires Possible(locks, run) && ReadBy(run, t) && e.owner in locks && e.Claim? && e.read <= t
    requires e.owner !in After(locks, run).leases && e.owner !in After(locks, run).held
    ensures var s, name := After(locks, run), locks[e.owner].name;
      && (Grants(locks, s, e) ==> forall o :: o in locks && locks[o].name == name ==> !Holds(s, o, t))
      && (!Grants(locks, s, e) ==> exists o :: o in locks && locks[o].name == name && Holds(s, o, e.read))
  {
    var s, name := After(locks, run), locks[e.owner].name;
    RunKeeps(locks, run, t);
    hide After;
    if Grants(locks, s, e) {
      forall o | o in locks && locks[o].name == name ensures !Holds(s, o, t) {
        HolderOwnsRow(locks, run, o, t);
      }
    } else {
      var o := s.rows[name].owner;
      assert o in locks && locks[o].name == name && Holds(s, o, e.read);
    }
  }

  /** Refreshing or releasing, with a lost lease or not, leaves every other instance's row and lease alone. */
  lemma {:induction false} OthersAreUntouched(locks: map<string, Config>, run: seq<Event>, e: Event,
                                                   other: string, t: real)
    requires Possible(locks, run) && e.owner in locks && (e.Refresh? || e.Release?)
    requires other in locks && other != e.owner
    ensures var s, r := After(locks, run), Step(locks, After(locks, run), e);
      && Holds(r, other, t) == Holds(s, other, t)
      && (forall n :: Owns(r.rows, n, other) <==> Owns(s.rows, n, other))
      && (forall n :: Owns(s.rows, n, other) ==> r.rows[n] == s.rows[n])
  {
    hide After;
  }

  /** `refresh` documents that it extends the lease by `ttl`: for an instance with `_held` set it does
      exactly if the instance still owns the row; otherwise it changes nothing and says nothing. */
  lemma RefreshExtendsIff(locks: map<string, Config>, run: seq<Event>, owner: string, read: real, t: real)
    requires Possible(locks, run) && ReadBy(run, t) && owner in locks && locks[owner].ttl.Some?
    requires owner in After(locks, run).held && t < read + locks[owner].ttl.value
    ensures Holds(Step(locks, After(locks, run), Refresh(owner, read)), owner, t) <==>
      Owns(After(locks, run).rows, locks[owner].name, owner)
  {
    HolderOwnsRow(locks, run, owner, t);
    hide After;
  }

  // ---------------------------------------------------------------- what `is_held` tells

  /** Whose claim of the name was granted last. */
  function LastGranted(locks: map<string, Config>, run: seq<Event>, name: string): Option<string>
    requires Possible(locks, run)
  {
    if run == [] then None
    else
      var init, last := run[..|run|-1], run[|run|-1];
      if Grants(locks, After(locks, init), last) && locks[last.owner].name == name then Some(last.owner)
      else LastGranted(locks, init, name)
  }

  /** `is_held` tells what the instance last did: one that reports it owns the row exactly if nobody
      else's claim of the name was granted since its own and no release of its own is under way. */
  lemma {:induction false} HeldOwnsIff(locks: map<string, Config>, run: seq<Event>, owner: string)
    requires Possible(locks, run) && owner in locks && owner in After(locks, run).held
    ensures var s, name := After(locks, run), locks[owner].name;
      Owns(s.rows, name, owner) <==> LastGranted(locks, run, name) == Some(owner) && !Releasing(s, owner)
  {
    HeldKept(locks, run, owner);
  }

  lemma {:induction false} HeldKept(locks: map<string, Config>, run: seq<Event>, owner: string)
    requires Possible(locks, run) && owner in locks
    ensures var s, name := After(locks, run), locks[owner].name;
      && (Owns(s.rows, name, owner) ==> LastGranted(locks, run, name) == Some(owner) && owner in s.leases)
      && (owner in s.leases && LastGranted(locks, run, name) == Some(owner) ==> Owns(s.rows, name, owner))
      && (owner in s.leases ==> (s.leases[owner].Some? <==> locks[owner].ttl.Some?))
      && s.leases.Keys <= locks.Keys
      && forall n :: n in s.rows ==> s.rows[n].owner in locks && locks[s.rows[n].owner].name == n
  {
    if run != [] {
      HeldKept(locks, run[..|run|-1], owner);
    }
  }

  /** Of an instance without a `ttl`, only its own release under way can make the report wrong. */
  lemma {:induction false} WithoutTtlHeldOwnsIff(locks: map<string, Config>, run: seq<Event>, owner: string)
    requires Possible(locks, run) && owner in locks && locks[owner].ttl.None? && owner in After(locks, run).held
    ensures var s := After(locks, run); Owns(s.rows, locks[owner].name, owner) <==> !Releasing(s, owner)
  {
    var t := Latest(run);
    HeldKept(locks, run, owner);
    HolderOwnsRow(locks, run, owner, t);
  }

  /** So two instances without a `ttl` report one name held only while one of them is in a release. */
  lemma {:induction false} TwoWithoutTtl(locks: map<string, Config>, run: seq<Event>, a: string, b: string)
    requires Possible(locks, run) && a in locks && b in locks && a != b && locks[a].name == locks[b].name
    requires locks[a].ttl.None? && locks[b].ttl.None?
    ensures var s := After(locks, run); a in s.held && b in s.held ==> Releasing(s, a) || Releasing(s, b)
  {
    hide After;
    var s := After(locks, run);
    if a in s.held && b in s.held {
      WithoutTtlHeldOwnsIff(locks, run, a);
      WithoutTtlHeldOwnsIff(locks, run, b);
    }
  }

  ghost predicate BothHeld(s: System, a: string, b: string) {
    a in s.held && b in s.held && !Releasing(s, a) && !Releasing(s, b)
  }

  /** With no release under way, two instances can report one name held exactly if the lease of one of them
      can run out. */
  lemma {:induction false} TwoReportHeldIff(locks: map<string, Config>, a: string, b: string)
    requires a in locks && b in locks && a != b && locks[a].name == locks[b].name
    ensures (exists run :: Possible(locks, run) && BothHeld(After(locks, run), a, b))
      <==> locks[a].ttl.Some? || locks[b].ttl.Some?
  {
    if run :| Possible(locks, run) && BothHeld(After(locks, run), a, b) {
      if locks[a].ttl.None? && locks[b].ttl.None? { TwoWithoutTtl(locks, run, a, b); }
    }
    if locks[a].ttl.Some? {
      TwoHeld(locks, a, b, locks[a].ttl.value);
    } else if locks[b].ttl.Some? {
      TwoHeld(locks, b, a, locks[b].ttl.value);
    }
  }

  lemma {:induction false} Next(locks: map<string, Config>, run: seq<Event>, e: Event)
    requires Possible(locks, run) && e.owner in locks
    ensures Possible(locks, run + [e]) && After(locks, run + [e]) == Step(locks, After(locks, run), e)
  {
    assert (run + [e])[..|run|] == run;
  }

  lemma {:induction false} TwoHeld(locks: map<string, Config>, a: string, b: string, y: real)
    requires a in locks && b in locks && a != b && locks[a].name == locks[b].name
    requires locks[a].ttl.Some? && locks[a].ttl.value <= y
    ensures exists run :: Possible(locks, run) && BothHeld(After(locks, run), a, b)
  {
    TwoClaims(locks, a, b, 0.0, y);
    var run := [Claim(a, 0.0), Claim(b, y)];
    Next(locks, run, SetHeld(a));
    Next(locks, run + [SetHeld(a)], SetHeld(b));
    var all := run + [SetHeld(a)] + [SetHeld(b)];
    assert BothHeld(After(locks, all), a, b);
  }

  /** `release` deletes the row before it clears `_held`. In between the instance reports a name held of
      which it owns no row, and to which nobody else was granted; and once another is, both report it. */
  lemma {:induction false} ReleaseStillReports(a: string, b: string, name: string)
    requires a != b
    ensures var locks := map[a := Config(name, None), b := Config(name, None)];
      var run := [Claim(a, 0.0), SetHeld(a), Release(a)];
      var more := run + [Claim(b, 0.0), SetHeld(b)];
      && Possible(locks, run) && Possible(locks, more)
      && a in After(locks, run).held && name !in After(locks, run).rows
      && LastGranted(locks, run, name) == Some(a)
      && a in After(locks, more).held && b in After(locks, more).held
  {
    var locks := map[a := Config(name, None), b := Config(name, None)];
    var claim, setHeld, release := Claim(a, 0.0), SetHeld(a), Release(a);
    Next(locks, [], claim);
    Next(locks, [claim], setHeld);
    Next(locks, [claim, setHeld], release);
    var run := [claim, setHeld, release];
    assert [] + [claim] == [claim] && [claim] + [setHeld] == [claim, setHeld] && [claim, setHeld] + [release] == run;
    FirstGranted(locks, run, a);
    Next(locks, run, Claim(b, 0.0));
    Next(locks, run + [Claim(b, 0.0)], SetHeld(b));
    assert run + [Claim(b, 0.0)] + [SetHeld(b)] == run + [Claim(b, 0.0), SetHeld(b)];
  }

  lemma {:induction false} FirstGranted(locks: map<string, Config>, run: seq<Event>, a: string)
    requires run == [Claim(a, 0.0), SetHeld(a), Release(a)] && a in locks
    ensures LastGranted(locks, run, locks[a].name) == Some(a)
  {
    assert run[..2] == [Claim(a, 0.0), SetHeld(a)] && run[..2][..1] == [Claim(a, 0.0)] && run[..2][..1][..0] == [];
    assert After(locks, run[..2][..1][..0]) == START;
    assert LastGranted(locks, run[..2][..1], locks[a].name) == Some(a);
    assert LastGranted(locks, run[..2], locks[a].name) == Some(a);
  }

  lemma {:induction false} Latest(run: seq<Event>) returns (t: real)
    ensures ReadBy(run, t)
  {
    t := 0.0;
    if run != [] {
      t := Latest(run[..|run|-1]);
      var last := run[|run|-1];
      t := if last.Claim? && last.read > t then last.read else t;
    }
  }
}

/** `SQLiteLock`. */
module SqliteLocking {
  import opened Wrappers
  import opened Leases

  class LockTable {
    var rows: Table

    constructor ()
      ensures rows == map[]
    {
      rows := map[];
    }
  }

  datatype Verdict = Granted | AlreadyHeld | TimedOut | Unreachable | Polling

  /** Whether the database can be opened, and then whether the transaction ends in an operational error. */
  datatype Reply = Fine | Busy | Closed

  /** One round of the polling loop: the clock before the transaction, what the transaction finds in the
      table, how the database replies, and the monotonic clock after it. */
  datatype Attempt = Attempt(now: real, rows: Table, reply: Reply, monotonic: real)

  predicate Succeeds(a: Attempt, name: string) {
    a.reply.Fine? && Free(a.rows, name, a.now)
  }

  /** The attempt ends the loop. */
  predicate Ends(a: Attempt, name: string, deadline: Option<real>) {
    Succeeds(a, name) || a.reply.Closed? || (deadline.Some? && a.monotonic >= deadline.value)
  }

  /** How the loop ends with an attempt that ends it. */
  function EndsWith(a: Attempt, name: string): Verdict {
    if a.reply.Closed? then Unreachable else if Succeeds(a, name) then Granted else TimedOut
  }

  ghost predicate NoneEnds(attempts: seq<Attempt>, name: string, deadline: Option<real>) {
    forall a :: a in attempts ==> !Ends(a, name, deadline)
  }

  ghost predicate EndsFirst(attempts: seq<Attempt>, i: int, name: string, deadline: Option<real>) {
    0 <= i < |attempts| && Ends(attempts[i], name, deadline) && NoneEnds(attempts[..i], name, deadline)
  }

  /** The table after the attempt. */
  function Left(a: Attempt, name: string, owner: string, ttl: Option<real>): Table {
    if Succeeds(a, name) then Claimed(a.rows, name, owner, ttl, a.now) else a.rows
  }

  /** One attempt: it finds no row of the name or one that has run out, and leaves its own with what the clock
      read and what that gives with the `ttl`; or it leaves the table alone. */
  lemma LeftBy(a: Attempt, name: string, owner: string, ttl: Option<real>, deadline: Option<real>)
    ensures var free := name in a.rows ==> a.rows[name].expires.Some? && a.rows[name].expires.value <= a.now;
      && (a.reply.Fine? && free ==>
            EndsWith(a, name) == Granted
            && Left(a, name, owner, ttl)
               == a.rows[name := Lease(owner, a.now, if ttl.Some? then Some(a.now + ttl.value) else None)])
      && (a.reply.Fine? && !free ==> EndsWith(a, name) == TimedOut && Left(a, name, owner, ttl) == a.rows)
      && (a.reply.Busy? ==> EndsWith(a, name) == TimedOut && Left(a, name, owner, ttl) == a.rows)
      && (a.reply.Closed? ==> EndsWith(a, name) == Unreachable && Left(a, name, owner, ttl) == a.rows)
      && (Ends(a, name, deadline) <==>
            a.reply.Closed? || (a.reply.Fine? && free) || (deadline.Some? && deadline.value <= a.monotonic))
  {
  }

  class SqliteLock {
    const table: LockTable
    const name: string
    const owner: string
    const timeout: Option<real>
    const ttl: Option<real>
    var held: bool

    constructor (table: LockTable, name: string, owner: string, timeout: Option<real>, ttl: Option<real>)
      requires name != "" && (ttl.Some? ==> ttl.value > 0.0)
      ensures this.table == table && this.name == name && this.owner == owner
      ensures this.timeout == timeout && this.ttl == ttl && !held
    {
      this.table := table;
      this.name := name;
      this.owner := owner;
      this.timeout := timeout;
      this.ttl := ttl;
      held := false;
    }

    /** `_try_claim`; `None` is an error that opening the database raises. */
    method TryClaim(now: real, reply: Reply) returns (r: Option<bool>)
      modifies table
      ensures r.None? <==> reply.Closed?
      ensures r == Some(true) <==>
        reply.Fine? && (name in old(table.rows) ==>
          old(table.rows)[name].expires.Some? && old(table.rows)[name].expires.value <= now)
      ensures r == Some(true) ==>
        table.rows == old(table.rows)[name := Lease(owner, now, if ttl.Some? then Some(now + ttl.value) else None)]
      ensures r != Some(true) ==> table.rows == old(table.rows)
    {
      if reply.Closed? {
        return None;
      }
      if reply.Busy? {
        return Some(false);
      }
      var expires := if ttl.Some? then Some(now + ttl.value) else None;
      if name in table.rows {
        var until := table.rows[name].expires;
        if until.None? || until.value > now {
          return Some(false);
        }
      }
      table.rows := table.rows[name := Lease(owner, now, expires)];
      return Some(true);
    }

    /** `acquire`, over the attempts it makes: the first that succeeds grants the lease, and the first
        that cannot open the database, or that fails past the deadline, ends it. */
    method Acquire(start: real, attempts: seq<Attempt>) returns (r: Verdict)
      modifies `held, table
      ensures old(held) ==> r == AlreadyHeld && held && table.rows == old(table.rows)
      ensures !old(held) ==> r != AlreadyHeld && held == (r == Granted)
      ensures !old(held) ==>
        var deadline := if timeout.Some? then Some(start + timeout.value) else None;
        if r == Polling then NoneEnds(attempts, name, deadline)
        else
          exists i :: EndsFirst(attempts, i, name, deadline)
            && table.rows == Left(attempts[i], name, owner, ttl) && r == EndsWith(attempts[i], name)
    {
      if held {
        return AlreadyHeld;
      }
      var deadline := DeadlineFrom(start);
      for i := 0 to |attempts|
        invariant !held
        invariant NoneEnds(attempts[..i], name, deadline)
      {
        var attempt := attempts[i];
        assert attempts[..i+1] == attempts[..i] + [attempt];
        table.rows := attempt.rows;
        var claimed := TryClaim(attempt.now, attempt.reply);
        assert Ends(attempt, name, deadline) ==> EndsFirst(attempts, i, name, deadline);
        if claimed.None? {
          return Unreachable;
        }
        if claimed.value {
          held := true;
          return Granted;
        }
        if deadline.Some? && attempt.monotonic >= deadline.value {
          return TimedOut;
        }
      }
      assert attempts[..|attempts|] == attempts;
      return Polling;
    }

    function DeadlineFrom(start: real): Option<real> {
      if timeout.Some? then Some(start + timeout.value) else None
    }

    /** The transaction of `release`. */
    method DeleteRow()
      modifies table
      ensures table.rows == Released(old(table.rows), name, owner)
      ensures table.rows ==
        if name in old(table.rows) && old(table.rows)[name].owner == owner then old(table.rows) - {name}
        else old(table.rows)
    {
      if name in table.rows && table.rows[name].owner == owner {
        table.rows := table.rows - {name};
      }
    }

    /** `release`; `None` is a database error, which leaves all as it was. It clears `_held` only after its
        transaction, which leaves `deleted`; by then others have made `meanwhile` of the table. */
    method ReleaseLease(busy: bool, meanwhile: Table) returns (r: Option<()>, deleted: Table)
      modifies `held, table
      ensures r.None? <==> old(held) && busy
      ensures old(held) && !busy ==>
        !held && table.rows == meanwhile
        && deleted == if name in old(table.rows) && old(table.rows)[name].owner == owner then old(table.rows) - {name}
                      else old(table.rows)
      ensures !(old(held) && !busy) ==> held == old(held) && deleted == table.rows == old(table.rows)
    {
      deleted := table.rows;
      if !held {
        return Some(()), deleted;
      }
      if busy {
        return None, deleted;
      }
      DeleteRow();
      deleted := table.rows;
      table.rows := meanwhile;
      held := false;
      return Some(()), deleted;
    }

    /** `refresh`; `None` is a database error, which leaves all as it was. */
    method RefreshLease(now: real, busy: bool) returns (r: Option<()>)
      modifies table
      ensures r.None? <==> old(held) && ttl.Some? && busy
      ensures r.None? ==> table.rows == old(table.rows)
      ensures r.Some? ==>
        table.rows ==
        if old(held) && ttl.Some? && name in old(table.rows) && old(table.rows)[name].owner == owner
        then old(table.rows)[name := old(table.rows)[name].(expires := Some(now + ttl.value))]
        else old(table.rows)
    {
      if ttl.None? || !held {
        return Some(());
      }
      if busy {
        return None;
      }
      if name in table.rows && table.rows[name].owner == owner {
        table.rows := table.rows[name := table.rows[name].(expires := Some(now + ttl.value))];
      }
      return Some(());
    }
  }
}
