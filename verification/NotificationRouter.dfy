/** What replacing the routes of one origin does. */
module RouterSync {
  import opened Collections
  import opened Wrappers
  import opened RouterModel
  import opened RouterMemory

  ghost predicate Named(wanted: seq<Route>, n: string) {
    exists i :: 0 <= i < |wanted| && wanted[i].name == n
  }

  function Names(wanted: seq<Route>): set<string> {
    set i | 0 <= i < |wanted| :: wanted[i].name
  }

  function Stale(s: Router, names: set<string>, origin: string): set<string> {
    set n | n in s.routes && s.routes[n].origin == origin && n !in names
  }

  /** `_drop` for every name of a set. */
  function DropAll(s: Router, names: set<string>): Router {
    WithSeen(s, OtherSeen(s.seen, names)).(sent := OtherSent(s.sent, names), routes := s.routes - names)
  }

  function PutAll(s: Router, wanted: seq<Route>, origin: string): Router {
    if wanted == [] then s else Put(PutAll(s, wanted[..|wanted|-1], origin), wanted[|wanted|-1], origin)
  }

  /** The state that `sync_routes` leaves. */
  function Synced(s: Router, wanted: seq<Route>, origin: string): Router {
    PutAll(DropAll(s, Stale(s, Names(wanted), origin)), wanted, origin)
  }

  lemma {:induction false} KeptTwice(order: seq<SeenKey>, a: set<SeenKey>, b: set<SeenKey>)
    requires b <= a
    ensures Kept(Kept(order, a), b) == Kept(order, b)
  {
    if order != [] {
      var init, last := order[..|order|-1], order[|order|-1];
      KeptTwice(init, a, b);
      if last in a { assert (Kept(init, a) + [last])[..|Kept(init, a)|] == Kept(init, a); }
    }
  }

  lemma {:induction false} KeptWhole(order: seq<SeenKey>, keys: set<SeenKey>)
    requires forall k :: k in order ==> k in keys
    ensures Kept(order, keys) == order
  {
    if order != [] {
      KeptWhole(order[..|order|-1], keys);
    }
  }

  /** The keys of other routes than the named ones. */
  function OtherSeen(seen: map<SeenKey, real>, names: set<string>): map<SeenKey, real> {
    map k | k in seen && k.route !in names :: seen[k]
  }

  function OtherSent(sent: map<SentKey, seq<real>>, names: set<string>): map<SentKey, seq<real>> {
    map k | k in sent && k.route !in names :: sent[k]
  }

  lemma OthersOfNone(seen: map<SeenKey, real>, sent: map<SentKey, seq<real>>)
    ensures OtherSeen(seen, {}) == seen && OtherSent(sent, {}) == sent
  {
  }

  lemma OthersOfOneMore(seen: map<SeenKey, real>, sent: map<SentKey, seq<real>>, names: set<string>, n: string)
    ensures OtherSeen(OtherSeen(seen, names), {n}) == OtherSeen(seen, names + {n})
    ensures OtherSent(OtherSent(sent, names), {n}) == OtherSent(sent, names + {n})
  {
  }

  lemma DropIsDropAll(s: Router, n: string)
    ensures Drop(s, n) == DropAll(s, {n})
  {
    hide Kept;
    assert (map k | k in s.seen && k.route != n :: s.seen[k]) == OtherSeen(s.seen, {n});
    assert (map k | k in s.sent && k.route != n :: s.sent[k]) == OtherSent(s.sent, {n});
  }

  lemma DropNone(s: Router)
    requires Listed(s)
    ensures DropAll(s, {}) == s
  {
    hide Kept, OtherSeen, OtherSent, Distinct;
    OthersOfNone(s.seen, s.sent);
    KeptWhole(s.order, s.seen.Keys);
    assert s.routes - {} == s.routes;
  }

  lemma DropOneMore(s: Router, names: set<string>, n: string)
    ensures Drop(DropAll(s, names), n) == DropAll(s, names + {n})
  {
    hide Kept, OtherSeen, OtherSent, Drop;
    OthersOfOneMore(s.seen, s.sent, names, n);
    var r := DropAll(s, names);
    DropIsDropAll(r, n);
    assert s.routes - names - {n} == s.routes - (names + {n});
    OthersAreFewer(r.seen, {n});
    KeptTwice(s.order, r.seen.Keys, OtherSeen(r.seen, {n}).Keys);
  }

  lemma OthersAreFewer(seen: map<SeenKey, real>, names: set<string>)
    ensures OtherSeen(seen, names).Keys <= seen.Keys
  {
  }

  /** The route that the last of the wanted ones called `n` is. */
  function LastNamed(wanted: seq<Route>, n: string): Option<Route> {
    if wanted == [] then None
    else if wanted[|wanted|-1].name == n then Some(wanted[|wanted|-1])
    else LastNamed(wanted[..|wanted|-1], n)
  }

  lemma {:induction false} LastNamedIff(wanted: seq<Route>, n: string)
    ensures LastNamed(wanted, n).Some? <==> Named(wanted, n)
    ensures n in Names(wanted) <==> Named(wanted, n)
  {
    if wanted != [] {
      var init := wanted[..|wanted|-1];
      LastNamedIff(init, n);
      if Named(init, n) {
        var i :| 0 <= i < |init| && init[i].name == n;
        assert wanted[i].name == n;
      }
      if Named(wanted, n) && wanted[|wanted|-1].name != n {
        var i :| 0 <= i < |wanted| && wanted[i].name == n;
        assert init[i].name == n;
      }
    }
  }

  lemma PutRoutes(s: Router, route: Route, origin: string)
    ensures Put(s, route, origin).routes == s.routes[route.name := Registered(route, origin)]
  {
    hide Forget;
  }

  lemma {:induction false} PutAllRoutes(s: Router, wanted: seq<Route>, origin: string, n: string)
    ensures var r := PutAll(s, wanted, origin);
      if LastNamed(wanted, n).Some? then n in r.routes && r.routes[n] == Registered(LastNamed(wanted, n).value, origin)
      else (n in r.routes <==> n in s.routes) && (n in r.routes ==> r.routes[n] == s.routes[n])
  {
    hide Put;
    if wanted != [] {
      var init := wanted[..|wanted|-1];
      PutAllRoutes(s, init, origin, n);
      PutRoutes(PutAll(s, init, origin), wanted[|wanted|-1], origin);
    }
  }

  /** `sync_routes` makes the wanted routes all there are of the origin. A route of another origin stays
      exactly if no wanted route has its name; else it is replaced and its origin with it. */
  lemma SyncIff(s: Router, wanted: seq<Route>, origin: string, n: string)
    ensures var r := Synced(s, wanted, origin);
      && (Named(wanted, n) ==>
            n in r.routes && Some(r.routes[n].route) == LastNamed(wanted, n) && r.routes[n].origin == origin)
      && (!Named(wanted, n) ==> (n in r.routes <==> n in s.routes && s.routes[n].origin != origin))
      && (!Named(wanted, n) && n in r.routes ==> r.routes[n] == s.routes[n])
  {
    hide PutAll, WithSeen, Named;
    LastNamedIff(wanted, n);
    var stale := Stale(s, Names(wanted), origin);
    PutAllRoutes(DropAll(s, stale), wanted, origin, n);
  }

  /** For instance, a route that was added by hand goes when one of the same name is loaded, and the next load
      without that name takes this one away too. */
  lemma SyncTakesOver(mine: Route, loaded: Route)
    requires mine.name == loaded.name
    ensures var s := Put(EMPTY, mine, "");
      var r := Synced(s, [loaded], "file");
      && s.routes[mine.name] == Registered(mine, "") && r.routes[mine.name] == Registered(loaded, "file")
      && mine.name !in Synced(r, [], "file").routes
  {
    hide Synced, LastNamed;
    var s := Put(EMPTY, mine, "");
    PutRoutes(EMPTY, mine, "");
    assert [loaded][0].name == mine.name && Named([loaded], mine.name);
    SyncIff(s, [loaded], "file", mine.name);
    LastOfOne(loaded);
    SyncIff(Synced(s, [loaded], "file"), [], "file", mine.name);
  }

  lemma LastOfOne(route: Route)
    ensures LastNamed([route], route.name) == Some(route)
  {
  }

  lemma PutSeen(s: Router, route: Route, origin: string, key: SeenKey)
    ensures IsRoute(s, route) || key.route != route.name ==>
      (key in Put(s, route, origin).seen <==> key in s.seen)
      && (key in s.seen ==> Put(s, route, origin).seen[key] == s.seen[key])
  {
    hide Forget;
    ForgetSeen(s, route.name, key);
  }

  lemma {:induction false} PutAllSeen(s: Router, wanted: seq<Route>, origin: string, key: SeenKey, route: Route)
    requires key.route == route.name && IsRoute(s, route)
    requires forall i :: 0 <= i < |wanted| && wanted[i].name == route.name ==> wanted[i] == route
    ensures var r := PutAll(s, wanted, origin);
      IsRoute(r, route) && (key in r.seen <==> key in s.seen) && (key in s.seen ==> r.seen[key] == s.seen[key])
  {
    hide Put;
    if wanted != [] {
      var init, last := wanted[..|wanted|-1], wanted[|wanted|-1];
      assert forall i :: 0 <= i < |init| ==> init[i] == wanted[i];
      PutAllSeen(s, init, origin, key, route);
      PutRoutes(PutAll(s, init, origin), last, origin);
      PutSeen(PutAll(s, init, origin), last, origin, key);
    }
  }

  /** Loading the same route again keeps what was remembered of its messages: a reload lets no repeat through. */
  lemma SyncKeepsMemory(s: Router, wanted: seq<Route>, origin: string, key: SeenKey, route: Route)
    requires key.route == route.name && IsRoute(s, route) && Named(wanted, route.name)
    requires forall i :: 0 <= i < |wanted| && wanted[i].name == route.name ==> wanted[i] == route
    ensures var r := Synced(s, wanted, origin);
      IsRoute(r, route) && (key in r.seen <==> key in s.seen) && (key in s.seen ==> r.seen[key] == s.seen[key])
  {
    hide PutAll, Kept, Named;
    LastNamedIff(wanted, route.name);
    var stale := Stale(s, Names(wanted), origin);
    var r := DropAll(s, stale);
    assert route.name !in stale;
    PutAllSeen(r, wanted, origin, key, route);
  }
}

/** How one event is delivered along its matching routes. */
module RouterDelivery {
  import opened RouterModel

  /** What `handle` reports per sink. */
  datatype Outcome = Sent | Repeated | Limited | Error(message: string)

  predicate Throttled(o: Outcome) {
    o.Repeated? || o.Limited?
  }

  /** A matching route and one of its sinks, in the order `handle` goes through them. */
  datatype Pair = Pair(route: Route, sink: string)

  /** `sends` are the pairs along which the event was given to the manager, by index. */
  datatype Delivery = Delivery(state: Router, outcomes: map<string, Outcome>, sends: seq<nat>)

  function SinksOf(route: Route, registered: seq<string>): seq<string> {
    if route.sinks == [] then registered else route.sinks
  }

  function PairsOf(route: Route, sinks: seq<string>): seq<Pair> {
    seq(|sinks|, j requires 0 <= j < |sinks| => Pair(route, sinks[j]))
  }

  function AllPairs(matching: seq<Route>, registered: seq<string>): seq<Pair> {
    if matching == [] then []
    else
      var last := matching[|matching|-1];
      AllPairs(matching[..|matching|-1], registered) + PairsOf(last, SinksOf(last, registered))
  }

  // ---------------------------------------------------------------- which sinks, and in what order

  /** The route names the sink, or names none and the sink is registered. */
  predicate Serves(route: Route, registered: seq<string>, sink: string) {
    if route.sinks == [] then sink in registered else sink in route.sinks
  }

  /** How many pairs come before those of route `i`. */
  function Before(matching: seq<Route>, registered: seq<string>, i: nat): nat
    requires i <= |matching|
  {
    if i == 0 then 0
    else
      Before(matching, registered, i - 1)
      + if matching[i-1].sinks == [] then |registered| else |matching[i-1].sinks|
  }

  /** The pairs come route by route as the routes match, and for each in the order of its sinks, or if it names
      none in the order in which they are registered. */
  ghost predicate IsListing(pairs: seq<Pair>, matching: seq<Route>, registered: seq<string>) {
    && |pairs| == Before(matching, registered, |matching|)
    && forall i :: 0 <= i < |matching| ==> ListedAt(pairs, matching[i], registered, Before(matching, registered, i))
  }

  ghost predicate ListedAt(pairs: seq<Pair>, route: Route, registered: seq<string>, start: nat) {
    if route.sinks == [] then
      start + |registered| <= |pairs|
      && forall j :: 0 <= j < |registered| ==> pairs[start + j] == Pair(route, registered[j])
    else
      start + |route.sinks| <= |pairs|
      && forall j :: 0 <= j < |route.sinks| ==> pairs[start + j] == Pair(route, route.sinks[j])
  }

  lemma {:induction false} PairsAreListed(matching: seq<Route>, registered: seq<string>)
    ensures IsListing(AllPairs(matching, registered), matching, registered)
  {
    hide *;
    if matching != [] {
      var n := |matching| - 1;
      var init, last := matching[..n], matching[n];
      var head, own := AllPairs(init, registered), PairsOf(last, SinksOf(last, registered));
      PairsAreListed(init, registered);
      ListingParts(matching, registered);
      forall i | 0 <= i < |matching|
        ensures ListedAt(head + own, matching[i], registered, Before(matching, registered, i))
      {
        BeforeOf(matching, registered, i);
        if i < n {
          ListingAt(head, init, registered, i);
          StaysListed(head, own, init[i], registered, Before(init, registered, i));
        } else {
          OwnListed(head, last, registered);
        }
      }
      IsListingOf(head + own, matching, registered);
    } else {
      NothingListed(registered);
    }
  }

  lemma NothingListed(registered: seq<string>)
    ensures IsListing(AllPairs([], registered), [], registered)
  {
  }

  lemma ListingAt(pairs: seq<Pair>, matching: seq<Route>, registered: seq<string>, i: nat)
    requires IsListing(pairs, matching, registered)
    ensures |pairs| == Before(matching, registered, |matching|)
    ensures i < |matching| ==> ListedAt(pairs, matching[i], registered, Before(matching, registered, i))
  {
    hide ListedAt;
  }

  lemma IsListingOf(pairs: seq<Pair>, matching: seq<Route>, registered: seq<string>)
    requires |pairs| == Before(matching, registered, |matching|)
    requires forall i :: 0 <= i < |matching| ==>
      ListedAt(pairs, matching[i], registered, Before(matching, registered, i))
    ensures IsListing(pairs, matching, registered)
  {
    hide ListedAt;
  }

  /** What the last route adds. */
  lemma ListingParts(matching: seq<Route>, registered: seq<string>)
    requires matching != []
    requires var init := matching[..|matching|-1]; IsListing(AllPairs(init, registered), init, registered)
    ensures var n := |matching| - 1;
      var head, own := AllPairs(matching[..n], registered), PairsOf(matching[n], SinksOf(matching[n], registered));
      && AllPairs(matching, registered) == head + own && |head| == Before(matching, registered, n)
      && |head + own| == Before(matching, registered, |matching|)
  {
    hide *;
    var n := |matching| - 1;
    var init := matching[..n];
    ListingAt(AllPairs(init, registered), init, registered, n);
    BeforeInit(matching, registered);
    LastPairs(matching, registered);
  }

  lemma BeforeInit(matching: seq<Route>, registered: seq<string>)
    requires matching != []
    ensures var n := |matching| - 1; Before(matching[..n], registered, n) == Before(matching, registered, n)
  {
    var n := |matching| - 1;
    if n > 0 { BeforeOf(matching, registered, n - 1); }
  }

  lemma LastPairs(matching: seq<Route>, registered: seq<string>)
    requires matching != []
    ensures var n := |matching| - 1;
      var own := PairsOf(matching[n], SinksOf(matching[n], registered));
      && AllPairs(matching, registered) == AllPairs(matching[..n], registered) + own
      && Before(matching, registered, |matching|) == Before(matching, registered, n) + |own|
  {
  }

  lemma {:induction false} BeforeOf(matching: seq<Route>, registered: seq<string>, i: nat)
    requires i < |matching|
    ensures Before(matching[..|matching|-1], registered, i) == Before(matching, registered, i)
    ensures i < |matching| - 1 ==> matching[..|matching|-1][i] == matching[i]
  {
    if i > 0 { BeforeOf(matching, registered, i - 1); }
  }

  lemma StaysListed(head: seq<Pair>, own: seq<Pair>, route: Route, registered: seq<string>, start: nat)
    requires ListedAt(head, route, registered, start)
    ensures ListedAt(head + own, route, registered, start)
  {
  }

  lemma OwnListed(head: seq<Pair>, route: Route, registered: seq<string>)
    ensures ListedAt(head + PairsOf(route, SinksOf(route, registered)), route, registered, |head|)
  {
  }

  /** Some pair goes to the sink exactly if some matching route serves it. */
  lemma {:induction false} SinkListedIff(matching: seq<Route>, registered: seq<string>, sink: string)
    ensures (exists k :: 0 <= k < |AllPairs(matching, registered)| && AllPairs(matching, registered)[k].sink == sink)
      <==> exists i :: 0 <= i < |matching| && Serves(matching[i], registered, sink)
  {
    hide Serves;
    if matching != [] {
      var n := |matching| - 1;
      var init, last := matching[..n], matching[n];
      SinkListedIff(init, registered, sink);
      OwnSinkIff(last, registered, sink);
      var head, own := AllPairs(init, registered), PairsOf(last, SinksOf(last, registered));
      assert AllPairs(matching, registered) == head + own;
      assert forall i :: 0 <= i < n ==> init[i] == matching[i];
      SinkInEither(head, own, sink);
    }
  }

  lemma OwnSinkIff(route: Route, registered: seq<string>, sink: string)
    ensures (exists k :: 0 <= k < |PairsOf(route, SinksOf(route, registered))|
               && PairsOf(route, SinksOf(route, registered))[k].sink == sink) <==> Serves(route, registered, sink)
  {
    var sinks, pairs := SinksOf(route, registered), PairsOf(route, SinksOf(route, registered));
    if sink in sinks {
      var k :| 0 <= k < |sinks| && sinks[k] == sink;
      assert pairs[k].sink == sink;
    }
  }

  lemma SinkInEither(a: seq<Pair>, b: seq<Pair>, sink: string)
    ensures (exists k :: 0 <= k < |a + b| && (a + b)[k].sink == sink) <==>
      (exists k :: 0 <= k < |a| && a[k].sink == sink) || (exists k :: 0 <= k < |b| && b[k].sink == sink)
  {
    var c := a + b;
    if k :| 0 <= k < |a| && a[k].sink == sink { assert c[k].sink == sink; }
    if k :| 0 <= k < |b| && b[k].sink == sink { assert c[|a| + k].sink == sink; }
    if k :| 0 <= k < |c| && c[k].sink == sink {
      assert k < |a| ==> a[k].sink == sink;
      assert k >= |a| ==> b[k - |a|].sink == sink;
    }
  }

  function Outcomes(v: Verdict): Outcome
    requires v != Admitted
  {
    if v.Dedup? then Repeated else Limited
  }

  predicate Settled(d: Delivery, sink: string) {
    sink in d.outcomes && !Throttled(d.outcomes[sink])
  }

  /** One round of the loops of `handle`: `now` is the clock if it is read, `result` what sending gives. */
  function Round(d: Delivery, k: nat, p: Pair, event: Event, now: real, result: Outcome): Delivery {
    if Settled(d, p.sink) then d
    else
      var (state, verdict) := Admit(d.state, p.route, p.sink, event, now);
      if verdict.Admitted? then Delivery(state, d.outcomes[p.sink := result], d.sends + [k])
      else if p.sink in d.outcomes then d.(state := state)
      else d.(state := state, outcomes := d.outcomes[p.sink := Outcomes(verdict)])
  }

  function Delivered(s: Router, pairs: seq<Pair>, event: Event, clock: nat -> real, results: nat -> Outcome): Delivery {
    if pairs == [] then Delivery(s, map[], [])
    else
      var k := |pairs| - 1;
      Round(Delivered(s, pairs[..k], event, clock, results), k, pairs[k], event, clock(k), results(k))
  }

  ghost predicate NeverThrottled(results: nat -> Outcome) {
    forall k :: !Throttled(results(k))
  }

  /** The router admits pair `k` when its turn comes. */
  ghost predicate AdmittedAt(s: Router, pairs: seq<Pair>, event: Event, clock: nat -> real,
                             results: nat -> Outcome, k: nat)
    requires k < |pairs|
  {
    var d := Delivered(s, pairs[..k], event, clock, results);
    Admit(d.state, pairs[k].route, pairs[k].sink, event, clock(k)).1.Admitted?
  }

  ghost predicate InRange(sends: seq<nat>, n: nat) {
    forall a :: 0 <= a < |sends| ==> sends[a] < n
  }

  /** No two of the sends go to the sink. */
  ghost predicate OnceTo(sends: seq<nat>, pairs: seq<Pair>, sink: string)
    requires InRange(sends, |pairs|)
  {
    forall a, b :: 0 <= a < b < |sends| ==> pairs[sends[a]].sink != sink || pairs[sends[b]].sink != sink
  }

  /** What is known of a sink once some pairs are through. */
  ghost predicate SinkFacts(d: Delivery, pairs: seq<Pair>, results: nat -> Outcome, sink: string) {
    && InRange(d.sends, |pairs|) && OnceTo(d.sends, pairs, sink)
    && (sink in d.outcomes <==> exists j :: 0 <= j < |pairs| && pairs[j].sink == sink)
    && (Settled(d, sink) <==> exists a :: 0 <= a < |d.sends| && pairs[d.sends[a]].sink == sink)
    && (forall a :: 0 <= a < |d.sends| && pairs[d.sends[a]].sink == sink ==> d.outcomes[sink] == results(d.sends[a]))
  }

  lemma RoundFacts(d: Delivery, pairs: seq<Pair>, event: Event, now: real, results: nat -> Outcome, sink: string)
    requires pairs != [] && SinkFacts(d, pairs[..|pairs|-1], results, sink) && NeverThrottled(results)
    ensures var k := |pairs| - 1; SinkFacts(Round(d, k, pairs[k], event, now, results(k)), pairs, results, sink)
  {
    hide Admit;
    var n := |pairs| - 1;
    var init := pairs[..n];
    var r := Round(d, n, pairs[n], event, now, results(n));
    assert forall j :: 0 <= j < n ==> init[j] == pairs[j];
    assert !Throttled(results(n));
    assert r.sends == d.sends || r.sends == d.sends + [n];
    if sink in d.outcomes {
      var j :| 0 <= j < n && init[j].sink == sink;
      assert pairs[j].sink == sink;
    }
    if Settled(d, sink) {
      var a :| 0 <= a < |d.sends| && init[d.sends[a]].sink == sink;
      assert pairs[r.sends[a]].sink == sink;
    }
    if r.sends == d.sends + [n] {
      assert r.sends[|d.sends|] == n;
    }
  }

  /** A sink reached by several routes gets the event at most once, and its outcome is then what sending
      gave; a sink has an outcome exactly if some matching route reaches it, and a throttled one exactly
      if no route was allowed to send. */
  lemma {:induction false} SinkIsServedOnce(s: Router, pairs: seq<Pair>, event: Event, clock: nat -> real,
                                                 results: nat -> Outcome, sink: string)
    requires NeverThrottled(results)
    ensures SinkFacts(Delivered(s, pairs, event, clock, results), pairs, results, sink)
  {
    hide Round, SinkFacts, NeverThrottled;
    if pairs != [] {
      var n := |pairs| - 1;
      SinkIsServedOnce(s, pairs[..n], event, clock, results, sink);
      RoundFacts(Delivered(s, pairs[..n], event, clock, results), pairs, event, clock(n), results, sink);
    } else {
      NoFacts(s, results, sink);
    }
  }

  lemma NoFacts(s: Router, results: nat -> Outcome, sink: string)
    ensures SinkFacts(Delivery(s, map[], []), [], results, sink)
  {
  }

  lemma SendsInRange(d: Delivery, pairs: seq<Pair>, results: nat -> Outcome, sink: string)
    requires SinkFacts(d, pairs, results, sink)
    ensures InRange(d.sends, |pairs|)
  {
  }

  /** A sink that no route sent to is reported as throttled by the first route that reached it, and as what that
      said: a repeat or over its limit. */
  lemma {:induction false} FirstRefusalStands(s: Router, pairs: seq<Pair>, event: Event, clock: nat -> real,
                                              results: nat -> Outcome, j: nat)
    requires NeverThrottled(results) && j < |pairs| && forall i :: 0 <= i < j ==> pairs[i].sink != pairs[j].sink
    ensures var d := Delivered(s, pairs, event, clock, results);
      var before := Delivered(s, pairs[..j], event, clock, results);
      var verdict := Admit(before.state, pairs[j].route, pairs[j].sink, event, clock(j)).1;
      pairs[j].sink in d.outcomes
      && (!Settled(d, pairs[j].sink) ==>
            (d.outcomes[pairs[j].sink] == Repeated <==> verdict == Dedup)
            && (d.outcomes[pairs[j].sink] == Limited <==> verdict == RateLimited))
    decreases |pairs|
  {
    hide Admit;
    var n := |pairs| - 1;
    var init := pairs[..n];
    assert !Throttled(results(n));
    if j < n {
      FirstRefusalStands(s, init, event, clock, results, j);
      assert init[..j] == pairs[..j] && init[j] == pairs[j];
    } else {
      NotReached(s, init, event, clock, results, pairs[j].sink);
    }
  }

  lemma {:induction false} NotReached(s: Router, pairs: seq<Pair>, event: Event, clock: nat -> real,
                                      results: nat -> Outcome, sink: string)
    requires forall i :: 0 <= i < |pairs| ==> pairs[i].sink != sink
    ensures sink !in Delivered(s, pairs, event, clock, results).outcomes
  {
    hide Admit;
    if pairs != [] { NotReached(s, pairs[..|pairs|-1], event, clock, results, sink); }
  }

  /** The event goes along the first route that is allowed to send to the sink: a pair sends exactly if
      it is admitted when its turn comes and no earlier pair sent to its sink. */
  lemma {:induction false} SendsIff(s: Router, pairs: seq<Pair>, event: Event, clock: nat -> real,
                                         results: nat -> Outcome, k: nat)
    requires NeverThrottled(results) && k < |pairs|
    ensures k in Delivered(s, pairs, event, clock, results).sends <==>
      AdmittedAt(s, pairs, event, clock, results, k)
      && !Settled(Delivered(s, pairs[..k], event, clock, results), pairs[k].sink)
    decreases |pairs|
  {
    hide Admit, SinkFacts, NeverThrottled;
    var n := |pairs| - 1;
    var init := pairs[..n];
    SinkIsServedOnce(s, init, event, clock, results, pairs[n].sink);
    SendsInRange(Delivered(s, init, event, clock, results), init, results, pairs[n].sink);
    if k < n {
      SendsIff(s, init, event, clock, results, k);
      assert init[..k] == pairs[..k] && init[k] == pairs[k];
    }
  }
}

/** `NotificationRouter`. */
module NotificationRouting {
  import opened Wrappers
  import opened RouterModel
  import opened RouterMemory
  import opened RouterSync
  import opened RouterDelivery

  class NotificationRouter {
    var routes: map<string, Registered>
    var seen: map<SeenKey, real>
    var order: seq<SeenKey>
    var sent: map<SentKey, seq<real>>
    var nextPrune: Option<real>

    function State(): Router
      reads this
    {
      Router(routes, seen, order, sent, nextPrune)
    }

    constructor ()
      ensures State() == RouterModel.EMPTY
    {
      routes, seen, order, sent, nextPrune := map[], map[], [], map[], None;
    }

    /** `_prune`. */
    method PruneMemory(now: real)
      modifies `seen, `order, `sent, `nextPrune
      ensures State() == Prune(old(State()), now)
    {
      hide Kept, Oldest;
      if |seen| > MAX_DEDUP_KEYS {
        seen := seen - set k | k in Oldest(order);
        order := Kept(order, seen.Keys);
      }
      if nextPrune.Some? && now < nextPrune.value {
        return;
      }
      nextPrune := Some(now + PRUNE_INTERVAL);
      seen := map k | k in seen && seen[k] > now :: seen[k];
      order := Kept(order, seen.Keys);
      sent := map k | k in sent && sent[k] != [] && k.route in routes :: sent[k];
    }

    /** The loop of `_admit` that takes the times out of the period from the front. */
    static method PopOld(times: seq<real>, cutoff: real) returns (r: seq<real>)
      ensures r == Popped(times, cutoff)
    {
      r := times;
      while r != [] && r[0] <= cutoff
        invariant Popped(r, cutoff) == Popped(times, cutoff)
      {
        r := r[1..];
      }
    }

    /** `_admit`. */
    method AdmitMessage(route: Route, sink: string, event: Event, now: real) returns (verdict: Verdict)
      modifies `seen, `order, `sent, `nextPrune
      ensures (State(), verdict) == Admit(old(State()), route, sink, event, now)
    {
      hide Prune, Popped;
      PruneMemory(now);
      var key := SeenKey(route.name, sink, event);
      if route.dedup > 0.0 && key in seen && seen[key] > now {
        return Dedup;
      }
      if route.limit > 0 {
        var k := SentKey(route.name, sink);
        var times := PopOld(if k in sent then sent[k] else [], now - route.period);
        if |times| >= route.limit {
          sent := sent[k := times];
          return RateLimited;
        }
        sent := sent[k := times + [now]];
      }
      if route.dedup > 0.0 {
        order := if key in seen then order else order + [key];
        seen := seen[key := now + route.dedup];
      }
      return Admitted;
    }

    /** `_forget`. */
    method ForgetRoute(name: string)
      modifies `seen, `order, `sent
      ensures State() == Forget(old(State()), name)
    {
      hide Kept;
      seen := map k | k in seen && k.route != name :: seen[k];
      order := Kept(order, seen.Keys);
      sent := map k | k in sent && k.route != name :: sent[k];
    }

    /** `_put`. */
    method PutRoute(route: Route, origin: string)
      modifies `routes, `seen, `order, `sent
      ensures State() == Put(old(State()), route, origin)
    {
      hide Forget;
      if !(route.name in routes && routes[route.name].route == route) {
        ForgetRoute(route.name);
      }
      routes := routes[route.name := Registered(route, origin)];
    }

    /** `_drop`. */
    method DropRoute(name: string) returns (removed: bool)
      modifies `routes, `seen, `order, `sent
      ensures State() == Drop(old(State()), name) && removed == (name in old(routes))
    {
      hide Forget;
      ForgetRoute(name);
      removed := name in routes;
      routes := routes - {name};
    }

    /** `sync_routes`: how many routes it removed. */
    method SyncRoutes(wanted: seq<Route>, origin: string) returns (removed: nat)
      requires Listed(State())
      modifies `routes, `seen, `order, `sent
      ensures State() == Synced(old(State()), wanted, origin)
      ensures removed == |Stale(old(State()), Names(wanted), origin)|
    {
      hide DropAll, PutAll, Drop, Put, Listed;
      var stale := Stale(State(), Names(wanted), origin);
      var left := stale;
      ghost var s := State();
      DropNone(s);
      assert stale - left == {};
      while left != {}
        invariant left <= stale && State() == DropAll(s, stale - left)
      {
        var name :| name in left;
        ghost var done := stale - left;
        var _ := DropRoute(name);
        DropOneMore(s, done, name);
        left := left - {name};
        assert stale - left == done + {name};
      }
      assert stale - left == stale;
      PutEach(wanted, origin);
      removed := |stale|;
    }

    method PutEach(wanted: seq<Route>, origin: string)
      modifies `routes, `seen, `order, `sent
      ensures State() == PutAll(old(State()), wanted, origin)
    {
      hide Put;
      for i := 0 to |wanted|
        invariant State() == PutAll(old(State()), wanted[..i], origin)
      {
        assert wanted[..i+1][..i] == wanted[..i];
        PutRoute(wanted[i], origin);
      }
      assert wanted[..|wanted|] == wanted;
    }

    /** `handle`, past its check for its own failure reports, when no other caller takes the lock meanwhile.
        `clock` and `results` give, for each pair, the clock if it is read and what sending would give. */
    method Handle(event: Event, matching: seq<Route>, registered: seq<string>, clock: nat -> real,
                  results: nat -> Outcome)
      returns (outcomes: map<string, Outcome>, ghost sends: seq<nat>)
      modifies `seen, `order, `sent, `nextPrune
      ensures Delivery(State(), outcomes, sends) ==
        Delivered(old(State()), AllPairs(matching, registered), event, clock, results)
      ensures IsListing(AllPairs(matching, registered), matching, registered)
      ensures NeverThrottled(results) ==> forall sink ::
        sink in outcomes <==> exists i :: 0 <= i < |matching| && Serves(matching[i], registered, sink)
    {
      hide Admit, Delivered, AllPairs, Serves, IsListing, NeverThrottled;
      ghost var s := State();
      ghost var through: seq<Pair> := [];
      var k: nat := 0;
      outcomes, sends := map[], [];
      NoPairs(s, registered, event, clock, results);
      for i := 0 to |matching|
        invariant k == |through| && through == AllPairs(matching[..i], registered)
        invariant Delivery(State(), outcomes, sends) == Delivered(s, through, event, clock, results)
      {
        var route := matching[i];
        var sinks := SinksOf(route, registered);
        ghost var before := through;
        for j := 0 to |sinks|
          invariant k == |through| && through == before + PairsOf(route, sinks)[..j]
          invariant Delivery(State(), outcomes, sends) == Delivered(s, through, event, clock, results)
        {
          var sink := sinks[j];
          ghost var p := Pair(route, sink);
          NextRound(s, through, p, event, clock, results);
          assert PairsOf(route, sinks)[..j+1] == PairsOf(route, sinks)[..j] + [p];
          through := through + [p];
          if !(sink in outcomes && !Throttled(outcomes[sink])) {
            var verdict := AdmitMessage(route, sink, event, clock(k));
            if verdict != Admitted {
              outcomes := if sink in outcomes then outcomes else outcomes[sink := Outcomes(verdict)];
            } else {
              outcomes := outcomes[sink := results(k)];
              sends := sends + [k];
            }
          }
          k := k + 1;
        }
        NextPairs(matching, i, registered);
        assert PairsOf(route, sinks)[..|sinks|] == PairsOf(route, sinks);
      }
      assert matching[..|matching|] == matching;
      PairsAreListed(matching, registered);
      if NeverThrottled(results) {
        forall sink
          ensures sink in outcomes <==> exists i :: 0 <= i < |matching| && Serves(matching[i], registered, sink)
        {
          ReachedIff(s, matching, registered, event, clock, results, sink);
        }
      }
    }
  }

  lemma ReachedIff(s: Router, matching: seq<Route>, registered: seq<string>, event: Event, clock: nat -> real,
                   results: nat -> Outcome, sink: string)
    requires NeverThrottled(results)
    ensures sink in Delivered(s, AllPairs(matching, registered), event, clock, results).outcomes <==>
      exists i :: 0 <= i < |matching| && Serves(matching[i], registered, sink)
  {
    hide Delivered, AllPairs, Serves, NeverThrottled;
    SinkIsServedOnce(s, AllPairs(matching, registered), event, clock, results, sink);
    SinkListedIff(matching, registered, sink);
  }

  lemma NoPairs(s: Router, registered: seq<string>, event: Event, clock: nat -> real, results: nat -> Outcome)
    ensures AllPairs([], registered) == [] && Delivered(s, [], event, clock, results) == Delivery(s, map[], [])
  {
  }

  lemma NextRound(s: Router, pairs: seq<Pair>, p: Pair, event: Event, clock: nat -> real, results: nat -> Outcome)
    ensures var k := |pairs|;
      Delivered(s, pairs + [p], event, clock, results) ==
      Round(Delivered(s, pairs, event, clock, results), k, p, event, clock(k), results(k))
  {
    assert (pairs + [p])[..|pairs|] == pairs;
  }

  lemma NextPairs(matching: seq<Route>, i: nat, registered: seq<string>)
    requires i < |matching|
    ensures AllPairs(matching[..i+1], registered) ==
      AllPairs(matching[..i], registered) + PairsOf(matching[i], SinksOf(matching[i], registered))
  {
    assert matching[..i+1][..i] == matching[..i];
  }
}
