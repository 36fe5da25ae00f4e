/** Callers of the router that hold an older edition of a route, or one that is gone. */
module RouterStale {
  import opened Wrappers
  import opened RouterModel
  import opened RouterRate
  import opened RouterMemory
  import opened RouterFlood

  /** When the route's messages to the sink were admitted, since it was last changed or removed. */
  function Admissions(run: seq<Section>, k: SentKey): seq<real> {
    if run == [] then []
    else
      var init, last := run[..|run|-1], run[|run|-1];
      if Forgets(After(init), last, k.route) then []
      else if AdmitsFor(After(init), last, k) then Admissions(init, k) + [last.now]
      else Admissions(init, k)
  }

  /** Some admissions since then were lost: deliveries outlived the registration of their route, and a timed
      pruning dropped what no route accounted for. */
  predicate Outlived(run: seq<Section>, k: SentKey) {
    run != [] &&
      var init, last := run[..|run|-1], run[|run|-1];
      && !Forgets(After(init), last, k.route)
      && (Outlived(init, k) || (last.Try? && Loses(After(init), k.route, last.now) && Admissions(init, k) != []))
  }

  /** Those who try the route hold `route` or `other`, whether it is registered or not. */
  ghost predicate Carried(run: seq<Section>, route: Route, other: Route) {
    forall i :: 0 <= i < |run| && run[i].Try? && run[i].route.name == route.name ==>
      run[i].route == route || run[i].route == other
  }

  /** The admissions of the route at the sink in the period that ends at `u`. */
  function InWindow(run: seq<Section>, route: Route, sink: string, u: real): nat {
    CountWithin(Admissions(run, SentKey(route.name, sink)), u - route.period, u)
  }

  ghost predicate WithinLimit(run: seq<Section>, route: Route, sink: string) {
    forall u :: InWindow(run, route, sink, u) <= route.limit
  }

  /** The limit holds in all runs of such callers: in those too, if `outliving`, in which admissions are lost. */
  ghost predicate LimitHolds(route: Route, other: Route, outliving: bool) {
    forall run, sink ::
      Behind(run, 0.0) && Carried(run, route, other) && (outliving || !Outlived(run, SentKey(route.name, sink))) ==>
        WithinLimit(run, route, sink)
  }

  /** The limit of a route can be exceeded in two ways and no other: some caller holds an edition of it that
      lets more through, or deliveries under way outlive its registration. */
  lemma {:induction false} LimitHoldsIff(route: Route, other: Route, outliving: bool)
    requires other.name == route.name && route.limit > 0 && route.period > 0.0 && other.period > 0.0
    ensures LimitHolds(route, other, outliving) <==> NoLaxer(other, route) && !outliving
  {
    hide Behind, Carried, WithinLimit, Outlived;
    if NoLaxer(other, route) && !outliving {
      forall run, sink | Behind(run, 0.0) && Carried(run, route, other) && !Outlived(run, SentKey(route.name, sink))
        ensures WithinLimit(run, route, sink)
      {
        CarriedHolds(run, route, other, sink);
      }
    } else {
      var run := Overrun(route, other, outliving);
      OverrunIsCarried(route, other, outliving);
      OverrunExceeds(route, other, outliving);
    }
  }

  /** For instance, a route with a limit of one in a minute is removed, and deliveries under way send two
      messages within half of it: the pruning in between forgets the first. */
  lemma {:induction false} RemovedRouteExceeds(e: Event, f: Event)
    ensures var route := Route("r", [], "", 0.0, 1, 60.0);
      var run := [Add(route, ""), Remove("r"), Try(route, "", e, 0.0), Try(route, "", f, 30.0)];
      Carried(run, route, route) && Behind(run, 0.0) && InWindow(run, route, "", 30.0) == 2
  {
    hide *;
    var route, k := Route("r", [], "", 0.0, 1, 60.0), SentKey("r", "");
    var a := [Add(route, ""), Remove("r")];
    var x, y := Try(route, "", e, 0.0), Try(route, "", f, 30.0);
    GoneState(route, a);
    Tries(x, y, k);
    NextSection(a, x, k);
    FirstTimed(After(a), x, k);
    NextSection(a + [x], y, k);
    AnyTimed(After(a + [x]), y, k);
    assert a + [x] + [y] == [Add(route, ""), Remove("r"), x, y];
    assert Admissions(a + [x] + [y], k) == [0.0, 30.0];
    TwoInWindow(a + [x] + [y], route);
    InOrder(route, e, f);
  }

  lemma Tries(x: Section, y: Section, k: SentKey)
    requires x.Try? && y.Try? && x.route.name == y.route.name == k.route && x.sink == y.sink == k.sink
    ensures TriesFor(x, k) && TriesFor(y, k) && PRUNE_INTERVAL == 30.0
  {
  }

  lemma TwoInWindow(run: seq<Section>, route: Route)
    requires Admissions(run, SentKey(route.name, "")) == [0.0, 30.0] && route.period == 60.0
    ensures InWindow(run, route, "", 30.0) == 2
  {
    hide Admissions;
    assert [0.0, 30.0][..1] == [0.0] && [0.0][..0] == [];
    assert CountWithin([0.0], 30.0 - 60.0, 30.0) == 1;
  }

  lemma InOrder(route: Route, e: Event, f: Event)
    ensures var run := [Add(route, ""), Remove(route.name), Try(route, "", e, 0.0), Try(route, "", f, 30.0)];
      Carried(run, route, route) && Behind(run, 0.0)
  {
  }

  lemma GoneState(route: Route, run: seq<Section>)
    requires run == [Add(route, ""), Remove(route.name)]
    ensures var s := After(run);
      && s.seen == map[] && s.order == [] && s.sent == map[] && s.nextPrune == None && route.name !in s.routes
      && forall sink :: Admissions(run, SentKey(route.name, sink)) == []
  {
    assert run[..1] == [Add(route, "")] && run[..1][..0] == [];
    assert After(run[..1]) == Put(EMPTY, route, "") && After(run) == Drop(After(run[..1]), route.name);
  }

  lemma FirstTimed(s: Router, x: Section, k: SentKey)
    requires x.Try? && x.now == 0.0 && x.route.dedup == 0.0 && x.route.limit == 1 && TriesFor(x, k)
    requires s.seen == map[] && s.order == [] && s.sent == map[] && s.nextPrune == None && k.route !in s.routes
    ensures AdmitsFor(s, x, k)
    ensures Step(s, x).nextPrune == Some(PRUNE_INTERVAL) && Step(s, x).seen == map[] && Step(s, x).routes == s.routes
  {
    var r := Prune(s, x.now);
    assert Evict(s) == s && r.sent == map[];
  }

  lemma AnyTimed(s: Router, x: Section, k: SentKey)
    requires x.Try? && x.route.dedup == 0.0 && x.route.limit == 1 && TriesFor(x, k)
    requires k.route !in s.routes && s.nextPrune == Some(x.now)
    ensures AdmitsFor(s, x, k)
  {
    hide Prune, Times;
    PruneKeepsTimes(s, k, x.now);
    VerdictOf(s, x.route, x.sink, x.event, x.now);
  }

  lemma {:induction false} CarriedHolds(run: seq<Section>, route: Route, other: Route, sink: string)
    requires NoLaxer(other, route) && route.limit > 0 && Behind(run, 0.0) && Carried(run, route, other)
    requires !Outlived(run, SentKey(route.name, sink))
    ensures WithinLimit(run, route, sink)
  {
    hide Behind, Carried, CountWithin, Log, Admissions, Outlived;
    CarriedRespects(run, route, other);
    NothingLost(run, SentKey(route.name, sink));
    forall u ensures InWindow(run, route, sink, u) <= route.limit {
      WindowBound(run, route, sink, 0.0, u);
    }
  }

  lemma {:induction false} CarriedRespects(run: seq<Section>, route: Route, other: Route)
    requires NoLaxer(other, route) && route.limit > 0 && Carried(run, route, other)
    ensures Respected(run, route)
  {
    hide After, Forgets;
    if run != [] { CarriedRespects(run[..|run|-1], route, other); }
  }

  lemma {:induction false} NothingLost(run: seq<Section>, k: SentKey)
    requires !Outlived(run, k)
    ensures Admissions(run, k) == Log(run, k)
  {
    hide After, Forgets, Admits, Loses;
    if run != [] {
      var init, last := run[..|run|-1], run[|run|-1];
      if !Forgets(After(init), last, k.route) { NothingLost(init, k); }
    }
  }

  // ---------------------------------------------------------------- too many

  /** Another route, without any guard; its tries only let the clock pass. */
  function Ticker(route: Route): Route {
    Route(route.name + "~", [], "", 0.0, 0, 1.0)
  }

  /** When the route is tried as often as its limit allows: if it is gone by then, before a timed pruning. */
  function BurstAt(route: Route, outliving: bool): real {
    if !outliving then 0.0
    else if route.period < PRUNE_INTERVAL then PRUNE_INTERVAL - route.period / 2.0
    else PRUNE_INTERVAL / 2.0
  }

  function Burst(route: Route, outliving: bool, n: nat): seq<Section> {
    if n > 0 then Burst(route, outliving, n - 1) + [Try(route, "", Filler(n - 1), BurstAt(route, outliving))]
    else if outliving then [Add(route, ""), Remove(route.name), Try(Ticker(route), "", Filler(0), 0.0)]
    else [Add(route, "")]
  }

  /** The try that is too many: after the pruning, or as soon as the other edition lets it through. */
  function Last(route: Route, other: Route, outliving: bool): Section {
    if outliving then Try(route, "", Filler(route.limit), PRUNE_INTERVAL)
    else Try(other, "", Filler(route.limit), if 0 < other.limit <= route.limit then other.period else 0.0)
  }

  function Overrun(route: Route, other: Route, outliving: bool): seq<Section> {
    Burst(route, outliving, route.limit) + [Last(route, other, outliving)]
  }

  function Same(n: nat, at: real): seq<real> {
    if n == 0 then [] else Same(n - 1, at) + [at]
  }

  /** The state in a burst: the deque has all admissions, and the later messages are unknown. */
  ghost predicate Bursting(run: seq<Section>, route: Route, outliving: bool, n: nat) {
    var k, s := SentKey(route.name, ""), After(run);
    && Times(s, k) == Same(n, BurstAt(route, outliving)) && Admissions(run, k) == Same(n, BurstAt(route, outliving))
    && (if outliving then route.name !in s.routes && s.nextPrune == Some(PRUNE_INTERVAL)
        else route.name in s.routes && !Outlived(run, k))
    && forall i: nat :: i >= n ==> FillerKey(route, "", i) !in s.seen
  }

  lemma {:induction false} BurstRuns(route: Route, outliving: bool, n: nat)
    requires n <= route.limit && route.period > 0.0
    ensures Bursting(Burst(route, outliving, n), route, outliving, n)
  {
    hide *;
    if n == 0 {
      BurstIs(route, outliving, n);
      BurstStarts(route, outliving);
    } else {
      var init, at := Burst(route, outliving, n - 1), BurstAt(route, outliving);
      BurstRuns(route, outliving, n - 1);
      BurstIs(route, outliving, n);
      SameTimes(n - 1, at, at - route.period);
      BurstGoesOn(init, Try(route, "", Filler(n - 1), at), route, outliving, n - 1);
    }
  }

  lemma BurstIs(route: Route, outliving: bool, n: nat)
    ensures n > 0 ==>
      Burst(route, outliving, n)
      == Burst(route, outliving, n - 1) + [Try(route, "", Filler(n - 1), BurstAt(route, outliving))]
    ensures n == 0 && outliving ==>
      Burst(route, outliving, n) == [Add(route, ""), Remove(route.name), Try(Ticker(route), "", Filler(0), 0.0)]
    ensures n == 0 && !outliving ==> Burst(route, outliving, n) == [Add(route, "")]
  {
  }

  /** One more message, as long as the limit is not reached. */
  lemma {:induction false} BurstGoesOn(init: seq<Section>, x: Section, route: Route, outliving: bool, n: nat)
    requires Bursting(init, route, outliving, n) && n < route.limit && route.period > 0.0
    requires x == Try(route, "", Filler(n), BurstAt(route, outliving))
    requires |Same(n, x.now)| == n && Popped(Same(n, x.now), x.now - route.period) == Same(n, x.now)
    ensures Bursting(init + [x], route, outliving, n + 1)
  {
    hide Step, Forgets, Admits, Popped, Times, After;
    var k := SentKey(route.name, "");
    NextSection(init, x, k);
    LetThrough(After(init), x, Same(n, x.now), route, n);
    if outliving { PruneWaits(After(init), x); }
  }

  lemma NextSection(init: seq<Section>, x: Section, k: SentKey)
    requires x.Try?
    ensures var run := init + [x];
      && After(run) == Step(After(init), x)
      && Admissions(run, k) == Admissions(init, k) + (if AdmitsFor(After(init), x, k) then [x.now] else [])
      && (k.route in After(init).routes ==> (Outlived(run, k) <==> Outlived(init, k)))
  {
    hide Step, Admits;
    assert (init + [x])[..|init|] == init;
  }

  lemma PruneWaits(s: Router, x: Section)
    requires x.Try? && s.nextPrune.Some? && x.now < s.nextPrune.value
    ensures Step(s, x).nextPrune == s.nextPrune
  {
    hide Popped, Kept, Repeats;
  }

  lemma {:induction false} BurstStarts(route: Route, outliving: bool)
    ensures outliving ==>
      Bursting([Add(route, ""), Remove(route.name), Try(Ticker(route), "", Filler(0), 0.0)], route, outliving, 0)
    ensures !outliving ==> Bursting([Add(route, "")], route, outliving, 0)
  {
    var k := SentKey(route.name, "");
    var a := [Add(route, "")];
    assert a[..0] == [] && After(a) == Put(EMPTY, route, "");
    assert Admissions(a, k) == [] && !Outlived(a, k);
    if outliving {
      var b, x := a + [Remove(route.name)], Try(Ticker(route), "", Filler(0), 0.0);
      assert b[..1] == a && After(b) == Drop(After(a), route.name) && Admissions(b, k) == [];
      assert Ticker(route).name != route.name by { assert |Ticker(route).name| == |route.name| + 1; }
      TickerStep(After(b), x, k);
      NextSection(b, x, k);
      assert b + [x] == [Add(route, ""), Remove(route.name), x];
    }
  }

  lemma TickerStep(s: Router, x: Section, k: SentKey)
    requires x.Try? && x.route.name != k.route && x.route.dedup == 0.0 && x.route.limit == 0 && x.now == 0.0
    requires s.seen == map[] && s.order == [] && s.sent == map[] && s.nextPrune == None
    ensures var r := Step(s, x);
      r.routes == s.routes && r.seen == map[] && Times(r, k) == [] && r.nextPrune == Some(PRUNE_INTERVAL)
  {
    var r := Prune(s, x.now);
    assert Evict(s) == s;
  }

  /** An unknown message is let through if the limit is not reached. */
  lemma {:induction false} LetThrough(s: Router, x: Section, times: seq<real>, route: Route, i: nat)
    requires x.Try? && x.sink == "" && x.event == Filler(i) && x.route.name == route.name
    requires times == if Loses(s, route.name, x.now) then [] else Times(s, SentKey(route.name, ""))
    requires forall j: nat :: j >= i ==> FillerKey(route, "", j) !in s.seen
    requires x.route.limit > 0 ==> |Popped(times, x.now - x.route.period)| < x.route.limit
    ensures AdmitsFor(s, x, SentKey(route.name, "")) && Step(s, x).routes == s.routes
    ensures x.route.limit > 0 ==>
      Times(Step(s, x), SentKey(route.name, "")) == Popped(times, x.now - x.route.period) + [x.now]
    ensures forall j: nat :: j > i ==> FillerKey(route, "", j) !in Step(s, x).seen
  {
    hide Prune, Popped, Times, Step, Loses;
    var k := SentKey(route.name, "");
    PruneKeepsTimes(s, k, x.now);
    PruneSeen(s, x.now);
    VerdictOf(s, x.route, "", x.event, x.now);
    assert FillerKey(route, "", i) !in s.seen;
    TryTimes(s, x, k);
    forall j: nat | j > i ensures FillerKey(route, "", j) !in Step(s, x).seen {
      FillersDiffer(i, j);
      TrySeen(s, x, FillerKey(route, "", j));
    }
  }

  lemma {:induction false} SameTimes(n: nat, at: real, c: real)
    ensures |Same(n, at)| == n && forall i :: 0 <= i < n ==> Same(n, at)[i] == at
    ensures Popped(Same(n, at), c) == if c >= at then [] else Same(n, at)
  {
    if n > 0 {
      SameTimes(n - 1, at, c);
      assert Same(n, at)[1..] == Same(n - 1, at);
    }
  }

  lemma {:induction false} OverrunIsCarried(route: Route, other: Route, outliving: bool)
    requires other.name == route.name && route.period > 0.0 && other.period > 0.0
    ensures Carried(Overrun(route, other, outliving), route, other) && Behind(Overrun(route, other, outliving), 0.0)
  {
    BurstIsCarried(route, other, outliving, route.limit);
  }

  lemma {:induction false} BurstIsCarried(route: Route, other: Route, outliving: bool, n: nat)
    requires n <= route.limit && route.period > 0.0
    ensures Carried(Burst(route, outliving, n), route, other) && Behind(Burst(route, outliving, n), 0.0)
    ensures ReadBy(Burst(route, outliving, n), BurstAt(route, outliving))
  {
    if n > 0 {
      BurstIsCarried(route, other, outliving, n - 1);
    } else if outliving {
      assert |Ticker(route).name| == |route.name| + 1;
    }
  }

  lemma {:induction false} OverrunExceeds(route: Route, other: Route, outliving: bool)
    requires other.name == route.name && route.limit > 0 && route.period > 0.0 && other.period > 0.0
    requires outliving || !NoLaxer(other, route)
    ensures !WithinLimit(Overrun(route, other, outliving), route, "")
    ensures !outliving ==> !Outlived(Overrun(route, other, outliving), SentKey(route.name, ""))
  {
    hide *;
    var init, x, n := Burst(route, outliving, route.limit), Last(route, other, outliving), route.limit;
    OverrunIs(route, other, outliving);
    BurstRuns(route, outliving, n);
    BurstingAdmits(init, route, other, outliving);
    NextSection(init, x, SentKey(route.name, ""));
    CountSame(n, BurstAt(route, outliving), x.now - route.period, x.now);
    Exceeded(init + [x], route, "", x.now);
  }

  lemma OverrunIs(route: Route, other: Route, outliving: bool)
    requires route.period > 0.0 && other.period > 0.0 && (outliving || !NoLaxer(other, route))
    ensures Overrun(route, other, outliving) ==
      Burst(route, outliving, route.limit) + [Last(route, other, outliving)]
    ensures var x := Last(route, other, outliving);
      x.Try? && x.now - route.period < BurstAt(route, outliving) <= x.now
  {
  }

  lemma Exceeded(run: seq<Section>, route: Route, sink: string, u: real)
    requires CountWithin(Admissions(run, SentKey(route.name, sink)), u - route.period, u) > route.limit
    ensures !WithinLimit(run, route, sink)
  {
    hide Admissions, CountWithin;
    assert InWindow(run, route, sink, u) > route.limit;
  }

  /** With as many messages admitted as the limit allows, one more is let through. */
  lemma BurstingAdmits(init: seq<Section>, route: Route, other: Route, outliving: bool)
    requires Bursting(init, route, outliving, route.limit) && route.limit > 0
    requires other.name == route.name && route.period > 0.0 && other.period > 0.0
    requires outliving || !NoLaxer(other, route)
    ensures AdmitsFor(After(init), Last(route, other, outliving), SentKey(route.name, ""))
    ensures Admissions(init, SentKey(route.name, "")) == Same(route.limit, BurstAt(route, outliving))
    ensures !outliving ==> !Outlived(init, SentKey(route.name, "")) && route.name in After(init).routes
  {
    hide After, Admits, Popped, Times, Admissions, Outlived;
    var x := Last(route, other, outliving);
    SameTimes(route.limit, BurstAt(route, outliving), x.now - x.route.period);
    SameTimes(0, 0.0, x.now - x.route.period);
    LetThrough(After(init), x, if outliving then [] else Same(route.limit, 0.0), route, route.limit);
  }

  lemma {:induction false} CountSame(n: nat, at: real, u: real, t: real)
    requires u < at <= t
    ensures |Same(n, at)| == n && CountWithin(Same(n, at), u, t) == n
    ensures CountWithin(Same(n, at) + [t], u, t) == n + 1
  {
    assert (Same(n, at) + [t])[..|Same(n, at)|] == Same(n, at);
    if n > 0 {
      CountSame(n - 1, at, u, t);
      assert Same(n, at)[..n-1] == Same(n - 1, at);
    }
  }
}
