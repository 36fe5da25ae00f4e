/** The notification router's memory as a value: its locked sections. */
module RouterModel {
  import opened Wrappers

  const MAX_DEDUP_KEYS := 10_000
  const FLOOD_SHARE := 10
  const PRUNE_INTERVAL := 30.0

  /** `filter` stands for the types, the sources and the severity, which only decide what matches. */
  datatype Route = Route(name: string, sinks: seq<string>, filter: string, dedup: real, limit: nat, period: real)

  datatype Event = Event(kind: string, source: string, subject: string)

  datatype Registered = Registered(route: Route, origin: string)

  datatype SentKey = SentKey(route: string, sink: string)

  datatype SeenKey = SeenKey(route: string, sink: string, event: Event)

  /** `seen` maps a key to when it may be sent again; `order` lists the keys as the dictionary does. */
  datatype Router = Router(routes: map<string, Registered>, seen: map<SeenKey, real>, order: seq<SeenKey>,
                           sent: map<SentKey, seq<real>>, nextPrune: Option<real>)

  datatype Verdict = Admitted | Dedup | RateLimited

  const EMPTY := Router(map[], map[], [], map[], None)

  function Kept(order: seq<SeenKey>, keys: set<SeenKey>): seq<SeenKey> {
    if order == [] then []
    else
      var rest := Kept(order[..|order|-1], keys);
      if order[|order|-1] in keys then rest + [order[|order|-1]] else rest
  }

  function WithSeen(s: Router, seen: map<SeenKey, real>): Router {
    s.(seen := seen, order := Kept(s.order, seen.Keys))
  }

  /** `_forget`. */
  function Forget(s: Router, name: string): Router {
    var r := WithSeen(s, map k | k in s.seen && k.route != name :: s.seen[k]);
    r.(sent := map k | k in s.sent && k.route != name :: s.sent[k])
  }

  predicate IsRoute(s: Router, route: Route) {
    route.name in s.routes && s.routes[route.name].route == route
  }

  /** `_put`. */
  function Put(s: Router, route: Route, origin: string): Router {
    var r := if IsRoute(s, route) then s else Forget(s, route.name);
    r.(routes := s.routes[route.name := Registered(route, origin)])
  }

  /** `_drop`. */
  function Drop(s: Router, name: string): Router {
    Forget(s, name).(routes := s.routes - {name})
  }

  function Oldest(order: seq<SeenKey>): seq<SeenKey> {
    var share := MAX_DEDUP_KEYS / FLOOD_SHARE;
    if |order| < share then order else order[..share]
  }

  /** The first part of `_prune`. */
  function Evict(s: Router): Router {
    if |s.seen| > MAX_DEDUP_KEYS then WithSeen(s, s.seen - (set k | k in Oldest(s.order))) else s
  }

  /** The second part of `_prune`. */
  function Expire(s: Router, now: real): Router {
    if s.nextPrune.Some? && now < s.nextPrune.value then s
    else
      var r := WithSeen(s, map k | k in s.seen && s.seen[k] > now :: s.seen[k]);
      r.(nextPrune := Some(now + PRUNE_INTERVAL),
         sent := map k | k in s.sent && s.sent[k] != [] && k.route in s.routes :: s.sent[k])
  }

  function Prune(s: Router, now: real): Router {
    Expire(Evict(s), now)
  }

  /** What is left after taking every time from the front that is not after `cutoff`. */
  function Popped(times: seq<real>, cutoff: real): seq<real> {
    if times != [] && times[0] <= cutoff then Popped(times[1..], cutoff) else times
  }

  function Times(s: Router, k: SentKey): seq<real> {
    if k in s.sent then s.sent[k] else []
  }

  predicate Repeats(s: Router, key: SeenKey, now: real) {
    key in s.seen && s.seen[key] > now
  }

  function Remember(s: Router, key: SeenKey, until: real): Router {
    s.(seen := s.seen[key := until], order := if key in s.seen then s.order else s.order + [key])
  }

  /** `_admit`. */
  function Admit(s: Router, route: Route, sink: string, event: Event, now: real): (Router, Verdict) {
    var k, key := SentKey(route.name, sink), SeenKey(route.name, sink, event);
    var r := Prune(s, now);
    if route.dedup > 0.0 && Repeats(r, key, now) then (r, Dedup)
    else if route.limit > 0 then
      var times := Popped(Times(r, k), now - route.period);
      if |times| >= route.limit then (r.(sent := r.sent[k := times]), RateLimited)
      else
        var counted := r.(sent := r.sent[k := times + [now]]);
        (if route.dedup > 0.0 then Remember(counted, key, now + route.dedup) else counted, Admitted)
    else (if route.dedup > 0.0 then Remember(r, key, now + route.dedup) else r, Admitted)
  }

  // ---------------------------------------------------------------- runs

  /** The locked sections of all threads, in the order they get the lock; `Sync` is several in one. */
  datatype Section =
    | Try(route: Route, sink: string, event: Event, now: real)
    | Add(route: Route, origin: string)
    | Remove(name: string)

  function Step(s: Router, x: Section): Router {
    match x
    case Try(route, sink, event, now) => Admit(s, route, sink, event, now).0
    case Add(route, origin) => Put(s, route, origin)
    case Remove(name) => Drop(s, name)
  }

  function After(run: seq<Section>): Router {
    if run == [] then EMPTY else Step(After(run[..|run|-1]), run[|run|-1])
  }

  predicate Forgets(s: Router, x: Section, name: string) {
    (x.Add? && x.route.name == name && !IsRoute(s, x.route)) || (x.Remove? && x.name == name)
  }

  predicate Admits(s: Router, x: Section) {
    x.Try? && Admit(s, x.route, x.sink, x.event, x.now).1 == Admitted
  }

  /** `t` is no earlier than any reading of the run. */
  ghost predicate ReadBy(run: seq<Section>, t: real) {
    forall i :: 0 <= i < |run| && run[i].Try? ==> run[i].now <= t
  }

  /** In the order of the lock no reading is more than `d` behind an earlier one: threads read the clock
      before they take the lock. */
  ghost predicate Behind(run: seq<Section>, d: real) {
    forall i, j :: 0 <= i < j < |run| && run[i].Try? && run[j].Try? ==> run[i].now <= run[j].now + d
  }

  /** Whoever tries the route called `name` has it as it is registered at that moment. */
  ghost predicate UpToDate(run: seq<Section>, name: string) {
    if run == [] then true
    else
      var init, last := run[..|run|-1], run[|run|-1];
      UpToDate(init, name) && (last.Try? && last.route.name == name ==> IsRoute(After(init), last.route))
  }
}

/** How many messages a route lets through. */
module RouterRate {
  import opened RouterModel

  /** A try at `now` prunes by time and finds the route not registered: of its admissions nothing is left. */
  predicate Loses(s: Router, name: string, now: real) {
    !(s.nextPrune.Some? && now < s.nextPrune.value) && name !in s.routes
  }

  /** When the route's messages to the sink were admitted, since its memory was last forgotten or lost. */
  function Log(run: seq<Section>, k: SentKey): seq<real> {
    if run == [] then []
    else
      var init, last := run[..|run|-1], run[|run|-1];
      if Forgets(After(init), last, k.route) then [] else Next(After(init), last, Log(init, k), k)
  }

  /** What a section that does not forget the route makes of its log. */
  function Next(s: Router, x: Section, log: seq<real>, k: SentKey): seq<real> {
    var kept := if x.Try? && Loses(s, k.route, x.now) then [] else log;
    if AdmitsFor(s, x, k) then kept + [x.now] else kept
  }

  /** What is left of the log when a try reads the clock at `now`. */
  function Left(run: seq<Section>, k: SentKey, now: real): seq<real> {
    if Loses(After(run), k.route, now) then [] else Log(run, k)
  }

  /** The section is a try of the route at the sink. */
  predicate TriesFor(x: Section, k: SentKey) {
    x.Try? && x.route.name == k.route && x.sink == k.sink
  }

  predicate AdmitsFor(s: Router, x: Section, k: SentKey) {
    TriesFor(x, k) && Admits(s, x)
  }

  function CountAfter(times: seq<real>, u: real): nat {
    if times == [] then 0
    else CountAfter(times[..|times|-1], u) + if times[|times|-1] > u then 1 else 0
  }

  function CountWithin(times: seq<real>, u: real, t: real): nat {
    if times == [] then 0
    else CountWithin(times[..|times|-1], u, t) + if u < times[|times|-1] <= t then 1 else 0
  }

  lemma {:induction false} CountAll(times: seq<real>, u: real)
    requires forall i :: 0 <= i < |times| ==> times[i] > u
    ensures CountAfter(times, u) == |times|
  {
    if times != [] { CountAll(times[..|times|-1], u); }
  }

  lemma {:induction false} CountFirst(times: seq<real>, u: real)
    requires times != []
    ensures CountAfter(times, u) == CountAfter(times[1..], u) + if times[0] > u then 1 else 0
  {
    if |times| > 1 {
      CountFirst(times[..|times|-1], u);
      assert times[1..][..|times|-2] == times[..|times|-1][1..];
    } else {
      assert times[..0] == [] && times[1..] == [];
    }
  }

  lemma CountLast(times: seq<real>, now: real, u: real)
    ensures CountAfter(times + [now], u) == CountAfter(times, u) + if now > u then 1 else 0
  {
    assert (times + [now])[..|times|] == times;
  }

  // ---------------------------------------------------------------- one section

  lemma PruneKeepsTimes(s: Router, k: SentKey, now: real)
    ensures Prune(s, now).routes == s.routes
    ensures Times(Prune(s, now), k) ==
      if Loses(s, k.route, now) then [] else Times(s, k)
  {
    hide WithSeen;
    WithSeenKeeps(s, s.seen - (set x | x in Oldest(s.order)));
    var r := Evict(s);
    WithSeenKeeps(r, map x | x in r.seen && r.seen[x] > now :: r.seen[x]);
  }

  lemma WithSeenKeeps(s: Router, seen: map<SeenKey, real>)
    ensures var r := WithSeen(s, seen); r.routes == s.routes && r.sent == s.sent && r.nextPrune == s.nextPrune
  {
  }

  /** The effect of one try on the deque of one route and sink. */
  lemma TryTimes(s: Router, x: Section, k: SentKey)
    requires x.Try?
    ensures Step(s, x).routes == s.routes
    ensures var pruned := if Loses(s, k.route, x.now) then [] else Times(s, k);
      if TriesFor(x, k) && x.route.limit > 0 then
        var times := Popped(pruned, x.now - x.route.period);
        || (Admits(s, x) && |times| < x.route.limit && Times(Step(s, x), k) == times + [x.now])
        || (!Admits(s, x) && (Times(Step(s, x), k) == times || Times(Step(s, x), k) == pruned))
      else Times(Step(s, x), k) == pruned
  {
    hide Prune, Popped;
    PruneKeepsTimes(s, k, x.now);
  }

  lemma ForgetTimes(s: Router, name: string, k: SentKey)
    ensures Forget(s, name).routes == s.routes
    ensures Times(Forget(s, name), k) == if k.route == name then [] else Times(s, k)
  {
    hide WithSeen;
    WithSeenKeeps(s, map x | x in s.seen && x.route != name :: s.seen[x]);
  }

  lemma OtherTimes(s: Router, x: Section, k: SentKey)
    requires !x.Try?
    ensures Times(Step(s, x), k) == if Forgets(s, x, k.route) then [] else Times(s, k)
  {
    hide Forget;
    match x
    case Add(route, _) => ForgetTimes(s, route.name, k);
    case Remove(name) => ForgetTimes(s, name, k);
  }

  lemma VerdictOf(s: Router, route: Route, sink: string, event: Event, now: real)
    ensures var times := Popped(Times(Prune(s, now), SentKey(route.name, sink)), now - route.period);
      Admit(s, route, sink, event, now).1 ==
      if route.dedup > 0.0 && Repeats(Prune(s, now), SeenKey(route.name, sink, event), now) then Dedup
      else if route.limit > 0 && |times| >= route.limit then RateLimited
      else Admitted
  {
    hide Prune, Popped, Times, Remember, Repeats;
  }

  lemma RunParts(run: seq<Section>, d: real)
    requires Behind(run, d) && run != []
    ensures var init, last := run[..|run|-1], run[|run|-1];
      Behind(init, d) && (last.Try? ==> ReadBy(init, last.now + d))
  {
  }

  // ---------------------------------------------------------------- the deque holds nothing but the log

  /** The deque holds no more late times than the log, and they go back by at most `d` in its order. */
  ghost predicate Drawn(times: seq<real>, log: seq<real>, t: real, d: real) {
    && (forall u :: CountAfter(times, u) <= CountAfter(log, u))
    && (forall i, j :: 0 <= i < j < |times| ==> times[i] <= times[j] + d)
    && forall i :: 0 <= i < |times| ==> times[i] <= t
  }

  lemma NothingDrawn(log: seq<real>, t: real, d: real)
    ensures Drawn([], log, t, d)
  {
  }

  lemma {:induction false} PoppedDrawn(times: seq<real>, log: seq<real>, t: real, d: real, c: real)
    requires Drawn(times, log, t, d)
    ensures Drawn(Popped(times, c), log, t, d)
    decreases |times|
  {
    if times != [] && times[0] <= c {
      forall u ensures CountAfter(times[1..], u) <= CountAfter(log, u) { CountFirst(times, u); }
      PoppedDrawn(times[1..], log, t, d, c);
    }
  }

  lemma DrawnGrows(times: seq<real>, log: seq<real>, t: real, d: real, now: real)
    requires Drawn(times, log, t, d) && Drawn(times, log, now + d, d) && now <= t
    ensures Drawn(times, log + [now], t, d) && Drawn(times + [now], log + [now], t, d)
  {
    hide CountAfter;
    forall u
      ensures CountAfter(times, u) <= CountAfter(log + [now], u)
      ensures CountAfter(times + [now], u) <= CountAfter(log + [now], u)
    {
      CountLast(times, now, u);
      CountLast(log, now, u);
    }
  }

  lemma TryDraws(s: Router, x: Section, log: seq<real>, k: SentKey, t: real, d: real)
    requires x.Try? && x.now <= t && Drawn(Times(s, k), log, t, d) && Drawn(Times(s, k), log, x.now + d, d)
    ensures Drawn(Times(Step(s, x), k), Next(s, x, log, k), t, d)
  {
    hide Admits, Step, Popped, Times, Drawn, Loses;
    TryTimes(s, x, k);
    NothingDrawn([], t, d);
    NothingDrawn([], x.now + d, d);
    var lost := Loses(s, k.route, x.now);
    var pruned, kept := if lost then [] else Times(s, k), if lost then [] else log;
    PoppedDrawn(pruned, kept, t, d, x.now - x.route.period);
    PoppedDrawn(pruned, kept, x.now + d, d, x.now - x.route.period);
    DrawnGrows(pruned, kept, t, d, x.now);
    DrawnGrows(Popped(pruned, x.now - x.route.period), kept, t, d, x.now);
  }

  /** In every run, whatever routes its callers hold. */
  lemma {:induction false} RunDraws(run: seq<Section>, k: SentKey, t: real, d: real)
    requires Behind(run, d) && ReadBy(run, t)
    ensures Drawn(Times(After(run), k), Log(run, k), t, d)
  {
    hide Step, Forgets, Admits, Drawn, Times, Behind, Loses;
    if run != [] {
      var init, last := run[..|run|-1], run[|run|-1];
      RunParts(run, d);
      RunDraws(init, k, t, d);
      if last.Try? {
        RunDraws(init, k, last.now + d, d);
        TryDraws(After(init), last, Log(init, k), k, t, d);
        TryForgetsNothing(After(init), last, k.route);
      } else {
        OtherTimes(After(init), last, k);
        NothingDrawn([], t, d);
      }
    } else {
      NoTimes(k);
      NothingDrawn([], t, d);
    }
  }

  lemma TryForgetsNothing(s: Router, x: Section, name: string)
    ensures x.Try? ==> !Forgets(s, x, name)
  {
  }

  lemma NoTimes(k: SentKey)
    ensures Times(EMPTY, k) == []
  {
  }

  lemma {:induction false} PoppedAreLate(times: seq<real>, c: real, d: real)
    requires d >= 0.0 && forall i, j :: 0 <= i < j < |times| ==> times[i] <= times[j] + d
    ensures forall i :: 0 <= i < |Popped(times, c)| ==> Popped(times, c)[i] > c - d
    decreases |times|
  {
    if times != [] && times[0] <= c { PoppedAreLate(times[1..], c, d); }
  }

  lemma DrawnLate(times: seq<real>, log: seq<real>, t: real, c: real, d: real)
    requires Drawn(times, log, t, d) && d >= 0.0
    ensures |Popped(times, c)| <= CountAfter(log, c - d)
  {
    PoppedDrawn(times, log, t, d, c);
    PoppedAreLate(times, c, d);
    CountAll(Popped(times, c), c - d);
  }

  // ---------------------------------------------------------------- the deque holds all of the log that counts

  /** A route of the same name that lets no more through. */
  predicate NoLaxer(other: Route, route: Route) {
    0 < other.limit <= route.limit && other.period >= route.period
  }

  /** Since its memory was last forgotten, those who tried the route had it, or an edition of it that lets no
      more through; it need not be registered. */
  ghost predicate Respected(run: seq<Section>, route: Route) {
    if run == [] then true
    else
      var init, last := run[..|run|-1], run[|run|-1];
      || Forgets(After(init), last, route.name)
      || (Respected(init, route)
          && (last.Try? && last.route.name == route.name ==> NoLaxer(last.route, route)))
  }

  /** The deque is the log without some of its first times, none of them after `c`. */
  ghost predicate Tail(times: seq<real>, log: seq<real>, c: real) {
    |times| <= |log| && times == log[|log| - |times|..]
    && forall i :: 0 <= i < |log| - |times| ==> log[i] <= c
  }

  lemma {:induction false} PoppedTail(times: seq<real>, log: seq<real>, c: real, d: real)
    requires Tail(times, log, c) && d <= c
    ensures Tail(Popped(times, d), log, c)
    decreases |times|
  {
    if times != [] && times[0] <= d {
      assert log[|log|-|times|] == times[0];
      assert times[1..] == log[|log|-|times|+1..];
      PoppedTail(times[1..], log, c, d);
    }
  }

  lemma TailGrows(times: seq<real>, log: seq<real>, c: real, now: real)
    requires Tail(times, log, c)
    ensures Tail(times + [now], log + [now], c)
  {
  }

  lemma EmptyTail(c: real)
    ensures Tail([], [], c)
  {
  }

  lemma TryRemembers(s: Router, x: Section, log: seq<real>, k: SentKey, route: Route, t: real)
    requires x.Try? && x.now <= t && k.route == route.name && Tail(Times(s, k), log, t - route.period)
    requires x.route.name == route.name ==> NoLaxer(x.route, route)
    ensures Tail(Times(Step(s, x), k), Next(s, x, log, k), t - route.period)
  {
    hide Admits, Step, Popped, Tail, Times, Loses;
    TryTimes(s, x, k);
    EmptyTail(t - route.period);
    if TriesFor(x, k) {
      var lost := Loses(s, k.route, x.now);
      var pruned, kept := if lost then [] else Times(s, k), if lost then [] else log;
      PoppedTail(pruned, kept, t - route.period, x.now - x.route.period);
      TailGrows(Popped(pruned, x.now - x.route.period), kept, t - route.period, x.now);
    }
  }

  lemma {:induction false} RunRemembers(run: seq<Section>, k: SentKey, route: Route, t: real)
    requires ReadBy(run, t) && k.route == route.name && Respected(run, route)
    ensures Tail(Times(After(run), k), Log(run, k), t - route.period)
  {
    hide Step, Forgets, Admits, Tail, Times, NoLaxer, Loses;
    EmptyTail(t - route.period);
    if run != [] {
      var init, last := run[..|run|-1], run[|run|-1];
      TryForgetsNothing(After(init), last, k.route);
      if !last.Try? { OtherTimes(After(init), last, k); }
      if !Forgets(After(init), last, k.route) {
        RunRemembers(init, k, route, t);
        if last.Try? { TryRemembers(After(init), last, Log(init, k), k, route, t); }
      }
    } else {
      NoTimes(k);
    }
  }

  lemma {:induction false} TailHoldsLater(times: seq<real>, log: seq<real>, c: real)
    requires Tail(times, log, c)
    ensures CountAfter(log, c) <= |times|
    decreases |log|
  {
    if |times| < |log| {
      assert times == log[1..][|log[1..]| - |times|..];
      TailHoldsLater(times, log[1..], c);
      CountFirst(log, c);
    } else {
      assert times == log;
      CountAtMost(log, c);
    }
  }

  lemma {:induction false} CountAtMost(log: seq<real>, c: real)
    ensures CountAfter(log, c) <= |log|
  {
    if log != [] { CountAtMost(log[..|log|-1], c); }
  }

  /** Where all callers have the route as it is registered, it is respected. */
  lemma {:induction false} UpToDateRespects(run: seq<Section>, route: Route)
    requires UpToDate(run, route.name) && IsRoute(After(run), route) && route.limit > 0
    ensures Respected(run, route)
  {
    hide Step, Forgets;
    if run != [] {
      var init, last := run[..|run|-1], run[|run|-1];
      if !Forgets(After(init), last, route.name) {
        RouteStays(run, route);
        UpToDateRespects(init, route);
      }
    }
  }

  /** Where nothing is forgotten, the route was registered before, the same. */
  lemma {:induction false} RouteStays(run: seq<Section>, route: Route)
    requires run != [] && IsRoute(After(run), route) && !Forgets(After(run[..|run|-1]), run[|run|-1], route.name)
    ensures IsRoute(After(run[..|run|-1]), route)
  {
    hide Prune, Popped, Forget;
    var s, x := After(run[..|run|-1]), run[|run|-1];
    if x.Try? { PruneKeepsTimes(s, SentKey(x.route.name, x.sink), x.now); }
  }

  // ---------------------------------------------------------------- the law

  /** A message is held back by the rate limit only if, since the route was last changed, the sink already
      got as many within its period and the `d` that clock readings can be behind, whatever routes the
      other callers hold; and where the route is respected it is never let through if the sink got as
      many within its period less `d`. */
  lemma {:induction false} LimitWithin(run: seq<Section>, route: Route, sink: string, event: Event, now: real, d: real)
    requires Behind(run, d) && d >= 0.0 && ReadBy(run, now + d)
    ensures var verdict := Admit(After(run), route, sink, event, now).1;
      var log := Left(run, SentKey(route.name, sink), now);
      && (verdict == RateLimited ==> route.limit > 0 && CountAfter(log, now - route.period - d) >= route.limit)
      && (Respected(run, route) && route.limit > 0 && CountAfter(log, now - route.period + d) >= route.limit ==>
            verdict != Admitted)
  {
    hide After, Log, Prune, Popped, CountAfter, Admit, Times, Behind, ReadBy, Drawn, Tail, Respected, Loses;
    var k, s := SentKey(route.name, sink), After(run);
    VerdictOf(s, route, sink, event, now);
    PruneKeepsTimes(s, k, now);
    RunDraws(run, k, now + d, d);
    NothingDrawn([], now + d, d);
    DrawnLate(Times(Prune(s, now), k), Left(run, k, now), now + d, now - route.period, d);
    if Respected(run, route) { TailIsFull(run, k, route, route.period, now, d); }
  }

  lemma {:induction false} TailIsFull(run: seq<Section>, k: SentKey, route: Route, p: real, now: real, d: real)
    requires ReadBy(run, now + d) && d >= 0.0 && k.route == route.name && Respected(run, route) && p >= route.period
    ensures CountAfter(Left(run, k, now), now - route.period + d)
         <= |Popped(Times(Prune(After(run), now), k), now - p)|
  {
    hide After, Log, Prune, Popped, CountAfter, Times, ReadBy, Tail, Respected, Loses;
    var s, c := After(run), now - route.period + d;
    RunRemembers(run, k, route, now + d);
    PruneKeepsTimes(s, k, now);
    EmptyTail(c);
    PoppedTail(Times(Prune(s, now), k), Left(run, k, now), c, now - p);
    TailHoldsLater(Popped(Times(Prune(s, now), k), now - p), Left(run, k, now), c);
  }

  /** Where the clock readings are in the order of the lock and the route is respected, a message that is no
      repeat is held back exactly if the sink already got as many within the period that ends now. */
  lemma {:induction false} RateLimitedIff(run: seq<Section>, route: Route, sink: string, event: Event, now: real)
    requires Behind(run, 0.0) && ReadBy(run, now) && Respected(run, route)
    ensures var verdict := Admit(After(run), route, sink, event, now).1;
      verdict != Dedup ==>
        (verdict == RateLimited <==>
          route.limit > 0 && CountAfter(Left(run, SentKey(route.name, sink), now), now - route.period) >= route.limit)
  {
    hide *;
    LimitWithin(run, route, sink, event, now, 0.0);
  }

  // ---------------------------------------------------------------- windows

  /** Of what is neither forgotten nor lost, no window of the route's period ever holds more admissions than
      its limit. Where threads read the clock out of the order of the lock, the windows are shorter by what a
      reading can be behind. */
  lemma {:induction false} WindowBound(run: seq<Section>, route: Route, sink: string, d: real, u: real)
    requires Behind(run, d) && d >= 0.0 && Respected(run, route)
    ensures CountWithin(Log(run, SentKey(route.name, sink)), u - (route.period - d), u) <= route.limit
  {
    hide Behind, Step, Forgets, Admits, After, CountWithin, CountAfter, Loses;
    var k := SentKey(route.name, sink);
    CountNothing(u - (route.period - d), u);
    if run != [] {
      var init, last := run[..|run|-1], run[|run|-1];
      RunParts(run, d);
      if !Forgets(After(init), last, k.route) {
        WindowBound(init, route, sink, d, u);
        if AdmitsFor(After(init), last, k) {
          AdmittedBelowLimit(init, last, route, d);
          OneMore(Left(init, k, last.now), last.now, u, route.period - d);
        }
      }
    }
  }

  lemma CountNothing(u: real, t: real)
    ensures CountWithin([], u, t) == 0
  {
  }

  lemma {:induction false} AdmittedBelowLimit(init: seq<Section>, last: Section, route: Route, d: real)
    requires last.Try? && last.route.name == route.name && NoLaxer(last.route, route)
    requires ReadBy(init, last.now + d) && d >= 0.0 && Respected(init, route)
    requires Admits(After(init), last)
    ensures var log := Left(init, SentKey(route.name, last.sink), last.now);
      CountAfter(log, last.now - (route.period - d)) < route.limit
  {
    hide After, Left, Admit, CountAfter, Respected, ReadBy, Popped, Prune, Times;
    var k := SentKey(route.name, last.sink);
    VerdictOf(After(init), last.route, last.sink, last.event, last.now);
    TailIsFull(init, k, route, last.route.period, last.now, d);
  }

  lemma {:induction false} OneMore(log: seq<real>, now: real, u: real, period: real)
    ensures u < now ==> CountWithin(log + [now], u - period, u) == CountWithin(log, u - period, u)
    ensures u >= now ==> CountWithin(log + [now], u - period, u) <= CountAfter(log, now - period) + 1
  {
    assert (log + [now])[..|log|] == log;
    if u >= now { WithinIsAfter(log, now - period, u - period, u); }
  }

  lemma {:induction false} WithinIsAfter(log: seq<real>, c: real, d: real, u: real)
    requires c <= d
    ensures CountWithin(log, d, u) <= CountAfter(log, c)
  {
    if log != [] { WithinIsAfter(log[..|log|-1], c, d, u); }
  }
}
