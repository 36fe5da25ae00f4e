/** What the router remembers about the messages it let through. */
module RouterMemory {
  import opened Collections
  import opened Wrappers
  import opened RouterModel

  predicate AdmitsKey(s: Router, x: Section, key: SeenKey) {
    x.Try? && SeenKey(x.route.name, x.sink, x.event) == key && Admits(s, x)
  }

  /** The section lets the message of the key through and remembers it. */
  predicate Stores(s: Router, x: Section, key: SeenKey) {
    AdmitsKey(s, x, key) && x.route.dedup > 0.0
  }

  /** Until when the last admission of the event bars its repeats, unless its route was changed since. */
  function BarredUntil(run: seq<Section>, key: SeenKey): Option<real> {
    if run == [] then None
    else
      var init, last := run[..|run|-1], run[|run|-1];
      if Forgets(After(init), last, key.route) then None
      else if Stores(After(init), last, key) then Some(last.now + last.route.dedup)
      else BarredUntil(init, key)
  }

  /** Some section found the memory over its bound and evicted from it. */
  predicate Flooded(run: seq<Section>) {
    run != [] && (Flooded(run[..|run|-1]) || (run[|run|-1].Try? && |After(run[..|run|-1]).seen| > MAX_DEDUP_KEYS))
  }

  // ---------------------------------------------------------------- pruning

  lemma PruneSeen(s: Router, now: real)
    ensures Prune(s, now).routes == s.routes
    ensures forall k :: k in Prune(s, now).seen ==> k in s.seen && Prune(s, now).seen[k] == s.seen[k]
    ensures |s.seen| <= MAX_DEDUP_KEYS ==> forall k :: k in s.seen && s.seen[k] > now ==> k in Prune(s, now).seen
  {
    hide Kept, Oldest;
  }

  /** What one try does to the memory of one key. */
  lemma TrySeen(s: Router, x: Section, key: SeenKey)
    requires x.Try?
    ensures Step(s, x).routes == s.routes
    ensures var r, pruned := Step(s, x), Prune(s, x.now);
      if Stores(s, x, key) then key in r.seen && r.seen[key] == x.now + x.route.dedup
      else (key in r.seen <==> key in pruned.seen) && (key in r.seen ==> r.seen[key] == pruned.seen[key])
  {
    hide Prune, Popped, Times, Repeats;
    PruneSeen(s, x.now);
  }

  lemma ForgetSeen(s: Router, name: string, k: SeenKey)
    ensures Forget(s, name).routes == s.routes
    ensures k in Forget(s, name).seen <==> k in s.seen && k.route != name
    ensures k in Forget(s, name).seen ==> Forget(s, name).seen[k] == s.seen[k]
  {
    hide Kept;
  }

  // ---------------------------------------------------------------- repeats

  /** The router remembers of a key nothing but its last admission, and, where no flood has evicted
      anything, it forgets that only when the clock has passed it: no reading is later than `t`. */
  ghost predicate Known(s: Router, barred: Option<real>, key: SeenKey, flooded: bool, t: real) {
    && (key in s.seen ==> barred == Some(s.seen[key]))
    && (!flooded && barred.Some? && key !in s.seen ==> barred.value <= t)
  }

  lemma TryKnows(s: Router, x: Section, barred: Option<real>, key: SeenKey, flooded: bool, t: real)
    requires x.Try? && Known(s, barred, key, flooded, t) && x.now <= t
    ensures Known(Step(s, x), if Stores(s, x, key) then Some(x.now + x.route.dedup) else barred, key,
                  flooded || |s.seen| > MAX_DEDUP_KEYS, t)
  {
    hide Step, Stores, Prune;
    TrySeen(s, x, key);
    PruneSeen(s, x.now);
  }

  lemma OtherKnows(s: Router, x: Section, barred: Option<real>, key: SeenKey, flooded: bool, t: real)
    requires !x.Try? && Known(s, barred, key, flooded, t)
    ensures Known(Step(s, x), if Forgets(s, x, key.route) then None else barred, key, flooded, t)
  {
    hide Forget;
    match x
    case Add(route, _) => ForgetSeen(s, route.name, key);
    case Remove(name) => ForgetSeen(s, name, key);
  }

  lemma {:induction false} RunKnows(run: seq<Section>, key: SeenKey, t: real)
    requires ReadBy(run, t)
    ensures Known(After(run), BarredUntil(run, key), key, Flooded(run), t)
  {
    hide Step, Forgets, Stores, Known;
    if run != [] {
      var init, last := run[..|run|-1], run[|run|-1];
      RunKnows(init, key, t);
      if last.Try? {
        TryKnows(After(init), last, BarredUntil(init, key), key, Flooded(init), t);
      } else {
        OtherKnows(After(init), last, BarredUntil(init, key), key, Flooded(init), t);
      }
      TryOrForget(After(init), last, key);
    } else {
      NothingKnown(key, t);
    }
  }

  lemma TryOrForget(s: Router, x: Section, key: SeenKey)
    ensures if x.Try? then !Forgets(s, x, key.route) else !Stores(s, x, key)
  {
  }

  lemma NothingKnown(key: SeenKey, t: real)
    ensures Known(EMPTY, None, key, false, t)
  {
  }

  lemma DedupOf(s: Router, route: Route, sink: string, event: Event, now: real)
    ensures Admit(s, route, sink, event, now).1 == Dedup <==>
      route.dedup > 0.0 && Repeats(Prune(s, now), SeenKey(route.name, sink, event), now)
  {
    hide Prune, Popped, Times, Remember, Repeats;
  }

  /** A message is refused as a repeat only if the last admission of the same event still bars it, in every
      run. As long as no flood has evicted anything, it always is if the bar lasts longer than the `d` that
      the clock reading may be behind an earlier one: timed pruning changes no other decision. */
  lemma {:induction false} RepeatWithin(run: seq<Section>, route: Route, sink: string, event: Event, now: real, d: real)
    requires ReadBy(run, now + d) && d >= 0.0
    ensures var barred := BarredUntil(run, SeenKey(route.name, sink, event));
      var verdict := Admit(After(run), route, sink, event, now).1;
      && (verdict == Dedup ==> route.dedup > 0.0 && barred.Some? && barred.value > now)
      && (!Flooded(run) && |After(run).seen| <= MAX_DEDUP_KEYS ==>
            route.dedup > 0.0 && barred.Some? && barred.value > now + d ==> verdict == Dedup)
  {
    hide After, BarredUntil, Prune, Admit, ReadBy, Flooded;
    RunKnows(run, SeenKey(route.name, sink, event), now + d);
    PruneSeen(After(run), now);
    DedupOf(After(run), route, sink, event, now);
  }

  /** Where no earlier reading is later and there was no flood, a message is refused as a repeat exactly if
      the last admission of the same event still bars it. */
  lemma {:induction false} RepeatIff(run: seq<Section>, route: Route, sink: string, event: Event, now: real)
    requires ReadBy(run, now) && !Flooded(run) && |After(run).seen| <= MAX_DEDUP_KEYS
    ensures var barred := BarredUntil(run, SeenKey(route.name, sink, event));
      Admit(After(run), route, sink, event, now).1 == Dedup
      <==> route.dedup > 0.0 && barred.Some? && barred.value > now
  {
    hide *;
    RepeatWithin(run, route, sink, event, now, 0.0);
  }

  // ---------------------------------------------------------------- the bound

  /** `order` lists the keys of `seen`, each once. */
  ghost predicate Listed(s: Router) {
    Distinct(s.order) && forall k :: k in s.order <==> k in s.seen
  }

  lemma {:induction false} KeptHolds(order: seq<SeenKey>, keys: set<SeenKey>)
    ensures forall k :: k in Kept(order, keys) <==> k in order && k in keys
    ensures Distinct(order) ==> Distinct(Kept(order, keys))
  {
    if order != [] {
      var init, last := order[..|order|-1], order[|order|-1];
      KeptHolds(init, keys);
      assert order == init + [last];
      assert Distinct(order) ==> last !in init;
    }
  }

  lemma WithSeenListed(s: Router, seen: map<SeenKey, real>)
    requires Listed(s) && seen.Keys <= s.seen.Keys
    ensures Listed(WithSeen(s, seen)) && |seen| <= |s.seen|
  {
    KeptHolds(s.order, seen.Keys);
    SubsetSize(seen.Keys, s.seen.Keys);
    assert |seen| == |seen.Keys| && |s.seen| == |s.seen.Keys|;
  }

  lemma EvictListed(s: Router)
    requires Listed(s) && |s.seen| <= MAX_DEDUP_KEYS + 1
    ensures Listed(Evict(s)) && |Evict(s).seen| <= MAX_DEDUP_KEYS
  {
    if |s.seen| > MAX_DEDUP_KEYS {
      var gone := set k | k in Oldest(s.order);
      assert |s.seen| == |s.seen.Keys| && (s.seen - gone).Keys == s.seen.Keys - gone;
      WithSeenListed(s, s.seen - gone);
      SomeKey(s);
      assert s.order[0] in Oldest(s.order) by { assert Oldest(s.order)[0] == s.order[0]; }
      assert s.order[0] in s.seen.Keys && s.order[0] !in s.seen.Keys - gone;
      SubsetSize(s.seen.Keys - gone, s.seen.Keys);
      assert |s.seen - gone| == |(s.seen - gone).Keys|;
    }
  }

  lemma SomeKey(s: Router)
    requires Listed(s) && |s.seen| > 0
    ensures s.order != []
  {
    assert |s.seen| == |s.seen.Keys|;
    assert s.order == [] ==> s.seen.Keys == {};
  }

  lemma PruneListed(s: Router, now: real)
    requires Listed(s) && |s.seen| <= MAX_DEDUP_KEYS + 1
    ensures Listed(Prune(s, now)) && |Prune(s, now).seen| <= MAX_DEDUP_KEYS
  {
    hide Kept, Evict, Distinct;
    EvictListed(s);
    var r := Evict(s);
    WithSeenListed(r, map k | k in r.seen && r.seen[k] > now :: r.seen[k]);
  }

  lemma RememberListed(s: Router, key: SeenKey, until: real)
    requires Listed(s)
    ensures Listed(Remember(s, key, until)) && |Remember(s, key, until).seen| <= |s.seen| + 1
  {
    var r := Remember(s, key, until);
    assert r.seen.Keys == s.seen.Keys + {key};
    assert |r.seen| == |r.seen.Keys| && |s.seen| == |s.seen.Keys|;
  }

  lemma ForgetListed(s: Router, name: string)
    requires Listed(s)
    ensures Listed(Forget(s, name)) && |Forget(s, name).seen| <= |s.seen|
  {
    hide Kept, Distinct;
    WithSeenListed(s, map k | k in s.seen && k.route != name :: s.seen[k]);
  }

  lemma AdmitSeen(s: Router, route: Route, sink: string, event: Event, now: real)
    ensures var r := Admit(s, route, sink, event, now);
      var kept, key := Prune(s, now).(sent := r.0.sent), SeenKey(route.name, sink, event);
      r.0 == if route.dedup > 0.0 && r.1 == Admitted then Remember(kept, key, now + route.dedup) else kept
  {
    hide Prune, Popped, Times, Repeats;
  }

  /** The memory never holds more than one key over its bound. */
  lemma {:induction false} SeenIsBounded(run: seq<Section>)
    ensures Listed(After(run)) && |After(run).seen| <= MAX_DEDUP_KEYS + 1
  {
    hide Listed, Admit, Prune, Forget, Remember;
    if run != [] {
      var s, x := After(run[..|run|-1]), run[|run|-1];
      SeenIsBounded(run[..|run|-1]);
      match x
      case Try(route, sink, event, now) =>
        PruneListed(s, now);
        AdmitSeen(s, route, sink, event, now);
        var kept := Prune(s, now).(sent := Admit(s, route, sink, event, now).0.sent);
        SameListed(Prune(s, now), kept);
        RememberListed(kept, SeenKey(route.name, sink, event), now + route.dedup);
      case Add(route, origin) =>
        ForgetListed(s, route.name);
        SameListed(Forget(s, route.name), Step(s, x));
        SameListed(s, Step(s, x));
      case Remove(name) =>
        ForgetListed(s, name);
        SameListed(Forget(s, name), Step(s, x));
    } else {
      EmptyListed();
    }
  }

  lemma EmptyListed()
    ensures Listed(EMPTY)
  {
  }

  lemma SameListed(s: Router, r: Router)
    ensures s.seen == r.seen && s.order == r.order ==> Listed(s) == Listed(r)
  {
  }
}
