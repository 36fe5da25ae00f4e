/** The order in which the router remembers, and what a flood forgets. */
module RouterFlood {
  import opened Collections
  import opened Wrappers
  import opened RouterModel
  import opened RouterMemory

  // ---------------------------------------------------------------- the order of the dictionary

  /** The section that last stored the key since its route's memory was forgotten; -1 if there is none. */
  function LastStored(run: seq<Section>, key: SeenKey): int {
    if run == [] then -1
    else
      var init, last := run[..|run|-1], run[|run|-1];
      if Forgets(After(init), last, key.route) then -1
      else if Stores(After(init), last, key) then |init|
      else LastStored(init, key)
  }

  ghost predicate InTurn(run: seq<Section>, order: seq<SeenKey>) {
    forall i, j :: 0 <= i < j < |order| ==> LastStored(run, order[i]) < LastStored(run, order[j])
  }

  /** The key that the section stores, if it stores one, has no old entry left, or the last one of all. */
  predicate StoresFresh(s: Router, x: Section) {
    x.Try? && Stores(s, x, SeenKey(x.route.name, x.sink, x.event)) ==>
      var key, pruned := SeenKey(x.route.name, x.sink, x.event), Prune(s, x.now);
      key !in pruned.seen || (pruned.order != [] && pruned.order[|pruned.order|-1] == key)
  }

  lemma {:induction false} StoredBefore(run: seq<Section>, key: SeenKey)
    ensures LastStored(run, key) < |run|
  {
    if run != [] { StoredBefore(run[..|run|-1], key); }
  }

  lemma {:induction false} KeptInTurn(run: seq<Section>, order: seq<SeenKey>, keys: set<SeenKey>)
    requires InTurn(run, order)
    ensures InTurn(run, Kept(order, keys))
  {
    hide LastStored;
    if order != [] {
      var init, last := order[..|order|-1], order[|order|-1];
      KeptInTurn(run, init, keys);
      KeptHolds(init, keys);
      forall k | k in Kept(init, keys) ensures LastStored(run, k) < LastStored(run, last) {
        var i :| 0 <= i < |init| && init[i] == k;
        assert order[i] == k;
      }
    }
  }

  lemma PrunedInTurn(run: seq<Section>, s: Router, now: real)
    requires InTurn(run, s.order)
    ensures InTurn(run, Prune(s, now).order)
  {
    hide Kept, InTurn;
    KeptInTurn(run, s.order, (s.seen - set k | k in Oldest(s.order)).Keys);
    var r := Evict(s);
    assert InTurn(run, r.order);
    KeptInTurn(run, r.order, (map k | k in r.seen && r.seen[k] > now :: r.seen[k]).Keys);
  }

  lemma SameTurn(a: seq<Section>, b: seq<Section>, order: seq<SeenKey>)
    requires InTurn(a, order) && forall k :: k in order ==> LastStored(a, k) == LastStored(b, k)
    ensures InTurn(b, order)
  {
    hide LastStored;
  }

  /** What one section does to the record of a key. */
  lemma StoredStep(run: seq<Section>, key: SeenKey)
    requires run != []
    ensures var s, x := After(run[..|run|-1]), run[|run|-1];
      LastStored(run, key) ==
      if Forgets(s, x, key.route) then -1 else if Stores(s, x, key) then |run| - 1 else LastStored(run[..|run|-1], key)
  {
    hide After;
  }

  /** The order that a try leaves. */
  lemma StoredOrder(s: Router, x: Section)
    requires x.Try?
    ensures var key, pruned := SeenKey(x.route.name, x.sink, x.event), Prune(s, x.now);
      Step(s, x).order ==
      if Stores(s, x, key) && key !in pruned.seen then pruned.order + [key] else pruned.order
  {
    hide Prune, Admit, Remember;
    var key, pruned := SeenKey(x.route.name, x.sink, x.event), Prune(s, x.now);
    AdmitSeen(s, x.route, x.sink, x.event, x.now);
    RememberedOrder(pruned.(sent := Step(s, x).sent), key, x.now + x.route.dedup);
  }

  /** The newest key is where it belongs, at the end, exactly if it was stored afresh. */
  lemma TryTurn(run: seq<Section>, s: Router, x: Section)
    requires run != [] && x == run[|run|-1] && x.Try? && s == After(run[..|run|-1])
    requires InTurn(run[..|run|-1], s.order) && Listed(s) && |s.seen| <= MAX_DEDUP_KEYS + 1
    ensures InTurn(run, Step(s, x).order) <==> StoresFresh(s, x)
  {
    hide LastStored, Prune, Step, InTurn, Listed;
    var init, key, pruned := run[..|run|-1], SeenKey(x.route.name, x.sink, x.event), Prune(s, x.now);
    PrunedInTurn(init, s, x.now);
    PruneListed(s, x.now);
    StoredOrder(s, x);
    forall k ensures LastStored(run, k) == if Stores(s, x, k) then |init| else LastStored(init, k) {
      StoredStep(run, k);
    }
    forall k ensures LastStored(init, k) < |init| {
      StoredBefore(init, k);
    }
    if Stores(s, x, key) {
      ListedParts(pruned, key);
      StoredTurn(init, run, pruned.order, key);
    } else {
      SameTurn(init, run, pruned.order);
    }
  }

  lemma ListedParts(s: Router, key: SeenKey)
    requires Listed(s)
    ensures Distinct(s.order) && (key in s.order <==> key in s.seen)
  {
  }

  lemma RememberedOrder(s: Router, key: SeenKey, until: real)
    ensures Remember(s, key, until).order == if key in s.seen then s.order else s.order + [key]
  {
  }

  /** The last section of `run` stores `key` and no other. */
  ghost predicate OnlyNewest(init: seq<Section>, run: seq<Section>, key: SeenKey) {
    LastStored(run, key) == |init|
    && forall k :: k != key ==> LastStored(run, k) == LastStored(init, k) && LastStored(init, k) < |init|
  }

  lemma StoredTurn(init: seq<Section>, run: seq<Section>, order: seq<SeenKey>, key: SeenKey)
    requires InTurn(init, order) && Distinct(order) && OnlyNewest(init, run, key)
    ensures InTurn(run, if key in order then order else order + [key]) <==>
      key !in order || order[|order|-1] == key
  {
    hide *;
    if key !in order {
      NewestLast(init, run, order, key);
    } else if order[|order|-1] == key {
      var n := |order| - 1;
      FirstPart(init, order, n);
      assert order == order[..n] + [key];
      NewestLast(init, run, order[..n], key);
    } else {
      NewestEarly(init, run, order, key);
    }
  }

  lemma NewestLast(init: seq<Section>, run: seq<Section>, order: seq<SeenKey>, key: SeenKey)
    requires InTurn(init, order) && key !in order && OnlyNewest(init, run, key)
    ensures InTurn(run, order + [key])
  {
    hide LastStored;
    var all := order + [key];
    forall i, j | 0 <= i < j < |all| ensures LastStored(run, all[i]) < LastStored(run, all[j]) {
      assert all[i] == order[i] && order[i] in order;
      if j < |order| { assert all[j] == order[j] && order[j] in order; }
    }
  }

  lemma NewestEarly(init: seq<Section>, run: seq<Section>, order: seq<SeenKey>, key: SeenKey)
    requires key in order && order[|order|-1] != key && OnlyNewest(init, run, key)
    ensures !InTurn(run, order)
  {
    hide LastStored;
    var i :| 0 <= i < |order| && order[i] == key;
    assert i < |order| - 1;
  }

  lemma FirstPart(run: seq<Section>, order: seq<SeenKey>, n: nat)
    requires InTurn(run, order) && n < |order| && Distinct(order)
    ensures InTurn(run, order[..n]) && order[n] !in order[..n]
  {
    hide LastStored;
  }

  lemma ForgetTurn(run: seq<Section>, s: Router, name: string)
    requires InTurn(run, s.order)
    ensures InTurn(run, Forget(s, name).order) && forall k :: k in Forget(s, name).order ==> k.route != name
  {
    hide Kept, InTurn;
    var seen := map k | k in s.seen && k.route != name :: s.seen[k];
    KeptInTurn(run, s.order, seen.Keys);
    KeptHolds(s.order, seen.Keys);
  }

  lemma OtherTurn(run: seq<Section>, s: Router, x: Section)
    requires run != [] && x == run[|run|-1] && !x.Try? && s == After(run[..|run|-1])
    requires InTurn(run[..|run|-1], s.order)
    ensures InTurn(run, Step(s, x).order)
  {
    hide LastStored, InTurn, Forget;
    var init, name := run[..|run|-1], if x.Add? then x.route.name else x.name;
    ForgetTurn(init, s, name);
    forall k ensures LastStored(run, k) == if Forgets(s, x, k.route) then -1 else LastStored(init, k) {
      StoredStep(run, k);
    }
    SameTurn(init, run, Step(s, x).order);
  }

  lemma {:induction false} TurnStep(run: seq<Section>)
    requires run != [] && InTurn(run[..|run|-1], After(run[..|run|-1]).order)
    ensures InTurn(run, After(run).order) <==> StoresFresh(After(run[..|run|-1]), run[|run|-1])
  {
    hide InTurn, StoresFresh, Step, Listed;
    var s, x := After(run[..|run|-1]), run[|run|-1];
    SeenIsBounded(run[..|run|-1]);
    if x.Try? {
      TryTurn(run, s, x);
    } else {
      OtherTurn(run, s, x);
      NothingStored(s, x);
    }
  }

  lemma NothingStored(s: Router, x: Section)
    requires !x.Try?
    ensures StoresFresh(s, x)
  {
  }

  /** After `n` sections the order of the dictionary is that of the last admissions. */
  ghost predicate TurnAt(run: seq<Section>, n: nat)
    requires n <= |run|
  {
    InTurn(run[..n], After(run[..n]).order)
  }

  ghost predicate FreshAt(run: seq<Section>, n: nat)
    requires n < |run|
  {
    StoresFresh(After(run[..n]), run[n])
  }

  lemma {:induction false} TurnUpTo(run: seq<Section>, n: nat)
    requires n < |run| && TurnAt(run, n)
    ensures TurnAt(run, n + 1) <==> FreshAt(run, n)
  {
    hide InTurn, StoresFresh, After;
    assert run[..n+1][..n] == run[..n];
    TurnStep(run[..n+1]);
  }

  /** A flood forgets what comes first in the dictionary, which is meant to be the oldest. It is, all
      along a run, exactly if no message is let through again while an old entry of it is left that is
      not the last: then the order of the dictionary is that of the last admissions. */
  lemma {:induction false} OrderFollowsIff(run: seq<Section>)
    ensures (forall n: nat :: n <= |run| ==> TurnAt(run, n)) <==> forall n: nat :: n < |run| ==> FreshAt(run, n)
  {
    hide TurnAt, FreshAt;
    if forall n: nat :: n <= |run| ==> TurnAt(run, n) {
      forall n: nat | n < |run| ensures FreshAt(run, n) {
        assert TurnAt(run, n) && TurnAt(run, n + 1);
        TurnUpTo(run, n);
      }
    }
    if forall n: nat :: n < |run| ==> FreshAt(run, n) {
      NothingInTurn(run);
      for n := 0 to |run|
        invariant forall k: nat :: k <= n ==> TurnAt(run, k)
      {
        TurnUpTo(run, n);
      }
    }
  }

  lemma NothingInTurn(run: seq<Section>)
    ensures TurnAt(run, 0)
  {
    assert run[..0] == [];
  }

  // ---------------------------------------------------------------- a flood

  lemma NoRepeat(s: Router, key: SeenKey, now: real)
    requires key in s.seen ==> s.seen[key] <= now
    ensures !Repeats(s, key, now)
  {
  }

  lemma {:induction false} FirstTry(run: seq<Section>, route: Route, sink: string, event: Event)
    requires run == [Add(route, ""), Try(route, sink, event, 0.0)] && route.dedup > 0.0 && route.limit == 0
    ensures var s, key := After(run), SeenKey(route.name, sink, event);
      && s.order == [key] && s.seen == map[key := route.dedup] && s.nextPrune == Some(PRUNE_INTERVAL)
      && BarredUntil(run, key) == Some(route.dedup) && forall k :: k != key ==> BarredUntil(run, k) == None
  {
    var first := run[..1];
    assert first[..0] == [] && run[..|run|-1] == first && first == [Add(route, "")];
    assert After(first) == Put(After(first[..0]), route, "");
    AddedFirst(route);
    var s := After(first);
    var key := SeenKey(route.name, sink, event);
    assert After(run) == Admit(s, route, sink, event, 0.0).0;
    FirstAdmit(s, route, sink, event);
    forall k ensures BarredUntil(run, k) == if k == key then Some(route.dedup) else None {
      assert BarredUntil(first, k) == None;
    }
  }

  lemma AddedFirst(route: Route)
    ensures var s := Put(EMPTY, route, "");
      s.seen == map[] && s.order == [] && s.nextPrune == None && s.sent == map[]
  {
  }

  lemma FirstAdmit(s: Router, route: Route, sink: string, event: Event)
    requires s.seen == map[] && s.order == [] && s.nextPrune == None && route.dedup > 0.0 && route.limit == 0
    ensures var r, key := Admit(s, route, sink, event, 0.0), SeenKey(route.name, sink, event);
      && r.1 == Admitted && r.0.order == [key] && r.0.seen == map[key := route.dedup]
      && r.0.nextPrune == Some(PRUNE_INTERVAL)
  {
    var r := Prune(s, 0.0);
    assert Evict(s) == s;
    assert r.seen == map[] && r.order == [] && r.nextPrune == Some(PRUNE_INTERVAL);
  }

  lemma QuietAdmit(s: Router, route: Route, sink: string, event: Event, now: real)
    requires route.dedup > 0.0 && route.limit == 0 && |s.seen| <= MAX_DEDUP_KEYS
    requires s.nextPrune.Some? && now < s.nextPrune.value && !Repeats(s, SeenKey(route.name, sink, event), now)
    ensures Admit(s, route, sink, event, now)
         == (Remember(s, SeenKey(route.name, sink, event), now + route.dedup), Admitted)
  {
    hide Remember;
    assert Prune(s, now) == s;
  }

  lemma {:induction false} LaterTry(run: seq<Section>, s: Router, route: Route, sink: string, event: Event, now: real)
    requires run != [] && run[|run|-1] == Try(route, sink, event, now) && s == After(run[..|run|-1])
    requires route.dedup > 0.0 && route.limit == 0 && |s.seen| <= MAX_DEDUP_KEYS
    requires s.nextPrune.Some? && now < s.nextPrune.value
    requires !Repeats(s, SeenKey(route.name, sink, event), now)
    ensures After(run) == Remember(s, SeenKey(route.name, sink, event), now + route.dedup)
    ensures BarredUntil(run, SeenKey(route.name, sink, event)) == Some(now + route.dedup)
    ensures forall k ::
      k != SeenKey(route.name, sink, event) ==> BarredUntil(run, k) == BarredUntil(run[..|run|-1], k)
  {
    hide Admit, Remember, Repeats;
    QuietAdmit(s, route, sink, event, now);
  }

  /** The messages of the flood differ in their subjects. */
  function Filler(i: nat): Event {
    Event("filler", "", seq(i, _ => 'x'))
  }

  function FillerKey(route: Route, sink: string, i: nat): SeenKey {
    SeenKey(route.name, sink, Filler(i))
  }

  /** One message at 0, then `n` others at 5. */
  function Flood(route: Route, sink: string, first: Event, n: nat): seq<Section> {
    if n == 0 then [Add(route, ""), Try(route, sink, first, 0.0)]
    else Flood(route, sink, first, n - 1) + [Try(route, sink, Filler(n - 1), 5.0)]
  }

  /** The memory during the flood: `first`, remembered until `until`, and then the others in order. */
  ghost predicate Flooding(s: Router, route: Route, sink: string, first: Event, until: real, n: nat) {
    var key := SeenKey(route.name, sink, first);
    && |s.order| == n + 1 && |s.seen| == n + 1 && s.order[0] == key && key in s.seen && s.seen[key] == until
    && (forall i :: 1 <= i <= n ==> s.order[i] == FillerKey(route, sink, i - 1))
    && (forall i: nat :: i < n ==>
          FillerKey(route, sink, i) in s.seen && s.seen[FillerKey(route, sink, i)] == 5.0 + route.dedup)
    && (forall i: nat :: i >= n ==> FillerKey(route, sink, i) !in s.seen)
    && s.nextPrune == Some(PRUNE_INTERVAL)
  }

  lemma FillersDiffer(i: nat, j: nat)
    requires i != j
    ensures Filler(i) != Filler(j)
  {
    assert |Filler(i).subject| != |Filler(j).subject|;
  }

  lemma {:induction false} FloodState(route: Route, sink: string, first: Event, n: nat)
    requires route.dedup > 0.0 && route.limit == 0 && first.kind != "filler" && n <= MAX_DEDUP_KEYS
    ensures var run := Flood(route, sink, first, n);
      && Flooding(After(run), route, sink, first, route.dedup, n)
      && BarredUntil(run, SeenKey(route.name, sink, first)) == Some(route.dedup)
      && forall i: nat :: i < n ==> BarredUntil(run, FillerKey(route, sink, i)) == Some(5.0 + route.dedup)
  {
    hide Flooding, After, BarredUntil, Repeats;
    var run := Flood(route, sink, first, n);
    if n == 0 {
      FirstTry(run, route, sink, first);
      FirstFlooding(After(run), route, sink, first);
    } else {
      var init := Flood(route, sink, first, n - 1);
      FloodState(route, sink, first, n - 1);
      assert run[..|run|-1] == init && run[|run|-1] == Try(route, sink, Filler(n - 1), 5.0);
      var s := After(init);
      FloodingParts(s, route, sink, first, route.dedup, n - 1);
      NoRepeat(s, FillerKey(route, sink, n - 1), 5.0);
      LaterTry(run, s, route, sink, Filler(n - 1), 5.0);
      FloodingStep(s, route, sink, first, route.dedup, n - 1);
      forall i: nat | i < n - 1 ensures FillerKey(route, sink, i) != FillerKey(route, sink, n - 1) {
        FillersDiffer(i, n - 1);
      }
    }
  }

  lemma FirstFlooding(s: Router, route: Route, sink: string, first: Event)
    requires first.kind != "filler" && s.order == [SeenKey(route.name, sink, first)]
    requires s.seen == map[SeenKey(route.name, sink, first) := route.dedup] && s.nextPrune == Some(PRUNE_INTERVAL)
    ensures Flooding(s, route, sink, first, route.dedup, 0)
  {
    assert |s.seen| == |s.seen.Keys|;
  }

  lemma FloodingParts(s: Router, route: Route, sink: string, first: Event, until: real, n: nat)
    requires Flooding(s, route, sink, first, until, n)
    ensures FillerKey(route, sink, n) !in s.seen && |s.seen| == n + 1 && s.nextPrune == Some(PRUNE_INTERVAL)
    ensures SeenKey(route.name, sink, first) in s.seen && s.seen[SeenKey(route.name, sink, first)] == until
  {
  }

  lemma FloodingStep(s: Router, route: Route, sink: string, first: Event, until: real, n: nat)
    requires Flooding(s, route, sink, first, until, n) && first.kind != "filler"
    ensures Flooding(Remember(s, FillerKey(route, sink, n), 5.0 + route.dedup), route, sink, first, until, n + 1)
  {
    var r, key := Remember(s, FillerKey(route, sink, n), 5.0 + route.dedup), FillerKey(route, sink, n);
    assert r.seen.Keys == s.seen.Keys + {key} && |r.seen| == |r.seen.Keys| && |s.seen| == |s.seen.Keys|;
    forall i: nat | i != n ensures FillerKey(route, sink, i) != key {
      FillersDiffer(i, n);
    }
    hide Filler;
  }

  /** The next pruning of a memory over its bound, before the timed one, forgets what comes first. */
  lemma EvictedIff(s: Router, now: real, i: nat)
    requires Listed(s) && |s.seen| > 10_000 && s.nextPrune.Some? && now < s.nextPrune.value && i < |s.order|
    ensures s.order[i] in Prune(s, now).seen <==> i >= 1_000
    ensures s.order[i] in Prune(s, now).seen ==> Prune(s, now).seen[s.order[i]] == s.seen[s.order[i]]
  {
    hide Kept;
    var share := MAX_DEDUP_KEYS / FLOOD_SHARE;
    var oldest := Oldest(s.order);
    assert i < share && i < |oldest| ==> oldest[i] == s.order[i];
    if s.order[i] in oldest {
      var j :| 0 <= j < |oldest| && oldest[j] == s.order[i];
      assert s.order[j] == s.order[i];
    }
    assert |s.order| < share ==> oldest == s.order;
    OrderIsSeen(s);
  }

  lemma OrderIsSeen(s: Router)
    requires Listed(s)
    ensures |s.order| >= |s.seen|
  {
    SizeOfList(s.order, s.seen.Keys);
    assert |s.seen| == |s.seen.Keys|;
  }

  lemma {:induction false} SizeOfList(order: seq<SeenKey>, keys: set<SeenKey>)
    requires forall k :: k in keys ==> k in order
    ensures |order| >= |keys|
  {
    if order != [] {
      var last := order[|order|-1];
      SizeOfList(order[..|order|-1], keys - {last});
    } else {
      assert keys == {};
    }
  }

  lemma FloodingAgain(s: Router, route: Route, sink: string, first: Event, before: real, until: real, n: nat)
    requires Flooding(s, route, sink, first, before, n) && first.kind != "filler"
    ensures Flooding(Remember(s, SeenKey(route.name, sink, first), until), route, sink, first, until, n)
  {
    var r, key := Remember(s, SeenKey(route.name, sink, first), until), SeenKey(route.name, sink, first);
    assert r.seen.Keys == s.seen.Keys && |r.seen| == |r.seen.Keys| && |s.seen| == |s.seen.Keys|;
    hide Filler;
    FillersAreOthers(route, sink, first);
  }

  lemma FillersAreOthers(route: Route, sink: string, event: Event)
    requires event.kind != "filler"
    ensures forall i: nat :: FillerKey(route, sink, i) != SeenKey(route.name, sink, event)
  {
  }

  /** The memory is over its bound: a message remembered until 22 comes first, one until 15 far behind. */
  ghost predicate Overfull(s: Router, route: Route, sink: string, first: Event) {
    var key := SeenKey(route.name, sink, first);
    && |s.seen| > MAX_DEDUP_KEYS && |s.order| > 5_001 && s.nextPrune == Some(PRUNE_INTERVAL)
    && s.order[0] == key && key in s.seen
    && s.order[5_001] == FillerKey(route, sink, 5_000) && FillerKey(route, sink, 5_000) in s.seen
    && s.seen[FillerKey(route, sink, 5_000)] == 5.0 + route.dedup
  }

  lemma LastIsNew(s: Router, route: Route, sink: string, first: Event, last: Event, until: real, n: nat)
    requires Flooding(s, route, sink, first, until, n) && Listed(s) && last.kind != "filler" && last != first
    ensures SeenKey(route.name, sink, last) !in s.seen
  {
    hide Filler, Distinct;
    FillersAreOthers(route, sink, last);
    var key := SeenKey(route.name, sink, last);
    forall i | 0 <= i < |s.order| ensures s.order[i] != key {
      if i > 0 { assert s.order[i] == FillerKey(route, sink, i - 1); }
    }
  }

  lemma Overrun(s: Router, route: Route, sink: string, first: Event, last: Event, until: real, n: nat)
    requires Flooding(s, route, sink, first, until, n) && n == MAX_DEDUP_KEYS - 1
    requires SeenKey(route.name, sink, last) !in s.seen
    ensures Overfull(Remember(s, SeenKey(route.name, sink, last), 13.0 + route.dedup), route, sink, first)
  {
    hide Filler;
    var key := SeenKey(route.name, sink, last);
    var r := Remember(s, key, 13.0 + route.dedup);
    assert r.seen.Keys == s.seen.Keys + {key} && |r.seen| == |r.seen.Keys| && |s.seen| == |s.seen.Keys|;
    assert s.order[5_001] == FillerKey(route, sink, 5_000);
  }

  lemma AfterOverrun(s: Router, route: Route, sink: string, first: Event)
    requires Listed(s) && Overfull(s, route, sink, first) && route.dedup == 10.0 && route.limit == 0
    ensures Admit(s, route, sink, first, 14.0).1 == Admitted && Admit(s, route, sink, Filler(5_000), 14.0).1 == Dedup
  {
    hide Prune, Admit, Listed, Filler;
    EvictedIff(s, 14.0, 0);
    EvictedIff(s, 14.0, 5_001);
    DedupOf(s, route, sink, first, 14.0);
    DedupOf(s, route, sink, Filler(5_000), 14.0);
    NoLimit(s, route, sink, first, 14.0);
  }

  lemma NoLimit(s: Router, route: Route, sink: string, event: Event, now: real)
    requires route.limit == 0
    ensures Admit(s, route, sink, event, now).1 != RateLimited
  {
    hide Prune, Popped, Times, Remember, Repeats;
  }

  /** A flood of messages, and the first one let through again at 12, after its window, keeps its old
      place. When the memory runs over, it is forgotten although it is the newest but one: at 14 it is
      let through inside its window, while messages last let through at 5 are still refused. */
  lemma FloodForgetsNewest(sink: string)
    ensures var route := Route("r", [], "", 10.0, 0, 60.0);
      var first, last := Event("first", "", ""), Event("last", "", "");
      var flood := Flood(route, sink, first, MAX_DEDUP_KEYS - 1);
      var run := flood + [Try(route, sink, first, 12.0)] + [Try(route, sink, last, 13.0)];
      && BarredUntil(run, SeenKey("r", sink, first)) == Some(22.0)
      && BarredUntil(run, FillerKey(route, sink, 5_000)) == Some(15.0)
      && Admit(After(run), route, sink, first, 14.0).1 == Admitted
      && Admit(After(run), route, sink, Filler(5_000), 14.0).1 == Dedup
  {
    hide *;
    Bounds();
    var route := Route("r", [], "", 10.0, 0, 60.0);
    var first, last := Event("first", "", ""), Event("last", "", "");
    KindsDiffer();
    var n := MAX_DEDUP_KEYS - 1;
    var flood := Flood(route, sink, first, n);
    FloodState(route, sink, first, n);
    var s := After(flood);
    var again := flood + [Try(route, sink, first, 12.0)];
    assert again[..|again|-1] == flood;
    FloodingParts(s, route, sink, first, 10.0, n);
    NoRepeat(s, SeenKey("r", sink, first), 12.0);
    LaterTry(again, s, route, sink, first, 12.0);
    FloodingAgain(s, route, sink, first, 10.0, 22.0, n);
    var r := After(again);
    var run := again + [Try(route, sink, last, 13.0)];
    assert run[..|run|-1] == again;
    SeenIsBounded(again);
    LastIsNew(r, route, sink, first, last, 22.0, n);
    NoRepeat(r, SeenKey("r", sink, last), 13.0);
    FloodingParts(r, route, sink, first, 22.0, n);
    LaterTry(run, r, route, sink, last, 13.0);
    Overrun(r, route, sink, first, last, 22.0, n);
    SeenIsBounded(run);
    AfterOverrun(After(run), route, sink, first);
    FillersAreOthers(route, sink, first);
    FillersAreOthers(route, sink, last);
  }

  lemma Bounds()
    ensures MAX_DEDUP_KEYS == 10_000 && PRUNE_INTERVAL == 30.0
  {
  }

  lemma KindsDiffer()
    ensures "first" != "filler" && "last" != "filler" && "first" != "last"
  {
    assert "first"[0] != "last"[0] && |"first"| != |"filler"| && |"last"| != |"filler"|;
  }
}
