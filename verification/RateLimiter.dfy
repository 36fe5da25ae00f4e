/** The token bucket as a value, and what it grants over whole runs. */
module TokenBucket {

  datatype Bucket = Bucket(rate: real, capacity: real, tokens: real, updated: real)

  /** One locked section that asks for tokens, with the clock as it is read there. */
  datatype Ask = Ask(now: real, tokens: real)

  ghost predicate Sound(b: Bucket) {
    b.rate > 0.0 && b.capacity > 0.0 && 0.0 <= b.tokens <= b.capacity
  }

  function Fresh(rate: real, capacity: real, now: real): Bucket {
    Bucket(rate, capacity, capacity, now)
  }

  /** What the rate adds over a length of time. */
  function Gain(b: Bucket, length: real): real {
    length * b.rate
  }

  lemma GainAdds(b: Bucket, x: real, y: real)
    ensures Gain(b, x + y) == Gain(b, x) + Gain(b, y)
  {
    assert (x + y) * b.rate == x * b.rate + y * b.rate;
  }

  lemma GainGrows(b: Bucket, x: real)
    requires b.rate > 0.0 && x >= 0.0
    ensures Gain(b, x) >= 0.0
  {
  }

  /** `_refill_locked`. */
  function Refill(b: Bucket, now: real): Bucket {
    var elapsed := now - b.updated;
    if elapsed > 0.0 then
      var full := b.tokens + Gain(b, elapsed);
      b.(tokens := if full < b.capacity then full else b.capacity, updated := now)
    else b
  }

  predicate Grants(b: Bucket, ask: Ask) {
    Refill(b, ask.now).tokens >= ask.tokens
  }

  function Asked(b: Bucket, ask: Ask): Bucket {
    var full := Refill(b, ask.now);
    if full.tokens >= ask.tokens then full.(tokens := full.tokens - ask.tokens) else full
  }

  function After(b: Bucket, asks: seq<Ask>): Bucket {
    if asks == [] then b else Asked(After(b, asks[..|asks|-1]), asks[|asks|-1])
  }

  /** The tokens that the asks from clock reading `u` on were granted. */
  function GrantedSince(b: Bucket, asks: seq<Ask>, u: real): real {
    if asks == [] then 0.0
    else
      var init, last := asks[..|asks|-1], asks[|asks|-1];
      GrantedSince(b, init, u)
      + if u <= last.now && Grants(After(b, init), last) then last.tokens else 0.0
  }

  /** The tokens granted at clock readings from `u` to `t`. */
  function GrantedWithin(b: Bucket, asks: seq<Ask>, u: real, t: real): real {
    if asks == [] then 0.0
    else
      var init, last := asks[..|asks|-1], asks[|asks|-1];
      GrantedWithin(b, init, u, t)
      + if u <= last.now <= t && Grants(After(b, init), last) then last.tokens else 0.0
  }

  /** The clock is monotonic and read under the lock; every request is for more than nothing. */
  ghost predicate Ordered(start: real, asks: seq<Ask>) {
    && (forall i :: 0 <= i < |asks| ==> start <= asks[i].now && asks[i].tokens > 0.0)
    && (forall i, j :: 0 <= i < j < |asks| ==> asks[i].now <= asks[j].now)
  }

  lemma RefillSound(b: Bucket, now: real)
    requires Sound(b)
    ensures Sound(Refill(b, now)) && Refill(b, now).rate == b.rate && Refill(b, now).capacity == b.capacity
    ensures Refill(b, now).updated == if now > b.updated then now else b.updated
  {
    hide Gain;
    if now > b.updated { GainGrows(b, now - b.updated); }
  }

  lemma AskedSound(b: Bucket, ask: Ask)
    requires Sound(b) && ask.tokens > 0.0
    ensures Sound(Asked(b, ask)) && Asked(b, ask).rate == b.rate && Asked(b, ask).capacity == b.capacity
    ensures Asked(b, ask).updated == Refill(b, ask.now).updated
  {
    hide Refill;
    RefillSound(b, ask.now);
  }

  lemma InitOrdered(start: real, asks: seq<Ask>)
    requires Ordered(start, asks) && asks != []
    ensures Ordered(start, asks[..|asks|-1])
    ensures start <= asks[|asks|-1].now && asks[|asks|-1].tokens > 0.0
    ensures forall i :: 0 <= i < |asks| ==> asks[i].now <= asks[|asks|-1].now
    ensures |asks| > 1 ==> asks[|asks|-2].now <= asks[|asks|-1].now
  {
    var init := asks[..|asks|-1];
    assert forall i :: 0 <= i < |init| ==> init[i] == asks[i];
  }

  /** The balance stays between zero and the capacity. */
  lemma {:induction false} BalanceInRange(b: Bucket, asks: seq<Ask>)
    requires Sound(b) && Ordered(b.updated, asks)
    ensures var r := After(b, asks); Sound(r) && r.rate == b.rate && r.capacity == b.capacity
    ensures After(b, asks).updated == if asks == [] then b.updated else asks[|asks|-1].now
  {
    hide Refill, Asked, Ordered, Sound;
    if asks != [] {
      var init, last := asks[..|asks|-1], asks[|asks|-1];
      InitOrdered(b.updated, asks);
      BalanceInRange(b, init);
      AskedSound(After(b, init), last);
      RefillSound(After(b, init), last.now);
    }
  }

  lemma {:induction false} NothingSince(b: Bucket, asks: seq<Ask>, u: real)
    requires forall i :: 0 <= i < |asks| ==> asks[i].now < u
    ensures GrantedSince(b, asks, u) == 0.0
  {
    if asks != [] { NothingSince(b, asks[..|asks|-1], u); }
  }

  /** What is left at `t` and what was granted since `u` fit into the bound of the window. */
  ghost predicate Fits(b: Bucket, asks: seq<Ask>, u: real, t: real) {
    Refill(After(b, asks), t).tokens + GrantedSince(b, asks, u) <= b.capacity + Gain(b, t - u)
  }

  ghost predicate Fills(b: Bucket, asks: seq<Ask>, u: real, t: real) {
    Refill(After(b, asks), t).tokens + GrantedSince(b, asks, u) == b.capacity + Gain(b, t - u)
  }

  /** Time passes: a window that fitted at `now` fits at `t`; if the refill met no ceiling it stays as full. */
  lemma RefillFits(b: Bucket, u: real, now: real, t: real, granted: real)
    requires Sound(b) && now == b.updated <= t && b.tokens + granted <= b.capacity + Gain(b, now - u)
    ensures Refill(b, t).tokens + granted <= b.capacity + Gain(b, t - u)
    ensures b.tokens + granted == b.capacity + Gain(b, now - u) && (now == t || Refill(b, t).tokens < b.capacity)
      ==> Refill(b, t).tokens + granted == b.capacity + Gain(b, t - u)
  {
    hide Gain;
    GainAdds(b, now - u, t - now);
    assert (now - u) + (t - now) == t - u;
  }

  /** Granting moves tokens from the balance to what was granted. */
  lemma AskKeepsSum(b: Bucket, asks: seq<Ask>, u: real)
    requires asks != [] && u <= asks[|asks|-1].now
    ensures var init, last := asks[..|asks|-1], asks[|asks|-1];
      After(b, asks).tokens + GrantedSince(b, asks, u)
      == Refill(After(b, init), last.now).tokens + GrantedSince(b, init, u)
  {
    hide Refill;
  }

  lemma GainIsByRate(b: Bucket, r: Bucket, length: real)
    requires b.rate == r.rate
    ensures Gain(b, length) == Gain(r, length)
  {
  }

  lemma {:induction false} AlwaysFits(b: Bucket, asks: seq<Ask>, u: real, t: real)
    requires Sound(b) && Ordered(b.updated, asks)
    requires After(b, asks).updated <= t && u <= t
    ensures Fits(b, asks, u, t)
    decreases |asks|
  {
    hide Gain, Refill, Asked, After, GrantedSince, Ordered, Sound;
    BalanceInRange(b, asks);
    var r := After(b, asks);
    RefillSound(r, t);
    GainIsByRate(b, r, t - u);
    if asks == [] || asks[|asks|-1].now < u {
      NoneSince(b, asks, u);
      GainGrowsHere(b, t - u);
      InRange(Refill(r, t));
    } else {
      var init, last := asks[..|asks|-1], asks[|asks|-1];
      InitOrdered(b.updated, asks);
      BalanceInRange(b, init);
      AlwaysFits(b, init, u, last.now);
      AskKeepsSum(b, asks, u);
      GainIsByRate(b, r, last.now - u);
      RefillFits(r, u, last.now, t, GrantedSince(b, asks, u));
    }
  }

  lemma NoneSince(b: Bucket, asks: seq<Ask>, u: real)
    requires Ordered(b.updated, asks) && (asks == [] || asks[|asks|-1].now < u)
    ensures GrantedSince(b, asks, u) == 0.0
  {
    if asks != [] {
      InitOrdered(b.updated, asks);
      NothingSince(b, asks, u);
    }
  }

  lemma InRange(b: Bucket)
    requires Sound(b)
    ensures 0.0 <= b.tokens <= b.capacity
  {
  }

  lemma GainGrowsHere(b: Bucket, x: real)
    requires Sound(b) && x >= 0.0
    ensures Gain(b, x) >= 0.0
  {
    GainGrows(b, x);
  }

  /** The bound on every window of clock readings, over any run. */
  lemma {:induction false} WindowBound(b: Bucket, asks: seq<Ask>, u: real, t: real)
    requires Sound(b) && Ordered(b.updated, asks) && u <= t
    ensures GrantedWithin(b, asks, u, t) <= b.capacity + Gain(b, t - u)
  {
    hide Gain, Refill, Asked, After, GrantedSince, Ordered;
    GainGrows(b, t - u);
    if asks != [] {
      var init, last := asks[..|asks|-1], asks[|asks|-1];
      InitOrdered(b.updated, asks);
      if last.now > t {
        WindowBound(b, init, u, t);
      } else {
        WithinIsSince(b, asks, u, t);
        BalanceInRange(b, asks);
        RefillSound(After(b, asks), t);
        AlwaysFits(b, asks, u, t);
      }
    }
  }

  lemma {:induction false} WithinIsSince(b: Bucket, asks: seq<Ask>, u: real, t: real)
    requires forall i :: 0 <= i < |asks| ==> asks[i].now <= t
    ensures GrantedWithin(b, asks, u, t) == GrantedSince(b, asks, u)
  {
    if asks != [] { WithinIsSince(b, asks[..|asks|-1], u, t); }
  }

  /** Some window is filled to its bound: this is what the balance measures. */
  lemma {:induction false} SomeWindowIsFull(b: Bucket, asks: seq<Ask>, t: real) returns (u: real)
    requires Sound(b) && b.tokens == b.capacity && Ordered(b.updated, asks)
    requires After(b, asks).updated <= t
    ensures u <= t && Fills(b, asks, u, t)
    decreases |asks|
  {
    hide Gain, Refill, Asked, After, GrantedSince, Ordered, Sound;
    BalanceInRange(b, asks);
    var r := After(b, asks);
    RefillSound(r, t);
    if asks == [] || (asks[|asks|-1].now < t && Refill(r, t).tokens == b.capacity) {
      u := t;
      NoneSince(b, asks, u);
      NoGain(b);
      assert t - u == 0.0;
      if asks == [] { FullStaysFull(b, t); }
    } else {
      var init, last := asks[..|asks|-1], asks[|asks|-1];
      InitOrdered(b.updated, asks);
      BalanceInRange(b, init);
      u := SomeWindowIsFull(b, init, last.now);
      AskKeepsSum(b, asks, u);
      GainIsByRate(b, r, last.now - u);
      GainIsByRate(b, r, t - u);
      InRange(Refill(r, t));
      RefillFits(r, u, last.now, t, GrantedSince(b, asks, u));
    }
  }

  lemma NoGain(b: Bucket)
    ensures Gain(b, 0.0) == 0.0
  {
  }

  lemma FullStaysFull(b: Bucket, t: real)
    requires Sound(b) && b.tokens == b.capacity
    ensures After(b, []) == b && Refill(b, t).tokens == b.capacity
  {
    if t > b.updated { GainGrows(b, t - b.updated); }
  }

  /** The bucket against its reference: a request is granted exactly if no window that ends now would
      then hold more than the capacity and what the rate adds over its length. */
  lemma GrantedIff(b: Bucket, asks: seq<Ask>, ask: Ask)
    requires Sound(b) && b.tokens == b.capacity && Ordered(b.updated, asks + [ask])
    ensures Grants(After(b, asks), ask) <==>
      forall u :: u <= ask.now ==> GrantedSince(b, asks, u) + ask.tokens <= b.capacity + Gain(b, ask.now - u)
  {
    hide After, GrantedSince, Refill, Ordered, Gain, Sound;
    var all := asks + [ask];
    assert all[..|all|-1] == asks && all[|all|-1] == ask;
    InitOrdered(b.updated, all);
    BalanceInRange(b, asks);
    assert asks != [] ==> all[|asks|-1] == asks[|asks|-1];
    if Grants(After(b, asks), ask) {
      forall u | u <= ask.now ensures GrantedSince(b, asks, u) + ask.tokens <= b.capacity + Gain(b, ask.now - u) {
        AlwaysFits(b, asks, u, ask.now);
      }
    } else {
      var u := SomeWindowIsFull(b, asks, ask.now);
      assert GrantedSince(b, asks, u) + ask.tokens > b.capacity + Gain(b, ask.now - u);
    }
  }
}

/** `RateLimiter`. */
module RateLimiting {
  import opened Wrappers
  import opened TokenBucket

  /** How `acquire` ends; `Waiting` when the clock readings given to it are used up. */
  datatype Verdict = Granted | Exceeded | BadRequest | Waiting

  /** The bucket after `acquire`, how it ended, and how long it waited on the condition each time. */
  datatype Outcome = Outcome(bucket: Bucket, verdict: Verdict, waits: seq<real>)

  function Min(x: real, y: real): real {
    if x < y then x else y
  }

  /** What `acquire` does after its checks, with the clock readings in the order it takes them. */
  function Acquired(b: Bucket, n: real, deadline: Option<real>, clock: seq<real>): Outcome
    requires Sound(b)
    decreases |clock|
  {
    if clock == [] then Outcome(b, Waiting, [])
    else
      RefillSound(b, clock[0]);
      var full := Refill(b, clock[0]);
      var wait := (n - full.tokens) / b.rate;
      if full.tokens >= n then Outcome(full.(tokens := full.tokens - n), Granted, [])
      else if deadline.None? then Waited(wait, Acquired(full, n, None, clock[1..]))
      else if |clock| == 1 then Outcome(full, Waiting, [])
      else
        var remaining := deadline.value - clock[1];
        if remaining <= 0.0 then Outcome(full, Exceeded, [])
        else Waited(Min(wait, remaining), Acquired(full, n, deadline, clock[2..]))
  }

  function Waited(wait: real, rest: Outcome): Outcome {
    rest.(waits := [wait] + rest.waits)
  }

  function Deadline(start: real, timeout: Option<real>): Option<real> {
    if timeout.None? then None else Some(start + timeout.value)
  }

  class RateLimiter {
    const rate: real
    const capacity: real
    var tokens: real
    var updated: real

    ghost predicate Valid()
      reads this
    {
      Sound(State())
    }

    function State(): Bucket
      reads this
    {
      Bucket(rate, capacity, tokens, updated)
    }

    /** `__init__`, past its two checks. */
    constructor (rate: real, burst: Option<real>, now: real)
      requires rate > 0.0 && (burst.Some? ==> burst.value > 0.0)
      ensures Valid() && State() == Fresh(rate, if burst.Some? then burst.value else rate, now)
      ensures this.rate == rate && capacity == (if burst.Some? then burst.value else rate)
      ensures tokens == capacity && updated == now
    {
      this.rate := rate;
      var cap := if burst.Some? then burst.value else rate;
      this.capacity := cap;
      this.tokens := cap;
      this.updated := now;
    }

    /** `__init__`; `None` is its `ValueError`. */
    static method Create(rate: real, burst: Option<real>, now: real) returns (r: Option<RateLimiter>)
      ensures r.None? <==> rate <= 0.0 || (burst.Some? && burst.value <= 0.0)
      ensures r.Some? ==>
        fresh(r.value) && r.value.Valid()
        && r.value.State() == Fresh(rate, if burst.Some? then burst.value else rate, now)
    {
      if rate <= 0.0 || (burst.Some? && burst.value <= 0.0) {
        return None;
      }
      var limiter := new RateLimiter(rate, burst, now);
      return Some(limiter);
    }

    method RefillLocked(now: real)
      requires Valid()
      modifies `tokens, `updated
      ensures Valid() && State() == Refill(old(State()), now)
    {
      RefillSound(State(), now);
      var elapsed := now - updated;
      if elapsed > 0.0 {
        var full := tokens + elapsed * rate;
        tokens := if full < capacity then full else capacity;
        updated := now;
      }
    }

    /** `try_acquire`; `None` is its `ValueError`. */
    method TryAcquire(n: real, now: real) returns (r: Option<bool>)
      requires Valid()
      modifies `tokens, `updated
      ensures Valid()
      ensures n <= 0.0 ==> r == None && State() == old(State())
      ensures n > 0.0 ==> r == Some(Grants(old(State()), Ask(now, n))) && State() == Asked(old(State()), Ask(now, n))
    {
      if n <= 0.0 {
        return None;
      }
      RefillLocked(now);
      if tokens >= n {
        tokens := tokens - n;
        return Some(true);
      }
      return Some(false);
    }

    /** `acquire`, with no other caller; the two `ValueError`s are `BadRequest`. */
    method Acquire(n: real, timeout: Option<real>, start: real, clock: seq<real>)
      returns (verdict: Verdict, waits: seq<real>)
      requires Valid()
      modifies `tokens, `updated
      ensures Valid()
      ensures n <= 0.0 || n > capacity ==> State() == old(State()) && verdict == BadRequest && waits == []
      ensures 0.0 < n <= capacity ==>
        var deadline := if timeout.Some? then Some(start + timeout.value) else None;
        Outcome(State(), verdict, waits) == Acquired(old(State()), n, deadline, clock)
    {
      hide Acquired, Refill, Gain;
      waits := [];
      if n <= 0.0 || n > capacity {
        return BadRequest, waits;
      }
      var deadline := Deadline(start, timeout);
      var i := 0;
      ghost var all := Acquired(State(), n, deadline, clock);
      while i < |clock|
        invariant 0 <= i <= |clock| && Valid()
        invariant var rest := Acquired(State(), n, deadline, clock[i..]);
          Outcome(rest.bucket, rest.verdict, waits + rest.waits) == all
      {
        AcquiredRound(State(), n, deadline, clock[i..]);
        Readings(clock, i);
        RefillLocked(clock[i]);
        if tokens >= n {
          tokens := tokens - n;
          return Granted, waits;
        }
        var needed := n - tokens;
        var wait := needed / rate;
        i := i + 1;
        if deadline.Some? {
          if i == |clock| {
            return Waiting, waits;
          }
          var remaining := deadline.value - clock[i];
          if remaining <= 0.0 {
            return Exceeded, waits;
          }
          wait := Min(wait, remaining);
          i := i + 1;
        }
        ghost var rest := Acquired(State(), n, deadline, clock[i..]);
        assert waits + Waited(wait, rest).waits == (waits + [wait]) + rest.waits;
        waits := waits + [wait];
      }
      assert clock[i..] == [];
      AcquiredRound(State(), n, deadline, clock[i..]);
      return Waiting, waits;
    }
  }

  lemma Readings(clock: seq<real>, i: nat)
    requires i < |clock|
    ensures clock[i..][0] == clock[i] && clock[i..][1..] == clock[i+1..]
    ensures i + 1 < |clock| ==> clock[i..][1] == clock[i+1] && clock[i..][2..] == clock[i+2..]
  {
  }

  lemma AcquiredRound(b: Bucket, n: real, deadline: Option<real>, clock: seq<real>)
    requires Sound(b)
    ensures clock == [] ==> Acquired(b, n, deadline, clock) == Outcome(b, Waiting, [])
    ensures clock != [] ==>
      Sound(Refill(b, clock[0])) &&
      Acquired(b, n, deadline, clock) ==
      var full := Refill(b, clock[0]);
      var wait := (n - full.tokens) / b.rate;
      if full.tokens >= n then Outcome(full.(tokens := full.tokens - n), Granted, [])
      else if deadline.None? then Waited(wait, Acquired(full, n, None, clock[1..]))
      else if |clock| == 1 then Outcome(full, Waiting, [])
      else if deadline.value - clock[1] <= 0.0 then Outcome(full, Exceeded, [])
      else Waited(Min(wait, deadline.value - clock[1]), Acquired(full, n, deadline, clock[2..]))
  {
    hide Refill;
    if clock != [] { RefillSound(b, clock[0]); }
  }

  /** A request the bucket can hold at all is granted, uncontended and without a timeout, once its
      first wait has passed; it never waits twice unless the clock shows the wait was cut short. */
  lemma OneWaitIsEnough(b: Bucket, n: real, clock: seq<real>)
    requires Sound(b) && 0.0 < n <= b.capacity && |clock| >= 2 && b.updated <= clock[0]
    ensures var r := Acquired(b, n, None, clock);
      r.waits == [] || clock[1] >= clock[0] + r.waits[0] ==> r.verdict == Granted && |r.waits| <= 1
  {
    hide Refill;
    RefillSound(b, clock[0]);
    AcquiredRound(b, n, None, clock);
    var full := Refill(b, clock[0]);
    if full.tokens < n {
      AcquiredRound(full, n, None, clock[1..]);
      if clock[1] >= clock[0] + (n - full.tokens) / b.rate { WaitRefills(full, n, clock[1]); }
    }
  }

  lemma WaitRefills(b: Bucket, n: real, later: real)
    requires Sound(b) && b.tokens < n <= b.capacity && later >= b.updated + (n - b.tokens) / b.rate
    ensures Refill(b, later).tokens >= n
  {
    var w := (n - b.tokens) / b.rate;
    assert w * b.rate == n - b.tokens;
    assert (later - b.updated) * b.rate >= w * b.rate;
    assert w > 0.0;
  }

  /** Uncontended, with the clock standing still but for the waits: a request that the bucket can hold is granted
      exactly if it holds it already or the timeout is no shorter than the time it takes to fill up, and that
      is how long it waits; otherwise it is given up when the timeout is over. */
  lemma TimeoutIff(b: Bucket, n: real, now: real, timeout: real)
    requires Sound(b) && 0.0 < n <= b.capacity && b.updated <= now && timeout > 0.0
    ensures var missing := n - Refill(b, now).tokens;
      var wait := if missing / b.rate <= timeout then missing / b.rate else timeout;
      var r := Acquired(b, n, Some(now + timeout), [now, now, now + wait, now + wait]);
      && (missing <= 0.0 ==> r.verdict == Granted && r.waits == [])
      && (missing > 0.0 ==>
            r.waits == [wait] && r.verdict == if missing / b.rate <= timeout then Granted else Exceeded)
  {
    hide Refill, Acquired;
    RefillSound(b, now);
    var full := Refill(b, now);
    var missing := n - full.tokens;
    if missing > 0.0 {
      var need := missing / b.rate;
      var wait := if need <= timeout then need else timeout;
      var clock := [now, now, now + wait, now + wait];
      assert need > 0.0 by { QuotientIsPositive(missing, b.rate); }
      RefilledAt(b, now);
      AcquiredRound(b, n, Some(now + timeout), clock);
      var rest := clock[2..];
      assert rest == [now + wait, now + wait];
      AcquiredRound(full, n, Some(now + timeout), rest);
      if need <= timeout { WaitRefills(full, n, now + wait); } else { NoShorterWait(full, n, now + wait); }
      assert [wait] + [] == [wait];
    } else {
      var wait := if missing / b.rate <= timeout then missing / b.rate else timeout;
      AcquiredRound(b, n, Some(now + timeout), [now, now, now + wait, now + wait]);
    }
  }

  lemma QuotientIsPositive(x: real, y: real)
    requires x > 0.0 && y > 0.0
    ensures x / y > 0.0
  {
  }

  lemma RefilledAt(b: Bucket, now: real)
    requires b.updated <= now
    ensures var r := Refill(b, now); r.updated == now && r.rate == b.rate && r.capacity == b.capacity
  {
  }

  /** It is the shortest wait that can be enough. */
  lemma NoShorterWait(b: Bucket, n: real, later: real)
    requires Sound(b) && b.tokens < n && later < b.updated + (n - b.tokens) / b.rate
    ensures Refill(b, later).tokens < n
  {
    var w := (n - b.tokens) / b.rate;
    assert w * b.rate == n - b.tokens;
    assert (later - b.updated) * b.rate < w * b.rate;
  }

  /** `acquire` gives up only after a reading at or past its deadline, with the bucket still short; with
      timeout 0 it never waits, and still succeeds if the tokens are there. */
  lemma {:induction false} ExceededIsLate(b: Bucket, n: real, deadline: real, clock: seq<real>)
    requires Sound(b) && n > 0.0
    ensures var r := Acquired(b, n, Some(deadline), clock);
      r.verdict == Exceeded ==> r.bucket.tokens < n && exists i :: 0 < i < |clock| && clock[i] >= deadline
    ensures |clock| >= 2 && clock[1] >= deadline ==>
      var r := Acquired(b, n, Some(deadline), clock); r.waits == [] && r.verdict in {Granted, Exceeded}
    decreases |clock|
  {
    hide Refill;
    if |clock| >= 2 {
      RefillSound(b, clock[0]);
      var full := Refill(b, clock[0]);
      if full.tokens < n {
        if deadline - clock[1] <= 0.0 {
        } else {
          var rest := clock[2..];
          ExceededIsLate(full, n, deadline, rest);
          if Acquired(full, n, Some(deadline), rest).verdict == Exceeded {
            var i :| 0 < i < |rest| && rest[i] >= deadline;
            assert clock[i+2] == rest[i];
          }
        }
      }
    }
  }
}
