/** Exactly when pruning can be observed. */
module RateLimiterLimits {
  import opened Wrappers
  import opened RateLimiter
  import opened RateLimiterProofs

  /** Every key that is never evicted gets the decisions of its ideal bucket. */
  ghost predicate Unobservable(c: Rates, maxEntries: nat)
    requires ValidRates(c)
  {
    forall requests, key | Monotone(Times(requests)) && NeverEvicted(c, maxEntries, EMPTY, requests, key) ::
      KeyDecisions(c, maxEntries, requests, key) == IdealRun(c, None, TimesOf(requests, key))
  }

  lemma {:induction false} RunLength(c: Rates, maxEntries: nat, t: Table, requests: seq<Request>)
    requires ValidRates(c) && WellOrdered(t)
    ensures |Run(c, maxEntries, t, requests).1| == |requests| && WellOrdered(Run(c, maxEntries, t, requests).0)
    decreases |requests|
  {
    if requests != [] {
      StepWellOrdered(c, maxEntries, t, requests[0].key, requests[0].now);
      RunLength(c, maxEntries, Step(c, maxEntries, t, requests[0].key, requests[0].now).0, requests[1..]);
    }
  }

  function KeyDecisions(c: Rates, maxEntries: nat, requests: seq<Request>, key: string): seq<Decision>
    requires ValidRates(c)
  {
    RunLength(c, maxEntries, EMPTY, requests);
    DecisionsOf(requests, Run(c, maxEntries, EMPTY, requests).1, key)
  }

  function Burst(key: string, now: real, n: nat): seq<Request> {
    seq(n, _ => Request(key, now))
  }

  predicate Single(t: Table, key: string) {
    t == EMPTY || (t.order == [key] && t.buckets.Keys == {key})
  }

  /** The tokens that a request for `key` finds. */
  function Available(c: Rates, t: Table, key: string, now: real): real
    requires Single(t, key)
  {
    if t != EMPTY && !Idle(t.buckets[key], now, c.idleMs) then Level(c, t.buckets[key], now) else c.capacity
  }

  function Holding(key: string, tokens: real, now: real): Table {
    Table([key], map[key := Bucket(tokens, now, now)])
  }

  lemma SingleStep(c: Rates, maxEntries: nat, t: Table, key: string, now: real)
    requires ValidRates(c) && maxEntries >= 1 && Single(t, key) && Available(c, t, key, now) >= 1.0
    ensures WellOrdered(t) && !Evicts(c, maxEntries, t, Request(key, now), key)
    ensures Step(c, maxEntries, t, key, now) == (Holding(key, Available(c, t, key, now) - 1.0, now), Allowed)
  {
    FreshLevel(c, now);
    var pruned := Prune(t, now, c.idleMs);
    SinglePrune(t, key, now, c.idleMs);
    var (served, d) := Serve(c, pruned, key, now);
    assert served.order == [key];
    assert served.buckets == Holding(key, Available(c, t, key, now) - 1.0, now).buckets;
  }

  lemma SinglePrune(t: Table, key: string, now: real, idleMs: real)
    requires Single(t, key)
    ensures Prune(t, now, idleMs) == if t != EMPTY && Idle(t.buckets[key], now, idleMs) then EMPTY else t
  {
    if t != EMPTY {
      assert t.order[..0] == [];
      assert FreshKeys([], t.buckets, now, idleMs) == [];
      assert FreshKeys(t.order, t.buckets, now, idleMs) == if Idle(t.buckets[key], now, idleMs) then [] else [key];
    }
  }

  lemma HoldingAvailable(c: Rates, key: string, tokens: real, now: real)
    requires ValidRates(c) && tokens <= c.capacity
    ensures Single(Holding(key, tokens, now), key) && Available(c, Holding(key, tokens, now), key, now) == tokens
  {
    assert Max(0.0, now - now) * c.refillPerMs == 0.0;
  }

  /** One request in front of a run. */
  lemma RunFirst(c: Rates, maxEntries: nat, t: Table, r: Request, rest: seq<Request>, key: string, t': Table,
                 d: Decision)
    requires ValidRates(c) && WellOrdered(t) && WellOrdered(t')
    requires Step(c, maxEntries, t, r.key, r.now) == (t', d)
    ensures NeverEvicted(c, maxEntries, t, [r] + rest, key)
       <==> !Evicts(c, maxEntries, t, r, key) && NeverEvicted(c, maxEntries, t', rest, key)
    ensures Run(c, maxEntries, t, [r] + rest).0 == Run(c, maxEntries, t', rest).0
    ensures Accepted(Run(c, maxEntries, t, [r] + rest).1)
         == (if d == Allowed then 1 else 0) + Accepted(Run(c, maxEntries, t', rest).1)
  {
    RunUnfolds(c, maxEntries, t, r, rest, key);
    AcceptedFirst(d, Run(c, maxEntries, t', rest).1);
  }

  /** All of `requests` are allowed and `end` is what remains. */
  ghost predicate Drains(c: Rates, maxEntries: nat, t: Table, requests: seq<Request>, key: string, end: Table)
    requires ValidRates(c)
  {
    && WellOrdered(t) && NeverEvicted(c, maxEntries, t, requests, key)
    && Accepted(Run(c, maxEntries, t, requests).1) == |requests|
    && Run(c, maxEntries, t, requests).0 == end
  }

  lemma DrainsNone(c: Rates, maxEntries: nat, t: Table, key: string)
    requires ValidRates(c) && WellOrdered(t)
    ensures Drains(c, maxEntries, t, [], key, t)
  {}

  lemma DrainsMore(c: Rates, maxEntries: nat, t: Table, r: Request, rest: seq<Request>, t': Table, end: Table)
    requires ValidRates(c) && WellOrdered(t) && !Evicts(c, maxEntries, t, r, r.key)
    requires Step(c, maxEntries, t, r.key, r.now) == (t', Allowed)
    requires Drains(c, maxEntries, t', rest, r.key, end)
    ensures Drains(c, maxEntries, t, [r] + rest, r.key, end)
  {
    RunFirst(c, maxEntries, t, r, rest, r.key, t', Allowed);
  }

  /** What `n` requests at once leave of `tokens`. */
  function Left(t: Table, key: string, now: real, n: nat, tokens: real): Table {
    if n == 0 then t else Holding(key, tokens - n as real, now)
  }

  lemma LeftOver(t: Table, key: string, now: real, n: nat, tokens: real)
    requires n > 0
    ensures Left(Holding(key, tokens - 1.0, now), key, now, n - 1, tokens - 1.0) == Left(t, key, now, n, tokens)
  {
    assert tokens - 1.0 - (n - 1) as real == tokens - n as real;
  }

  lemma BurstFirst(key: string, now: real, n: nat)
    requires n > 0
    ensures Burst(key, now, n) == [Request(key, now)] + Burst(key, now, n - 1)
  {}

  lemma BurstMore(c: Rates, maxEntries: nat, t: Table, key: string, now: real, n: nat, tokens: real)
    requires ValidRates(c) && maxEntries >= 1 && Single(t, key) && n > 0
    requires tokens == Available(c, t, key, now) && tokens >= 1.0
    requires var t' := Holding(key, tokens - 1.0, now);
             Drains(c, maxEntries, t', Burst(key, now, n - 1), key, Left(t', key, now, n - 1, tokens - 1.0))
    ensures Drains(c, maxEntries, t, Burst(key, now, n), key, Left(t, key, now, n, tokens))
  {
    var t' := Holding(key, tokens - 1.0, now);
    SingleStep(c, maxEntries, t, key, now);
    DrainsMore(c, maxEntries, t, Request(key, now), Burst(key, now, n - 1), t',
               Left(t', key, now, n - 1, tokens - 1.0));
    LeftOver(t, key, now, n, tokens);
    BurstFirst(key, now, n);
  }

  /** Requests made all at once, on as many tokens, are all allowed. */
  lemma {:induction false} BurstRun(c: Rates, maxEntries: nat, t: Table, key: string, now: real, n: nat, tokens: real)
    requires ValidRates(c) && maxEntries >= 1 && Single(t, key)
    requires tokens == Available(c, t, key, now) && n as real <= tokens <= c.capacity
    ensures Drains(c, maxEntries, t, Burst(key, now, n), key, Left(t, key, now, n, tokens))
    decreases n
  {
    if n == 0 {
      DrainsNone(c, maxEntries, t, key);
      assert Burst(key, now, n) == [];
    } else {
      HoldingAvailable(c, key, tokens - 1.0, now);
      BurstRun(c, maxEntries, Holding(key, tokens - 1.0, now), key, now, n - 1, tokens - 1.0);
      BurstMore(c, maxEntries, t, key, now, n, tokens);
    }
  }

  lemma {:induction false} RunConcat(c: Rates, maxEntries: nat, t: Table, a: seq<Request>, b: seq<Request>, key: string)
    requires ValidRates(c) && WellOrdered(t) && WellOrdered(Run(c, maxEntries, t, a).0)
    requires NeverEvicted(c, maxEntries, t, a, key) && NeverEvicted(c, maxEntries, Run(c, maxEntries, t, a).0, b, key)
    ensures NeverEvicted(c, maxEntries, t, a + b, key)
    ensures Run(c, maxEntries, t, a + b).0 == Run(c, maxEntries, Run(c, maxEntries, t, a).0, b).0
    ensures Accepted(Run(c, maxEntries, t, a + b).1)
         == Accepted(Run(c, maxEntries, t, a).1) + Accepted(Run(c, maxEntries, Run(c, maxEntries, t, a).0, b).1)
    decreases |a|
  {
    if a == [] {
      assert a + b == b;
    } else {
      var r, rest := a[0], a[1..];
      var (t', d) := Step(c, maxEntries, t, r.key, r.now);
      StepWellOrdered(c, maxEntries, t, r.key, r.now);
      FirstApart(a, b);
      RunFirst(c, maxEntries, t, r, rest, key, t', d);
      RunFirst(c, maxEntries, t, r, rest + b, key, t', d);
      RunConcat(c, maxEntries, t', rest, b, key);
    }
  }

  lemma FirstApart(a: seq<Request>, b: seq<Request>)
    requires a != []
    ensures a == [a[0]] + a[1..] && a + b == [a[0]] + (a[1..] + b)
  {}

  lemma AcceptedFirst(d: Decision, ds: seq<Decision>)
    ensures Accepted([d] + ds) == (if d == Allowed then 1 else 0) + Accepted(ds)
  {
    assert ([d] + ds)[1..] == ds;
  }

  lemma {:induction false} OneKey(requests: seq<Request>, ds: seq<Decision>, key: string)
    requires |requests| == |ds| && forall i | 0 <= i < |requests| :: requests[i].key == key
    ensures DecisionsOf(requests, ds, key) == ds && TimesOf(requests, key) == Times(requests)
  {
    if requests != [] {
      OneKey(requests[1..], ds[1..], key);
      assert Times(requests) == [requests[0].now] + Times(requests[1..]);
    }
  }

  lemma DrainsThen(c: Rates, maxEntries: nat, t: Table, a: seq<Request>, mid: Table, b: seq<Request>, end: Table,
                   key: string)
    requires ValidRates(c)
    requires Drains(c, maxEntries, t, a, key, mid) && Drains(c, maxEntries, mid, b, key, end)
    ensures Drains(c, maxEntries, t, a + b, key, end)
  {
    RunConcat(c, maxEntries, t, a, b, key);
  }

  /** How long a bucket that was emptied down to a fraction takes to hold a whole token. */
  function Wait(c: Rates): (ms: real)
    requires ValidRates(c) && c.capacity >= 1.0
    ensures ms > 0.0 && ms * c.refillPerMs == 1.0 - (c.capacity - c.capacity.Floor as real)
  {
    var missing := 1.0 - (c.capacity - c.capacity.Floor as real);
    assert (missing / c.refillPerMs) * c.refillPerMs == missing;
    QuotientPositive(missing, c.refillPerMs);
    missing / c.refillPerMs
  }

  lemma QuotientPositive(a: real, b: real)
    requires a > 0.0 && b > 0.0
    ensures a / b > 0.0
  {}

  /** All whole tokens at once, and one more as soon as the remaining fraction is completed. */
  function Drain(c: Rates, key: string, now: real): seq<Request>
    requires ValidRates(c) && c.capacity >= 1.0
  {
    Burst(key, now, c.capacity.Floor) + [Request(key, now + Wait(c))]
  }

  /** Waiting completes the token, or gets the bucket pruned and so refilled. */
  lemma WaitedAvailable(c: Rates, key: string, now: real)
    requires ValidRates(c) && c.capacity >= 1.0
    ensures var rest := c.capacity - c.capacity.Floor as real;
            Available(c, Holding(key, rest, now), key, now + Wait(c)) >= 1.0
  {
    assert Max(0.0, now + Wait(c) - now) == Wait(c);
  }

  lemma OneDraw(c: Rates, maxEntries: nat, t: Table, key: string, now: real)
    requires ValidRates(c) && maxEntries >= 1 && Single(t, key) && Available(c, t, key, now) >= 1.0
    ensures Drains(c, maxEntries, t, [Request(key, now)], key, Holding(key, Available(c, t, key, now) - 1.0, now))
  {
    var r, end := Request(key, now), Holding(key, Available(c, t, key, now) - 1.0, now);
    SingleStep(c, maxEntries, t, key, now);
    DrainsNone(c, maxEntries, end, key);
    DrainsMore(c, maxEntries, t, r, [], end, end);
    assert [r] + [] == [r];
  }

  lemma WholeTokens(c: Rates, maxEntries: nat, t: Table, key: string, now: real)
    requires ValidRates(c) && maxEntries >= 1 && c.capacity >= 1.0
    requires Single(t, key) && Available(c, t, key, now) == c.capacity
    ensures Drains(c, maxEntries, t, Burst(key, now, c.capacity.Floor), key,
                   Holding(key, c.capacity - c.capacity.Floor as real, now))
  {
    assert Left(t, key, now, c.capacity.Floor, c.capacity) == Holding(key, c.capacity - c.capacity.Floor as real, now);
    BurstRun(c, maxEntries, t, key, now, c.capacity.Floor, c.capacity);
  }

  ghost predicate TouchedAt(t: Table, key: string, time: real) {
    Single(t, key) && t != EMPTY && t.buckets[key].touchedAt == time
  }

  /** From a full bucket all of `Drain` is allowed. */
  lemma DrainRun(c: Rates, maxEntries: nat, t: Table, key: string, now: real) returns (end: Table)
    requires ValidRates(c) && maxEntries >= 1 && c.capacity >= 1.0
    requires Single(t, key) && Available(c, t, key, now) == c.capacity
    ensures Drains(c, maxEntries, t, Drain(c, key, now), key, end) && TouchedAt(end, key, now + Wait(c))
  {
    var later, mid := now + Wait(c), Holding(key, c.capacity - c.capacity.Floor as real, now);
    assert Drain(c, key, now) == Burst(key, now, c.capacity.Floor) + [Request(key, later)];
    assert Single(mid, key);
    WholeTokens(c, maxEntries, t, key, now);
    WaitedAvailable(c, key, now);
    OneDraw(c, maxEntries, mid, key, later);
    end := Holding(key, Available(c, mid, key, later) - 1.0, later);
    DrainsThen(c, maxEntries, t, Burst(key, now, c.capacity.Floor), mid, [Request(key, later)], end, key);
  }

  /** Drain the bucket, idle until it is pruned, drain it again. */
  function TwoDrains(c: Rates): seq<Request>
    requires ValidRates(c) && c.capacity >= 1.0
  {
    Drain(c, "k", 0.0) + Drain(c, "k", Wait(c) + c.idleMs)
  }

  lemma PrunedIsFull(c: Rates, t: Table, key: string, time: real)
    requires ValidRates(c) && TouchedAt(t, key, time)
    ensures Available(c, t, key, time + c.idleMs) == c.capacity
  {
  }

  lemma TwoDrainsRun(c: Rates, maxEntries: nat) returns (end: Table)
    requires ValidRates(c) && maxEntries >= 1 && c.capacity >= 1.0
    ensures Drains(c, maxEntries, EMPTY, TwoDrains(c), "k", end)
  {
    var first := DrainRun(c, maxEntries, EMPTY, "k", 0.0);
    var pruned := Wait(c) + c.idleMs;
    assert TouchedAt(first, "k", Wait(c)) && TwoDrains(c) == Drain(c, "k", 0.0) + Drain(c, "k", pruned);
    PrunedIsFull(c, first, "k", Wait(c));
    end := DrainRun(c, maxEntries, first, "k", pruned);
    DrainsThen(c, maxEntries, EMPTY, Drain(c, "k", 0.0), first, Drain(c, "k", pruned), end, "k");
  }

  lemma TwoDrainsTimes(c: Rates)
    requires ValidRates(c) && c.capacity >= 1.0
    ensures var requests, n := TwoDrains(c), c.capacity.Floor;
            && |requests| == 2 * n + 2 && Monotone(Times(requests))
            && (forall i | 0 <= i < 2 * n + 2 :: requests[i].key == "k")
            && Times(requests)[0] == 0.0 && Times(requests)[2 * n + 1] == 2.0 * Wait(c) + c.idleMs
  {
    var requests, n, again := TwoDrains(c), c.capacity.Floor, Wait(c) + c.idleMs;
    forall i | 0 <= i < 2 * n + 2
      ensures requests[i] == Request("k", if i < n then 0.0 else if i == n then Wait(c)
                                          else if i < 2 * n + 1 then again else again + Wait(c))
    {
    }
  }

  lemma AllOfOneKey(c: Rates, maxEntries: nat, requests: seq<Request>, key: string)
    requires ValidRates(c) && forall i | 0 <= i < |requests| :: requests[i].key == key
    ensures KeyDecisions(c, maxEntries, requests, key) == Run(c, maxEntries, EMPTY, requests).1
    ensures TimesOf(requests, key) == Times(requests)
  {
    RunLength(c, maxEntries, EMPTY, requests);
    OneKey(requests, Run(c, maxEntries, EMPTY, requests).1, key);
  }

  lemma IdealAcceptsAtMost(c: Rates, times: seq<real>)
    requires ValidRates(c) && Monotone(times) && times != []
    ensures Accepted(IdealRun(c, None, times)) as real <= c.capacity + Refill(c, times[0], times[|times| - 1])
  {
    RateIsBounded(c, times, 0, |times|);
    assert IdealRun(c, None, times)[0..|times|] == IdealRun(c, None, times);
  }

  lemma DifferentCounts(a: seq<Decision>, b: seq<Decision>)
    requires Accepted(a) != Accepted(b)
    ensures a != b
  {}

  /** Requests of one key, from time `first` to time `last`, of which `total` are allowed. */
  ghost predicate Allows(c: Rates, maxEntries: nat, requests: seq<Request>, key: string, first: real, last: real,
                         total: nat)
    requires ValidRates(c)
  {
    && requests != [] && (forall i | 0 <= i < |requests| :: requests[i].key == key)
    && Monotone(Times(requests)) && Times(requests)[0] == first && Times(requests)[|requests| - 1] == last
    && NeverEvicted(c, maxEntries, EMPTY, requests, key)
    && Accepted(Run(c, maxEntries, EMPTY, requests).1) == total
  }

  /** A run that allows more than an ideal bucket could pay for. */
  lemma ObservedBy(c: Rates, maxEntries: nat, requests: seq<Request>, key: string, first: real, last: real, total: nat)
    requires ValidRates(c) && Allows(c, maxEntries, requests, key, first, last, total)
    requires total as real > c.capacity + Refill(c, first, last)
    ensures !Unobservable(c, maxEntries)
  {
    AllOfOneKey(c, maxEntries, requests, key);
    IdealAcceptsAtMost(c, Times(requests));
    DifferentCounts(KeyDecisions(c, maxEntries, requests, key), IdealRun(c, None, Times(requests)));
  }

  lemma TwoDrainsAllow(c: Rates, maxEntries: nat)
    requires ValidRates(c) && maxEntries >= 1 && c.capacity >= 1.0
    ensures Allows(c, maxEntries, TwoDrains(c), "k", 0.0, 2.0 * Wait(c) + c.idleMs, 2 * c.capacity.Floor + 2)
  {
    var end := TwoDrainsRun(c, maxEntries);
    TwoDrainsTimes(c);
  }

  lemma TwoWaits(wait: real, idle: real, rate: real, waited: real, idled: real)
    requires waited == wait * rate && idled == idle * rate
    ensures (2.0 * wait + idle - 0.0) * rate == 2.0 * waited + idled
  {
  }

  /** A key drained twice, once before and once after being pruned, gets more than the bucket held
      and could refill meanwhile. */
  lemma LargeBurstIsObservable(c: Rates, maxEntries: nat)
    requires ValidRates(c) && maxEntries >= 1 && c.capacity >= 1.0 && !RefillsWhileIdle(c)
    ensures !Unobservable(c, maxEntries)
  {
    var wait := Wait(c);
    var last := 2.0 * wait + c.idleMs;
    TwoDrainsAllow(c, maxEntries);
    TwoWaits(wait, c.idleMs, c.refillPerMs, wait * c.refillPerMs, c.idleMs * c.refillPerMs);
    ObservedBy(c, maxEntries, TwoDrains(c), "k", 0.0, last, 2 * c.capacity.Floor + 2);
  }

  // ----- Policies that cannot pay for one request -----

  /** All buckets are full, and full is less than a token. */
  ghost predicate Broke(c: Rates, t: Table) {
    WellOrdered(t) && forall k | k in t.buckets :: t.buckets[k].tokens == c.capacity
  }

  lemma BrokeDraw(c: Rates, b: Bucket, now: real)
    requires ValidRates(c) && c.capacity < 1.0 && b.tokens == c.capacity
    ensures Draw(c, b, now) == (Bucket(c.capacity, now, now), Refused(RetryAfter(c, c.capacity)))
  {
    ProductNonNegative(Max(0.0, now - b.updatedAt), c.refillPerMs);
  }

  lemma BrokeStep(c: Rates, maxEntries: nat, t: Table, r: Request)
    requires ValidRates(c) && c.capacity < 1.0 && Broke(c, t)
    ensures Broke(c, Step(c, maxEntries, t, r.key, r.now).0)
    ensures Step(c, maxEntries, t, r.key, r.now).1 == Refused(RetryAfter(c, c.capacity))
  {
    StepWellOrdered(c, maxEntries, t, r.key, r.now);
    BrokeDraw(c, BucketOf(c, Prune(t, r.now, c.idleMs), r.key, r.now), r.now);
  }

  /** Everything is refused with the same advice, pruned or not. */
  lemma {:induction false} BrokeRun(c: Rates, maxEntries: nat, t: Table, requests: seq<Request>, key: string,
                                    b: Option<Bucket>)
    requires ValidRates(c) && c.capacity < 1.0 && Broke(c, t) && (b.Some? ==> b.value.tokens == c.capacity)
    ensures |Run(c, maxEntries, t, requests).1| == |requests|
    ensures DecisionsOf(requests, Run(c, maxEntries, t, requests).1, key) == IdealRun(c, b, TimesOf(requests, key))
    decreases |requests|
  {
    if requests != [] {
      var r, rest := requests[0], requests[1..];
      assert requests == [r] + rest;
      var (t', d) := Step(c, maxEntries, t, r.key, r.now);
      RunUnfolds(c, maxEntries, t, r, rest, key);
      BrokeStep(c, maxEntries, t, r);
      BrokeDraw(c, Ideal(c, b, r.now), r.now);
      BrokeRun(c, maxEntries, t', rest, key, IdealNext(c, b, r, key));
      DecisionsUnfold(c, r, rest, d, Run(c, maxEntries, t', rest).1, key, b);
    }
  }

  // ----- Tables without room -----

  lemma NoRoomStep(c: Rates, r: Request)
    requires ValidRates(c) && c.capacity >= 1.0
    ensures Step(c, 0, EMPTY, r.key, r.now) == (EMPTY, Allowed) && Evicts(c, 0, EMPTY, r, r.key)
  {
    FreshLevel(c, r.now);
    var (served, d) := Serve(c, Prune(EMPTY, r.now, c.idleMs), r.key, r.now);
    assert served.order == [r.key] && served.order[..1] == [r.key] && served.order[1..] == [];
    assert Bound(served, 0).buckets == map[];
  }

  /** In a table without room every allowed key is evicted at once. */
  lemma {:induction false} NoRoom(c: Rates, requests: seq<Request>, key: string)
    requires ValidRates(c) && c.capacity >= 1.0 && NeverEvicted(c, 0, EMPTY, requests, key)
    ensures TimesOf(requests, key) == []
    decreases |requests|
  {
    if requests != [] {
      NoRoomStep(c, requests[0]);
      NoRoom(c, requests[1..], key);
    }
  }

  lemma {:induction false} AsManyDecisions(requests: seq<Request>, ds: seq<Decision>, key: string)
    requires |requests| == |ds|
    ensures |DecisionsOf(requests, ds, key)| == |TimesOf(requests, key)|
  {
    if requests != [] {
      AsManyDecisions(requests[1..], ds[1..], key);
    }
  }

  // ----- Exactly -----

  /** Pruning is unobservable over all runs exactly if the burst does not exceed the rate, or a full
      bucket does not pay for one request, or the table has no room for any bucket. */
  lemma UnobservableExactly(p: Policy, maxEntries: nat)
    requires ValidPolicy(p)
    ensures Unobservable(RatesOf(p), maxEntries) <==> p.burst <= p.rate || p.rate + p.burst < 1.0 || maxEntries == 0
  {
    var c := RatesOf(p);
    PolicyRates(p);
    if p.burst > p.rate && c.capacity >= 1.0 && maxEntries >= 1 {
      LargeBurstIsObservable(c, maxEntries);
    } else {
      forall requests, key | Monotone(Times(requests)) && NeverEvicted(c, maxEntries, EMPTY, requests, key)
        ensures KeyDecisions(c, maxEntries, requests, key) == IdealRun(c, None, TimesOf(requests, key))
      {
        if RefillsWhileIdle(c) {
          PruningIsUnobservable(c, maxEntries, requests, key);
        } else if c.capacity < 1.0 {
          BrokeRun(c, maxEntries, EMPTY, requests, key, None);
        } else {
          NoRoom(c, requests, key);
          RunLength(c, maxEntries, EMPTY, requests);
          AsManyDecisions(requests, Run(c, maxEntries, EMPTY, requests).1, key);
        }
      }
    }
  }

  // ----- Limits of a policy -----

  lemma SingleRefused(c: Rates, maxEntries: nat, t: Table, key: string, now: real)
    requires ValidRates(c) && maxEntries >= 1 && Single(t, key) && Available(c, t, key, now) < 1.0
    ensures WellOrdered(t) && !Evicts(c, maxEntries, t, Request(key, now), key)
    ensures var (end, d) := Step(c, maxEntries, t, key, now);
            end == Holding(key, Available(c, t, key, now), now) && d.Refused?
  {
    FreshLevel(c, now);
    SinglePrune(t, key, now, c.idleMs);
    var (served, d) := Serve(c, Prune(t, now, c.idleMs), key, now);
    assert served.order == [key];
    assert served.buckets == Holding(key, Available(c, t, key, now), now).buckets;
  }

  /** None of `requests` is allowed. */
  ghost predicate Refuses(c: Rates, maxEntries: nat, t: Table, requests: seq<Request>, key: string)
    requires ValidRates(c)
  {
    && WellOrdered(t) && NeverEvicted(c, maxEntries, t, requests, key)
    && Accepted(Run(c, maxEntries, t, requests).1) == 0
  }

  lemma RefusesNone(c: Rates, maxEntries: nat, t: Table, key: string)
    requires ValidRates(c) && WellOrdered(t)
    ensures Refuses(c, maxEntries, t, [], key)
  {}

  lemma RefusesMore(c: Rates, maxEntries: nat, t: Table, r: Request, rest: seq<Request>, t': Table, d: Decision)
    requires ValidRates(c) && WellOrdered(t) && !Evicts(c, maxEntries, t, r, r.key)
    requires Step(c, maxEntries, t, r.key, r.now) == (t', d) && d.Refused?
    requires Refuses(c, maxEntries, t', rest, r.key)
    ensures Refuses(c, maxEntries, t, [r] + rest, r.key)
  {
    RunFirst(c, maxEntries, t, r, rest, r.key, t', d);
  }

  lemma RefusedFirst(c: Rates, maxEntries: nat, t: Table, key: string, now: real, n: nat, tokens: real)
    requires ValidRates(c) && maxEntries >= 1 && Single(t, key) && n > 0
    requires tokens == Available(c, t, key, now) < 1.0
    requires Refuses(c, maxEntries, Holding(key, tokens, now), Burst(key, now, n - 1), key)
    ensures Refuses(c, maxEntries, t, Burst(key, now, n), key)
  {
    SingleRefused(c, maxEntries, t, key, now);
    var d := Step(c, maxEntries, t, key, now).1;
    RefusesMore(c, maxEntries, t, Request(key, now), Burst(key, now, n - 1), Holding(key, tokens, now), d);
    BurstFirst(key, now, n);
  }

  /** Without a whole token all requests made at once are refused. */
  lemma {:induction false} BurstRefused(c: Rates, maxEntries: nat, t: Table, key: string, now: real, n: nat,
                                        tokens: real)
    requires ValidRates(c) && maxEntries >= 1 && Single(t, key)
    requires tokens == Available(c, t, key, now) < 1.0 && tokens <= c.capacity
    ensures Refuses(c, maxEntries, t, Burst(key, now, n), key)
    decreases n
  {
    if n == 0 {
      RefusesNone(c, maxEntries, t, key);
      assert Burst(key, now, n) == [];
    } else {
      HoldingAvailable(c, key, tokens, now);
      BurstRefused(c, maxEntries, Holding(key, tokens, now), key, now, n - 1, tokens);
      RefusedFirst(c, maxEntries, t, key, now, n, tokens);
    }
  }

  lemma DrainsThenRefuses(c: Rates, maxEntries: nat, t: Table, a: seq<Request>, mid: Table, b: seq<Request>,
                          key: string)
    requires ValidRates(c)
    requires Drains(c, maxEntries, t, a, key, mid) && Refuses(c, maxEntries, mid, b, key)
    ensures Accepted(Run(c, maxEntries, t, a + b).1) == |a|
  {
    RunConcat(c, maxEntries, t, a, b, key);
  }

  lemma LeftAvailable(c: Rates, key: string, now: real, k: nat)
    requires ValidRates(c) && k as real <= c.capacity
    ensures var rest := Left(EMPTY, key, now, k, c.capacity);
            Single(rest, key) && Available(c, rest, key, now) == c.capacity - k as real
  {
    if k > 0 {
      HoldingAvailable(c, key, c.capacity - k as real, now);
    }
  }

  lemma BurstSplits(key: string, now: real, k: nat, n: nat)
    requires k <= n
    ensures Burst(key, now, n) == Burst(key, now, k) + Burst(key, now, n - k)
  {
  }

  /** Of requests that a new key makes all at once, as many are allowed as its capacity has whole tokens. */
  lemma BurstExactly(c: Rates, maxEntries: nat, key: string, now: real, n: nat)
    requires ValidRates(c) && maxEntries >= 1
    ensures Accepted(Run(c, maxEntries, EMPTY, Burst(key, now, n)).1)
         == if n <= c.capacity.Floor then n else c.capacity.Floor
  {
    var k := if n <= c.capacity.Floor then n else c.capacity.Floor;
    var rest := Left(EMPTY, key, now, k, c.capacity);
    BurstRun(c, maxEntries, EMPTY, key, now, k, c.capacity);
    if k < n {
      LeftAvailable(c, key, now, k);
      BurstRefused(c, maxEntries, rest, key, now, n - k, c.capacity - k as real);
      DrainsThenRefuses(c, maxEntries, EMPTY, Burst(key, now, k), rest, Burst(key, now, n - k), key);
      BurstSplits(key, now, k, n);
    }
  }

  /** A policy in its own terms: a new key is allowed the whole number of its rate and burst at once,
      and a bucket gains its rate in each window, up to rate and burst together. */
  lemma PolicyGrants(p: Policy, maxEntries: nat, key: string, now: real, n: nat, b: Bucket)
    requires ValidPolicy(p) && maxEntries >= 1
    ensures var whole := (p.rate + p.burst).Floor;
            Accepted(Run(RatesOf(p), maxEntries, EMPTY, Burst(key, now, n)).1) == if n <= whole then n else whole
    ensures Level(RatesOf(p), b, b.updatedAt + p.windowSeconds * 1000.0) == Min(p.rate + p.burst, b.tokens + p.rate)
    ensures Idle(b, now, RatesOf(p).idleMs) <==> now - b.touchedAt >= 2.0 * (p.windowSeconds * 1000.0)
  {
    BurstExactly(RatesOf(p), maxEntries, key, now, n);
    var ms := p.windowSeconds * 1000.0;
    WindowRefills(p, ms);
    assert Max(0.0, b.updatedAt + ms - b.updatedAt) == ms;
  }

  lemma WindowRefills(p: Policy, ms: real)
    requires ValidPolicy(p) && ms == p.windowSeconds * 1000.0
    ensures ms > 0.0 && ms * RatesOf(p).refillPerMs == p.rate
  {
    assert (p.rate / ms) * ms == p.rate;
  }

  /** What a policy grants in so many windows: rate and burst together, and the rate for each window. */
  function Grant(p: Policy, windows: real): real {
    p.rate + p.burst + p.rate * windows
  }

  lemma GrantIs(p: Policy, from: real, to: real, windows: real)
    requires ValidPolicy(p) && to - from == windows * (p.windowSeconds * 1000.0)
    ensures RatesOf(p).capacity + Refill(RatesOf(p), from, to) == Grant(p, windows)
  {
    Reorder(windows, p.rate, p.windowSeconds * 1000.0);
  }

  lemma Reorder(windows: real, rate: real, ms: real)
    requires ms > 0.0
    ensures windows * ms * (rate / ms) == rate * windows
  {
    assert (rate / ms) * ms == rate;
  }

  lemma KeyIsBounded(c: Rates, maxEntries: nat, requests: seq<Request>, key: string, i: nat, j: nat)
    requires ValidRates(c) && RefillsWhileIdle(c) && Monotone(Times(requests))
    requires NeverEvicted(c, maxEntries, EMPTY, requests, key) && i < j <= |TimesOf(requests, key)|
    ensures Bounded(c, KeyDecisions(c, maxEntries, requests, key), TimesOf(requests, key), i, j)
  {
    LimiterRateIsBounded(c, maxEntries, requests, key, i, j);
  }

  lemma KeyIsLimited(c: Rates, maxEntries: nat, requests: seq<Request>, key: string, i: nat, j: nat, limit: real)
    requires ValidRates(c) && RefillsWhileIdle(c) && Monotone(Times(requests))
    requires NeverEvicted(c, maxEntries, EMPTY, requests, key) && i < j <= |TimesOf(requests, key)|
    requires limit == c.capacity + Refill(c, TimesOf(requests, key)[i], TimesOf(requests, key)[j - 1])
    ensures var ds := KeyDecisions(c, maxEntries, requests, key);
            |ds| == |TimesOf(requests, key)| && Accepted(ds[i..j]) as real <= limit
  {
    KeyIsBounded(c, maxEntries, requests, key, i, j);
  }

  /** Between any two of its requests a key that is never evicted is accepted at most what its policy
      grants in the windows between them, whatever else goes on. */
  lemma PolicyRateIsBounded(p: Policy, maxEntries: nat, requests: seq<Request>, key: string, i: nat, j: nat,
                            windows: real)
    requires ValidPolicy(p) && p.burst <= p.rate && Monotone(Times(requests))
    requires NeverEvicted(RatesOf(p), maxEntries, EMPTY, requests, key) && i < j <= |TimesOf(requests, key)|
    requires TimesOf(requests, key)[j - 1] - TimesOf(requests, key)[i] == windows * (p.windowSeconds * 1000.0)
    ensures var ds := KeyDecisions(RatesOf(p), maxEntries, requests, key);
            |ds| == |TimesOf(requests, key)| && Accepted(ds[i..j]) as real <= Grant(p, windows)
  {
    PolicyRates(p);
    var times := TimesOf(requests, key);
    GrantIs(p, times[i], times[j - 1], windows);
    KeyIsLimited(RatesOf(p), maxEntries, requests, key, i, j, Grant(p, windows));
  }
}
