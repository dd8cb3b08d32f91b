/** What the limiter promises over whole runs: pruning is unobservable, the request rate is
    bounded, and the advice to a refused caller is exact. */
module RateLimiterProofs {
  import opened Wrappers
  import opened RateLimiter

  datatype Request = Request(key: string, now: real)

  ghost predicate Monotone(times: seq<real>) {
    forall i, j | 0 <= i < j < |times| :: times[i] <= times[j]
  }

  function Times(requests: seq<Request>): seq<real> {
    seq(|requests|, i requires 0 <= i < |requests| => requests[i].now)
  }

  /** The decisions of the limiter on a run, and the table it ends with. */
  function Run(c: Rates, maxEntries: nat, t: Table, requests: seq<Request>): (Table, seq<Decision>)
    requires ValidRates(c) && WellOrdered(t)
    decreases |requests|
  {
    if requests == [] then (t, [])
    else
      StepWellOrdered(c, maxEntries, t, requests[0].key, requests[0].now);
      var (t', d) := Step(c, maxEntries, t, requests[0].key, requests[0].now);
      var (last, ds) := Run(c, maxEntries, t', requests[1..]);
      (last, [d] + ds)
  }

  /** The decisions that went to `key`. */
  function DecisionsOf(requests: seq<Request>, decisions: seq<Decision>, key: string): seq<Decision>
    requires |requests| == |decisions|
  {
    if requests == [] then []
    else
      var later := DecisionsOf(requests[1..], decisions[1..], key);
      if requests[0].key == key then [decisions[0]] + later else later
  }

  function TimesOf(requests: seq<Request>, key: string): seq<real> {
    if requests == [] then []
    else
      var later := TimesOf(requests[1..], key);
      if requests[0].key == key then [requests[0].now] + later else later
  }

  // ----- The ideal bucket: one key, never pruned, never evicted -----

  function Ideal(c: Rates, b: Option<Bucket>, now: real): Bucket {
    match b
    case Some(bucket) => bucket
    case None => NewBucket(c, now)
  }

  function IdealRun(c: Rates, b: Option<Bucket>, times: seq<real>): seq<Decision>
    requires ValidRates(c)
    decreases |times|
  {
    if times == [] then []
    else
      var (b', d) := Draw(c, Ideal(c, b, times[0]), times[0]);
      [d] + IdealRun(c, Some(b'), times[1..])
  }

  function IdealAfter(c: Rates, b: Option<Bucket>, times: seq<real>): Option<Bucket>
    requires ValidRates(c)
    decreases |times|
  {
    if times == [] then b
    else IdealAfter(c, Some(Draw(c, Ideal(c, b, times[0]), times[0]).0), times[1..])
  }

  /** Tokens stay between zero and the capacity, and no bucket was touched in the future. */
  ghost predicate Healthy(c: Rates, b: Bucket, now: real) {
    0.0 <= b.tokens <= c.capacity && b.updatedAt == b.touchedAt <= now
  }

  lemma LevelBounds(c: Rates, b: Bucket, now: real)
    requires ValidRates(c) && Healthy(c, b, now)
    ensures b.tokens <= Level(c, b, now) <= c.capacity
    ensures Level(c, b, now) <= b.tokens + (now - b.updatedAt) * c.refillPerMs
  {
    ProductNonNegative(now - b.updatedAt, c.refillPerMs);
  }

  lemma ProductNonNegative(a: real, b: real)
    requires a >= 0.0 && b >= 0.0
    ensures a * b >= 0.0
  {}

  lemma DrawHealthy(c: Rates, b: Bucket, now: real)
    requires ValidRates(c) && Healthy(c, b, now)
    ensures Healthy(c, Draw(c, b, now).0, now) && Draw(c, b, now).0.updatedAt == now
  {
    LevelBounds(c, b, now);
  }

  lemma LaterLevel(c: Rates, b: Bucket, now: real, later: real)
    requires ValidRates(c) && Healthy(c, b, now) && now <= later
    ensures Level(c, b, now) <= Level(c, b, later)
  {
    var before, after := now - b.updatedAt, later - b.updatedAt;
    assert Max(0.0, before) == before && Max(0.0, after) == after;
    ScaleMonotone(before, after, c.refillPerMs);
  }

  lemma ScaleMonotone(a: real, b: real, c: real)
    requires a <= b && c >= 0.0
    ensures a * c <= b * c
  {
    ProductNonNegative(b - a, c);
    assert b * c - a * c == (b - a) * c;
  }

  /** Two windows of idling refill any bucket, provided the burst does not exceed the rate. */
  lemma IdleIsFull(c: Rates, b: Bucket, now: real)
    requires ValidRates(c) && RefillsWhileIdle(c) && Healthy(c, b, now)
    requires Idle(b, now, c.idleMs)
    ensures Level(c, b, now) == c.capacity
  {
    ScaleMonotone(c.idleMs, now - b.updatedAt, c.refillPerMs);
  }

  // ----- The table follows the ideal bucket of a key -----

  ghost predicate TableHealthy(c: Rates, t: Table, now: real) {
    WellOrdered(t) && forall k | k in t.buckets :: Healthy(c, t.buckets[k], now)
  }

  /** The table holds exactly the ideal bucket, or none where the ideal one is full. */
  ghost predicate Follows(c: Rates, t: Table, key: string, b: Option<Bucket>, now: real)
    requires ValidRates(c)
  {
    && (b.Some? ==> Healthy(c, b.value, now))
    && (if key in t.buckets then b == Some(t.buckets[key])
        else b.Some? ==> Level(c, b.value, now) == c.capacity)
  }

  /** Does this request push `key` out of the table? */
  ghost predicate Evicts(c: Rates, maxEntries: nat, t: Table, r: Request, key: string)
    requires ValidRates(c) && WellOrdered(t)
  {
    && key in Serve(c, Prune(t, r.now, c.idleMs), r.key, r.now).0.buckets
    && key !in Step(c, maxEntries, t, r.key, r.now).0.buckets
  }

  ghost predicate NeverEvicted(c: Rates, maxEntries: nat, t: Table, requests: seq<Request>, key: string)
    requires ValidRates(c) && WellOrdered(t)
    decreases |requests|
  {
    requests == [] ||
    (&& !Evicts(c, maxEntries, t, requests[0], key)
     && (StepWellOrdered(c, maxEntries, t, requests[0].key, requests[0].now);
         NeverEvicted(c, maxEntries, Step(c, maxEntries, t, requests[0].key, requests[0].now).0, requests[1..], key)))
  }

  lemma PruneFollows(c: Rates, t: Table, key: string, b: Option<Bucket>, before: real, now: real)
    requires ValidRates(c) && RefillsWhileIdle(c) && before <= now
    requires TableHealthy(c, t, before) && Follows(c, t, key, b, before)
    ensures TableHealthy(c, Prune(t, now, c.idleMs), now)
    ensures Follows(c, Prune(t, now, c.idleMs), key, b, now)
  {
    PruneWellOrdered(t, now, c.idleMs);
    if key in t.buckets {
      if Idle(t.buckets[key], now, c.idleMs) {
        IdleIsFull(c, t.buckets[key], now);
      }
    } else if b.Some? {
      LaterLevel(c, b.value, before, now);
      LevelBounds(c, b.value, now);
    }
  }

  lemma BoundKeeps(t: Table, maxEntries: nat)
    ensures forall k | k in Bound(t, maxEntries).buckets ::
              k in t.buckets && Bound(t, maxEntries).buckets[k] == t.buckets[k]
  {}

  lemma StepHealthy(c: Rates, maxEntries: nat, t: Table, r: Request, before: real)
    requires ValidRates(c) && before <= r.now && TableHealthy(c, t, before)
    ensures TableHealthy(c, Step(c, maxEntries, t, r.key, r.now).0, r.now)
  {
    StepWellOrdered(c, maxEntries, t, r.key, r.now);
    var pruned := Prune(t, r.now, c.idleMs);
    DrawHealthy(c, BucketOf(c, pruned, r.key, r.now), r.now);
    BoundKeeps(Serve(c, pruned, r.key, r.now).0, maxEntries);
  }

  /** A request for another key leaves the ideal bucket behind, as it should. */
  lemma OtherStepFollows(c: Rates, maxEntries: nat, t: Table, r: Request, key: string, b: Option<Bucket>, before: real)
    requires ValidRates(c) && RefillsWhileIdle(c) && before <= r.now && r.key != key
    requires TableHealthy(c, t, before) && Follows(c, t, key, b, before)
    requires !Evicts(c, maxEntries, t, r, key)
    ensures Follows(c, Step(c, maxEntries, t, r.key, r.now).0, key, b, r.now)
  {
    PruneFollows(c, t, key, b, before, r.now);
    BoundKeeps(Serve(c, Prune(t, r.now, c.idleMs), r.key, r.now).0, maxEntries);
  }

  /** A request for the key draws from the ideal bucket. */
  lemma OwnStepFollows(c: Rates, maxEntries: nat, t: Table, r: Request, b: Option<Bucket>, before: real)
    requires ValidRates(c) && RefillsWhileIdle(c) && before <= r.now
    requires TableHealthy(c, t, before) && Follows(c, t, r.key, b, before)
    requires !Evicts(c, maxEntries, t, r, r.key)
    ensures var (b', d) := Draw(c, Ideal(c, b, r.now), r.now);
            Step(c, maxEntries, t, r.key, r.now).1 == d
            && Follows(c, Step(c, maxEntries, t, r.key, r.now).0, r.key, Some(b'), r.now)
  {
    var pruned := Prune(t, r.now, c.idleMs);
    PruneFollows(c, t, r.key, b, before, r.now);
    var used := BucketOf(c, pruned, r.key, r.now);
    assert Level(c, used, r.now) == Level(c, Ideal(c, b, r.now), r.now) by {
      FreshLevel(c, r.now);
    }
    DrawHealthy(c, used, r.now);
    BoundKeeps(Serve(c, pruned, r.key, r.now).0, maxEntries);
  }

  lemma FreshLevel(c: Rates, now: real)
    requires ValidRates(c)
    ensures Level(c, NewBucket(c, now), now) == c.capacity
  {
    assert Max(0.0, now - now) * c.refillPerMs == 0.0;
  }

  /** The ideal bucket of `key` after any request. */
  function IdealNext(c: Rates, b: Option<Bucket>, r: Request, key: string): Option<Bucket>
    requires ValidRates(c)
  {
    if r.key == key then Some(Draw(c, Ideal(c, b, r.now), r.now).0) else b
  }

  lemma StepFollows(c: Rates, maxEntries: nat, t: Table, r: Request, key: string, b: Option<Bucket>, before: real)
    requires ValidRates(c) && RefillsWhileIdle(c) && before <= r.now
    requires TableHealthy(c, t, before) && Follows(c, t, key, b, before)
    requires !Evicts(c, maxEntries, t, r, key)
    ensures Follows(c, Step(c, maxEntries, t, r.key, r.now).0, key, IdealNext(c, b, r, key), r.now)
    ensures r.key == key ==> Step(c, maxEntries, t, r.key, r.now).1 == Draw(c, Ideal(c, b, r.now), r.now).1
  {
    if r.key == key {
      OwnStepFollows(c, maxEntries, t, r, b, before);
    } else {
      OtherStepFollows(c, maxEntries, t, r, key, b, before);
    }
  }

  lemma ProjectionsUnfold(r: Request, rest: seq<Request>, d: Decision, ds: seq<Decision>, key: string)
    requires |rest| == |ds|
    ensures DecisionsOf([r] + rest, [d] + ds, key)
         == if r.key == key then [d] + DecisionsOf(rest, ds, key) else DecisionsOf(rest, ds, key)
    ensures TimesOf([r] + rest, key) == if r.key == key then [r.now] + TimesOf(rest, key) else TimesOf(rest, key)
  {
    assert ([r] + rest)[1..] == rest && ([d] + ds)[1..] == ds;
  }

  /** Puts the first decision in front of those that follow. */
  lemma DecisionsUnfold(c: Rates, r: Request, rest: seq<Request>, d: Decision, ds: seq<Decision>, key: string,
                        b: Option<Bucket>)
    requires ValidRates(c) && |rest| == |ds|
    requires DecisionsOf(rest, ds, key) == IdealRun(c, IdealNext(c, b, r, key), TimesOf(rest, key))
    requires r.key == key ==> d == Draw(c, Ideal(c, b, r.now), r.now).1
    ensures DecisionsOf([r] + rest, [d] + ds, key) == IdealRun(c, b, TimesOf([r] + rest, key))
  {
    ProjectionsUnfold(r, rest, d, ds, key);
    if r.key == key {
      IdealSplits(c, b, r.now, TimesOf(rest, key));
    }
  }

  lemma RunUnfolds(c: Rates, maxEntries: nat, t: Table, r: Request, rest: seq<Request>, key: string)
    requires ValidRates(c) && WellOrdered(t)
    ensures var (t', d) := Step(c, maxEntries, t, r.key, r.now);
            && WellOrdered(t')
            && (NeverEvicted(c, maxEntries, t, [r] + rest, key)
                <==> !Evicts(c, maxEntries, t, r, key) && NeverEvicted(c, maxEntries, t', rest, key))
            && Run(c, maxEntries, t, [r] + rest).0 == Run(c, maxEntries, t', rest).0
            && Run(c, maxEntries, t, [r] + rest).1 == [d] + Run(c, maxEntries, t', rest).1
  {
    StepWellOrdered(c, maxEntries, t, r.key, r.now);
    assert ([r] + rest)[1..] == rest;
  }

  lemma {:induction false} RunFollows(c: Rates, maxEntries: nat, t: Table, requests: seq<Request>, key: string,
                                      b: Option<Bucket>, before: real)
    requires ValidRates(c) && RefillsWhileIdle(c)
    requires TableHealthy(c, t, before) && Follows(c, t, key, b, before)
    requires Monotone([before] + Times(requests))
    requires NeverEvicted(c, maxEntries, t, requests, key)
    ensures |Run(c, maxEntries, t, requests).1| == |requests|
    ensures DecisionsOf(requests, Run(c, maxEntries, t, requests).1, key) == IdealRun(c, b, TimesOf(requests, key))
    decreases |requests|
  {
    if requests != [] {
      var r, rest := requests[0], requests[1..];
      assert requests == [r] + rest;
      var (t', d) := Step(c, maxEntries, t, r.key, r.now);
      RunUnfolds(c, maxEntries, t, r, rest, key);
      TailMonotone(before, requests);
      StepHealthy(c, maxEntries, t, r, before);
      StepFollows(c, maxEntries, t, r, key, b, before);
      RunFollows(c, maxEntries, t', rest, key, IdealNext(c, b, r, key), r.now);
      DecisionsUnfold(c, r, rest, d, Run(c, maxEntries, t', rest).1, key, b);
    }
  }

  lemma IdealSplits(c: Rates, b: Option<Bucket>, now: real, times: seq<real>)
    requires ValidRates(c)
    ensures var (b', d) := Draw(c, Ideal(c, b, now), now);
            IdealRun(c, b, [now] + times) == [d] + IdealRun(c, Some(b'), times)
  {
    assert ([now] + times)[1..] == times;
  }

  lemma TailMonotone(before: real, requests: seq<Request>)
    requires requests != [] && Monotone([before] + Times(requests))
    ensures before <= requests[0].now && Monotone([requests[0].now] + Times(requests[1..]))
  {
    var all := [before] + Times(requests);
    assert all[0] == before && all[1] == requests[0].now;
    assert [requests[0].now] + Times(requests[1..]) == all[1..];
  }

  /** Pruning is unobservable: in any run with a monotone clock, a key that is never evicted by
      the size bound gets the decisions of a bucket that is never thrown away. */
  lemma PruningIsUnobservable(c: Rates, maxEntries: nat, requests: seq<Request>, key: string)
    requires ValidRates(c) && RefillsWhileIdle(c) && Monotone(Times(requests))
    requires NeverEvicted(c, maxEntries, EMPTY, requests, key)
    ensures |Run(c, maxEntries, EMPTY, requests).1| == |requests|
    ensures DecisionsOf(requests, Run(c, maxEntries, EMPTY, requests).1, key)
         == IdealRun(c, None, TimesOf(requests, key))
  {
    if requests != [] {
      StartMonotone(requests);
      RunFollows(c, maxEntries, EMPTY, requests, key, None, requests[0].now);
    }
  }

  lemma StartMonotone(requests: seq<Request>)
    requires requests != [] && Monotone(Times(requests))
    ensures Monotone([requests[0].now] + Times(requests))
  {
    var all := [requests[0].now] + Times(requests);
    forall i, j | 0 <= i < j < |all| ensures all[i] <= all[j] {
      if i > 0 {
        assert all[i] == Times(requests)[i - 1] && all[j] == Times(requests)[j - 1];
      } else {
        assert all[j] == Times(requests)[j - 1] && Times(requests)[0] == requests[0].now;
      }
    }
  }

  // ----- The rate bound -----

  function Accepted(ds: seq<Decision>): nat {
    if ds == [] then 0 else (if ds[0] == Allowed then 1 else 0) + Accepted(ds[1..])
  }

  /** Each acceptance is paid for by a token that was there or was refilled meanwhile. */
  lemma {:induction false} AcceptedArePaid(c: Rates, b: Bucket, times: seq<real>)
    requires ValidRates(c) && times != [] && Monotone(times) && Healthy(c, b, times[0])
    ensures Accepted(IdealRun(c, Some(b), times)) as real
         <= Level(c, b, times[0]) + Refill(c, times[0], times[|times| - 1])
    decreases |times|
  {
    var now, last := times[0], times[|times| - 1];
    var (b', d) := Draw(c, b, now);
    var ds := IdealRun(c, Some(b'), times[1..]);
    IdealRunStarts(c, b, times);
    if |times| == 1 {
      assert times[1..] == [] && ds == [];
      RefillNothing(c, now);
    } else {
      assert times[1..][0] == times[1] && times[1..][|times| - 2] == last;
      DrawHealthy(c, b, now);
      AcceptedArePaid(c, b', times[1..]);
      DrawPays(c, b, now, times[1], last);
    }
  }

  function Refill(c: Rates, from: real, to: real): real {
    (to - from) * c.refillPerMs
  }

  lemma RefillNothing(c: Rates, now: real)
    ensures Refill(c, now, now) == 0.0
  {}

  lemma IdealRunStarts(c: Rates, b: Bucket, times: seq<real>)
    requires ValidRates(c) && times != []
    ensures var (b', d) := Draw(c, b, times[0]);
            Accepted(IdealRun(c, Some(b), times))
            == (if d == Allowed then 1 else 0) + Accepted(IdealRun(c, Some(b'), times[1..]))
  {
    var (b', d) := Draw(c, b, times[0]);
    var ds := IdealRun(c, Some(b'), times[1..]);
    assert IdealRun(c, Some(b), times) == [d] + ds;
    assert ([d] + ds)[1..] == ds;
  }

  /** What a draw leaves, plus the token it may have handed out, was there before. */
  lemma DrawPays(c: Rates, b: Bucket, now: real, next: real, last: real)
    requires ValidRates(c) && Healthy(c, b, now) && now <= next
    ensures var (b', d) := Draw(c, b, now);
            (if d == Allowed then 1.0 else 0.0) + Level(c, b', next) + Refill(c, next, last)
            <= Level(c, b, now) + Refill(c, now, last)
  {
    var (b', d) := Draw(c, b, now);
    DrawHealthy(c, b, now);
    LevelBounds(c, b', next);
    SpanSplits(now, next, last, c.refillPerMs);
  }

  lemma SpanSplits(a: real, b: real, c: real, k: real)
    ensures (b - a) * k + (c - b) * k == (c - a) * k
  {}

  lemma {:induction false} IdealRunTail(c: Rates, b: Option<Bucket>, times: seq<real>, i: nat)
    requires ValidRates(c) && i <= |times|
    ensures |IdealRun(c, b, times)| == |times|
    ensures IdealRun(c, b, times)[i..] == IdealRun(c, IdealAfter(c, b, times[..i]), times[i..])
    decreases |times|
  {
    if times == [] {
    } else if i == 0 {
      var b' := Draw(c, Ideal(c, b, times[0]), times[0]).0;
      IdealRunTail(c, Some(b'), times[1..], 0);
      assert times[..0] == [] && times[0..] == times;
      assert IdealRun(c, b, times)[0..] == IdealRun(c, b, times);
    } else {
      var b' := Draw(c, Ideal(c, b, times[0]), times[0]).0;
      IdealRunTail(c, Some(b'), times[1..], i - 1);
      assert times[..i][1..] == times[1..][..i - 1] && times[i..] == times[1..][i - 1..];
      assert times[..i][0] == times[0];
    }
  }

  lemma {:induction false} IdealRunTake(c: Rates, b: Option<Bucket>, times: seq<real>, j: nat)
    requires ValidRates(c) && j <= |times|
    ensures |IdealRun(c, b, times)| == |times|
    ensures IdealRun(c, b, times)[..j] == IdealRun(c, b, times[..j])
    decreases |times|
  {
    if times != [] {
      var (b', d) := Draw(c, Ideal(c, b, times[0]), times[0]);
      if j == 0 {
        IdealRunTake(c, Some(b'), times[1..], 0);
      } else {
        IdealRunTake(c, Some(b'), times[1..], j - 1);
        assert times[..j][1..] == times[1..][..j - 1];
        assert IdealRun(c, b, times) == [d] + IdealRun(c, Some(b'), times[1..]);
      }
    }
  }

  lemma {:induction false} IdealAfterHealthy(c: Rates, b: Option<Bucket>, times: seq<real>, now: real)
    requires ValidRates(c) && Monotone(times + [now])
    requires b.Some? ==> Healthy(c, b.value, (times + [now])[0])
    ensures IdealAfter(c, b, times).Some? ==> Healthy(c, IdealAfter(c, b, times).value, now)
    decreases |times|
  {
    if times != [] {
      var all := times + [now];
      assert all[0] == times[0] && all[1..] == times[1..] + [now];
      assert all[1..][0] == all[1] >= all[0];
      DrawHealthy(c, Ideal(c, b, times[0]), times[0]);
      IdealAfterHealthy(c, Some(Draw(c, Ideal(c, b, times[0]), times[0]).0), times[1..], now);
    }
  }

  lemma WindowRun(c: Rates, times: seq<real>, i: nat, j: nat)
    requires ValidRates(c) && i <= j <= |times|
    ensures |IdealRun(c, None, times)| == |times|
    ensures IdealRun(c, None, times)[i..j] == IdealRun(c, IdealAfter(c, None, times[..i]), times[i..j])
  {
    IdealRunTake(c, None, times, j);
    IdealRunTail(c, None, times[..j], i);
    assert times[..j][i..] == times[i..j] && times[..j][..i] == times[..i];
    assert IdealRun(c, None, times)[i..j] == IdealRun(c, None, times)[..j][i..];
  }

  /** Between any two of its requests, a key is accepted at most the capacity plus what the
      elapsed time refills. */
  lemma RateIsBounded(c: Rates, times: seq<real>, i: nat, j: nat)
    requires ValidRates(c) && Monotone(times) && i < j <= |times|
    ensures |IdealRun(c, None, times)| == |times|
    ensures Accepted(IdealRun(c, None, times)[i..j]) as real <= c.capacity + Refill(c, times[i], times[j - 1])
  {
    var window := times[i..j];
    var b := IdealAfter(c, None, times[..i]);
    WindowRun(c, times, i, j);
    var all := times[..i] + [times[i]];
    assert forall k | 0 <= k < |all| :: all[k] == times[k];
    IdealAfterHealthy(c, None, times[..i], times[i]);
    var used := Ideal(c, b, times[i]);
    SameStart(c, b, window);
    AcceptedArePaid(c, used, window);
    LevelBounds(c, used, times[i]);
  }

  lemma SameStart(c: Rates, b: Option<Bucket>, times: seq<real>)
    requires ValidRates(c) && times != []
    ensures IdealRun(c, b, times) == IdealRun(c, Some(Ideal(c, b, times[0])), times)
  {}

  ghost predicate Bounded(c: Rates, ds: seq<Decision>, times: seq<real>, i: nat, j: nat)
    requires i < j <= |times|
  {
    |ds| == |times| && Accepted(ds[i..j]) as real <= c.capacity + Refill(c, times[i], times[j - 1])
  }

  lemma SameDecisionsBounded(c: Rates, ds: seq<Decision>, times: seq<real>, i: nat, j: nat)
    requires ValidRates(c) && Monotone(times) && i < j <= |times| && ds == IdealRun(c, None, times)
    ensures Bounded(c, ds, times, i, j)
  {
    RateIsBounded(c, times, i, j);
  }

  /** The same bound for the limiter itself. */
  lemma LimiterRateIsBounded(c: Rates, maxEntries: nat, requests: seq<Request>, key: string, i: nat, j: nat)
    requires ValidRates(c) && RefillsWhileIdle(c) && Monotone(Times(requests))
    requires NeverEvicted(c, maxEntries, EMPTY, requests, key)
    requires i < j <= |TimesOf(requests, key)|
    ensures |Run(c, maxEntries, EMPTY, requests).1| == |requests|
    ensures Bounded(c, DecisionsOf(requests, Run(c, maxEntries, EMPTY, requests).1, key), TimesOf(requests, key), i, j)
  {
    PruningIsUnobservable(c, maxEntries, requests, key);
    TimesOfMonotone(requests, key);
    var ds := DecisionsOf(requests, Run(c, maxEntries, EMPTY, requests).1, key);
    SameDecisionsBounded(c, ds, TimesOf(requests, key), i, j);
  }

  lemma {:induction false} TimesOfMonotone(requests: seq<Request>, key: string)
    requires Monotone(Times(requests))
    ensures Monotone(TimesOf(requests, key))
    ensures forall x | x in TimesOf(requests, key) :: requests != [] && requests[0].now <= x
  {
    if requests != [] {
      var rest := requests[1..];
      var later := TimesOf(rest, key);
      assert forall i | 0 <= i < |requests| :: Times(requests)[i] == requests[i].now;
      assert Times(rest) == Times(requests)[1..];
      TimesOfMonotone(rest, key);
      assert |requests| > 1 ==> Times(requests)[0] <= Times(requests)[1];
      assert forall i | 0 <= i < |later| :: later[i] in later;
    }
  }

  // ----- The advice to a refused caller -----

  lemma CeilBounds(x: real)
    ensures x <= Ceil(x) as real < x + 1.0
  {}

  /** Waiting the advised seconds is enough, waiting a whole second less is not. */
  lemma RetryAfterIsExact(c: Rates, b: Bucket, now: real)
    requires ValidRates(c) && c.capacity >= 1.0 && Healthy(c, b, now) && Draw(c, b, now).1.Refused?
    ensures var (b', d) := Draw(c, b, now);
            var wait := d.retryAfterSeconds;
            && wait >= 1
            && Draw(c, b', now + 1000.0 * wait as real).1 == Allowed
            && (wait > 1 ==> Draw(c, b', now + 1000.0 * (wait - 1) as real).1.Refused?)
  {
    var tokens := Level(c, b, now);
    var b', wait := Bucket(tokens, now, now), RetryAfter(c, tokens);
    assert Draw(c, b, now) == (b', Refused(wait));
    AdviceDecides(c, b', now);
  }

  lemma AdviceDecides(c: Rates, b: Bucket, now: real)
    requires ValidRates(c) && c.capacity >= 1.0 && b.updatedAt == now && b.tokens < 1.0
    ensures var wait := RetryAfter(c, b.tokens);
            && Draw(c, b, now + 1000.0 * wait as real).1 == Allowed
            && (wait > 1 ==> Draw(c, b, now + 1000.0 * (wait - 1) as real).1 != Allowed)
  {
    var wait := RetryAfter(c, b.tokens);
    AdviceBrackets(b.tokens, c.refillPerMs * 1000.0, wait);
    WaitDecides(c, b, now, wait);
    if wait > 1 {
      WaitDecides(c, b, now, wait - 1);
    }
  }

  lemma WaitDecides(c: Rates, b: Bucket, now: real, seconds: int)
    requires ValidRates(c) && c.capacity >= 1.0 && b.updatedAt == now && seconds >= 0
    ensures Draw(c, b, now + 1000.0 * seconds as real).1 == Allowed
       <==> b.tokens + seconds as real * (c.refillPerMs * 1000.0) >= 1.0
  {
    WaitGains(c, b, now, seconds);
  }

  /** The advised seconds are the first whole number that refills the missing part of a token. */
  lemma AdviceBrackets(tokens: real, perSecond: real, wait: int)
    requires tokens < 1.0 && perSecond > 0.0
    requires var seconds := Ceil((1.0 - tokens) / perSecond);
             wait == if seconds > 1 then seconds else 1
    ensures tokens + wait as real * perSecond >= 1.0
    ensures wait > 1 ==> tokens + (wait - 1) as real * perSecond < 1.0
  {
    var x := (1.0 - tokens) / perSecond;
    CeilBounds(x);
    assert x * perSecond == 1.0 - tokens;
    Enough(tokens, perSecond, x, wait as real);
    if wait > 1 {
      NotEnough(tokens, perSecond, x, (wait - 1) as real);
    }
  }

  lemma Product(x: real, w: real, c: real)
    ensures w * c - x * c == (w - x) * c
  {
  }

  lemma Enough(tokens: real, perSecond: real, x: real, w: real)
    requires perSecond > 0.0 && x * perSecond == 1.0 - tokens && x <= w
    ensures tokens + w * perSecond >= 1.0
  {
    Product(x, w, perSecond);
    assert (w - x) * perSecond >= 0.0;
  }

  lemma NotEnough(tokens: real, perSecond: real, x: real, w: real)
    requires perSecond > 0.0 && x * perSecond == 1.0 - tokens && w < x
    ensures tokens + w * perSecond < 1.0
  {
    Product(w, x, perSecond);
    assert (x - w) * perSecond > 0.0;
  }

  lemma WaitGains(c: Rates, b: Bucket, now: real, seconds: int)
    requires ValidRates(c) && b.updatedAt == now && seconds >= 0
    ensures Level(c, b, now + 1000.0 * seconds as real)
         == Min(c.capacity, b.tokens + seconds as real * (c.refillPerMs * 1000.0))
  {
    var ms := 1000.0 * seconds as real;
    assert ms * c.refillPerMs == seconds as real * (c.refillPerMs * 1000.0);
  }

  /** A mutating request draws from both limiters and is told the first refusal's wait. The limiter
      that did not refuse has spent a token on it. */
  function Advice(general: Decision, mutations: Decision): int
    requires general.Refused? || mutations.Refused?
  {
    if general.Refused? then general.retryAfterSeconds else mutations.retryAfterSeconds
  }

  /** The same request by both limiters after `seconds`, with nothing in between. */
  ghost predicate RetrySucceeds(general: Rates, mutations: Rates, g: Bucket, m: Bucket, now: real, seconds: int)
    requires ValidRates(general) && ValidRates(mutations)
  {
    var later := now + 1000.0 * seconds as real;
    && Draw(general, Draw(general, g, now).0, later).1 == Allowed
    && Draw(mutations, Draw(mutations, m, now).0, later).1 == Allowed
  }

  /** Beside the token that a request spends at `now` there is one more, at once or `seconds` later. */
  predicate HoldsAnother(c: Rates, b: Bucket, now: real, seconds: int) {
    Level(c, b, now) + seconds as real * (c.refillPerMs * 1000.0) >= 2.0
  }

  /** A limiter that has just spent a token serves the retry exactly if it held another one, or
      refills what is missing of it in time. */
  lemma SpentServesAgain(c: Rates, b: Bucket, now: real, seconds: int)
    requires ValidRates(c) && c.capacity >= 1.0 && Draw(c, b, now).1 == Allowed && seconds >= 0
    ensures Draw(c, Draw(c, b, now).0, now + 1000.0 * seconds as real).1 == Allowed
       <==> HoldsAnother(c, b, now, seconds)
  {
    WaitDecides(c, Draw(c, b, now).0, now, seconds);
  }

  /** Following the advice suffices exactly if: when both refuse, the first advice is not the
      shorter one; when one refuses, the other has a token left or refills it meanwhile. */
  lemma FirstRefusalAdvice(general: Rates, mutations: Rates, g: Bucket, m: Bucket, now: real)
    requires ValidRates(general) && general.capacity >= 1.0 && Healthy(general, g, now)
    requires ValidRates(mutations) && mutations.capacity >= 1.0 && Healthy(mutations, m, now)
    requires Draw(general, g, now).1.Refused? || Draw(mutations, m, now).1.Refused?
    ensures var dg, dm := Draw(general, g, now).1, Draw(mutations, m, now).1;
            var wait := Advice(dg, dm);
            RetrySucceeds(general, mutations, g, m, now, wait)
            <==> if dg.Refused? && dm.Refused? then dm.retryAfterSeconds <= dg.retryAfterSeconds
                 else if dg.Refused? then HoldsAnother(mutations, m, now, wait)
                 else HoldsAnother(general, g, now, wait)
  {
    if Draw(general, g, now).1.Refused? && Draw(mutations, m, now).1.Refused? {
      BothRefuse(general, mutations, g, m, now);
    } else if Draw(general, g, now).1.Refused? {
      OneRefuses(general, mutations, g, m, now);
    } else {
      OneRefuses(mutations, general, m, g, now);
    }
  }

  lemma OneRefuses(refusing: Rates, spending: Rates, r: Bucket, b: Bucket, now: real)
    requires ValidRates(refusing) && refusing.capacity >= 1.0 && Healthy(refusing, r, now)
    requires ValidRates(spending) && spending.capacity >= 1.0
    requires Draw(refusing, r, now).1.Refused? && Draw(spending, b, now).1 == Allowed
    ensures var wait := Draw(refusing, r, now).1.retryAfterSeconds;
            RetrySucceeds(refusing, spending, r, b, now, wait) <==> HoldsAnother(spending, b, now, wait)
    ensures var wait := Draw(refusing, r, now).1.retryAfterSeconds;
            RetrySucceeds(spending, refusing, b, r, now, wait) <==> HoldsAnother(spending, b, now, wait)
  {
    RetryAfterIsExact(refusing, r, now);
    SpentServesAgain(spending, b, now, Draw(refusing, r, now).1.retryAfterSeconds);
  }

  lemma BothRefuse(general: Rates, mutations: Rates, g: Bucket, m: Bucket, now: real)
    requires ValidRates(general) && general.capacity >= 1.0 && Healthy(general, g, now)
    requires ValidRates(mutations) && mutations.capacity >= 1.0 && Healthy(mutations, m, now)
    requires Draw(general, g, now).1.Refused? && Draw(mutations, m, now).1.Refused?
    ensures var dg, dm := Draw(general, g, now).1, Draw(mutations, m, now).1;
            RetrySucceeds(general, mutations, g, m, now, dg.retryAfterSeconds)
            <==> dm.retryAfterSeconds <= dg.retryAfterSeconds
  {
    RetryAfterIsExact(general, g, now);
    RetryAfterIsExact(mutations, m, now);
    DrawHealthy(mutations, m, now);
    var m' := Draw(mutations, m, now).0;
    var sg, sm := Draw(general, g, now).1.retryAfterSeconds, Draw(mutations, m, now).1.retryAfterSeconds;
    if sm <= sg {
      LaterLevel(mutations, m', now + 1000.0 * sm as real, now + 1000.0 * sg as real);
    } else {
      LaterLevel(mutations, m', now + 1000.0 * sg as real, now + 1000.0 * (sm - 1) as real);
    }
  }

  /** Limiters that refill a token each second advise one second, and that always suffices. */
  lemma FastLimitersAdviseWell(general: Rates, mutations: Rates, g: Bucket, m: Bucket, now: real)
    requires ValidRates(general) && general.capacity >= 1.0 && Healthy(general, g, now)
    requires ValidRates(mutations) && mutations.capacity >= 1.0 && Healthy(mutations, m, now)
    requires general.refillPerMs * 1000.0 >= 1.0 && mutations.refillPerMs * 1000.0 >= 1.0
    requires Draw(general, g, now).1.Refused? || Draw(mutations, m, now).1.Refused?
    ensures Advice(Draw(general, g, now).1, Draw(mutations, m, now).1) == 1
    ensures RetrySucceeds(general, mutations, g, m, now, 1)
  {
    FirstRefusalAdvice(general, mutations, g, m, now);
    FastAdvice(general, g, now);
    FastAdvice(mutations, m, now);
  }

  lemma FastAdvice(c: Rates, b: Bucket, now: real)
    requires ValidRates(c) && Healthy(c, b, now) && c.refillPerMs * 1000.0 >= 1.0
    ensures Draw(c, b, now).1.Refused? ==> Draw(c, b, now).1.retryAfterSeconds == 1
  {
    LevelBounds(c, b, now);
    var missing, perSecond := 1.0 - Level(c, b, now), c.refillPerMs * 1000.0;
    if missing > 0.0 {
      var x := missing / perSecond;
      CeilBounds(x);
      assert x > 0.0 && x * perSecond == missing;
      AtMostOne(x, perSecond);
    }
  }

  lemma AtMostOne(x: real, perSecond: real)
    requires x > 0.0 && perSecond >= 1.0 && x * perSecond <= 1.0
    ensures x <= 1.0
  {
    ProductNonNegative(x, perSecond - 1.0);
    assert x * (perSecond - 1.0) == x * perSecond - x;
  }

  const GENERAL_RATE_LIMIT := Policy(300.0, 60.0, 100.0)
  const MUTATION_RATE_LIMIT := Policy(60.0, 60.0, 20.0)

  /** So the policies the API ships with always advise well. */
  lemma ShippedAdviceSuffices(g: Bucket, m: Bucket, now: real)
    requires Healthy(RatesOf(GENERAL_RATE_LIMIT), g, now) && Healthy(RatesOf(MUTATION_RATE_LIMIT), m, now)
    requires Draw(RatesOf(GENERAL_RATE_LIMIT), g, now).1.Refused?
             || Draw(RatesOf(MUTATION_RATE_LIMIT), m, now).1.Refused?
    ensures Advice(Draw(RatesOf(GENERAL_RATE_LIMIT), g, now).1, Draw(RatesOf(MUTATION_RATE_LIMIT), m, now).1) == 1
    ensures RetrySucceeds(RatesOf(GENERAL_RATE_LIMIT), RatesOf(MUTATION_RATE_LIMIT), g, m, now, 1)
  {
    FastLimitersAdviseWell(RatesOf(GENERAL_RATE_LIMIT), RatesOf(MUTATION_RATE_LIMIT), g, m, now);
  }

  /** With one mutation a minute the advice misleads: it is one second where a minute is needed,
      whether both limiters refuse or only the general one. */
  lemma FirstAdviceFails()
    ensures var general, mutations := RatesOf(Policy(60.0, 60.0, 0.0)), RatesOf(Policy(1.0, 60.0, 0.0));
            var dry, one := Bucket(0.0, 0.0, 0.0), Bucket(1.0, 0.0, 0.0);
            && Draw(general, dry, 0.0).1 == Refused(1) && Draw(mutations, dry, 0.0).1 == Refused(60)
            && Draw(mutations, one, 0.0).1 == Allowed
            && !RetrySucceeds(general, mutations, dry, dry, 0.0, 1)
            && !RetrySucceeds(general, mutations, dry, one, 0.0, 1)
  {
    var general, mutations := RatesOf(Policy(60.0, 60.0, 0.0)), RatesOf(Policy(1.0, 60.0, 0.0));
    assert general == Rates(60.0, 0.001, 120000.0);
    assert mutations == Rates(1.0, 1.0 / 60000.0, 120000.0);
  }

  // ----- The size bound -----

  /** The table stays within its bound exactly because a new key is never refused: a policy that
      cannot pay for one request inserts buckets that are never bounded. */
  lemma SizeIsBounded(c: Rates, maxEntries: nat)
    requires ValidRates(c)
    ensures (forall t, key, now | WellOrdered(t) && |t.order| <= maxEntries ::
               |Step(c, maxEntries, t, key, now).0.order| <= maxEntries)
       <==> c.capacity >= 1.0
  {
    if c.capacity >= 1.0 {
      forall t, key, now | WellOrdered(t) && |t.order| <= maxEntries
        ensures |Step(c, maxEntries, t, key, now).0.order| <= maxEntries
      {
        StepSize(c, maxEntries, t, key, now);
      }
    } else {
      var t := FullTable(maxEntries);
      RefusalGrows(c, maxEntries, t);
    }
  }

  lemma StepSize(c: Rates, maxEntries: nat, t: Table, key: string, now: real)
    requires ValidRates(c) && c.capacity >= 1.0 && WellOrdered(t) && |t.order| <= maxEntries
    ensures |Step(c, maxEntries, t, key, now).0.order| <= maxEntries
    ensures maxEntries > 0 ==> key in Step(c, maxEntries, t, key, now).0.buckets
  {
    PruneWellOrdered(t, now, c.idleMs);
    FreshLevel(c, now);
    var served := Serve(c, Prune(t, now, c.idleMs), key, now).0;
    if |served.order| > maxEntries {
      assert served.order[|served.order| - 1] == key;
      var excess := |served.order| - maxEntries;
      assert maxEntries > 0 ==> key !in served.order[..excess];
    }
  }

  /** `n` different keys, all untouched since time zero. */
  function FullTable(n: nat): (t: Table)
    ensures |t.order| == n && WellOrdered(t)
    ensures forall k | k in t.buckets :: t.buckets[k] == Bucket(0.0, 0.0, 0.0) && 0 < |k| <= n
  {
    if n == 0 then EMPTY
    else
      var t := FullTable(n - 1);
      var key := seq(n, _ => 'k');
      Table(t.order + [key], t.buckets[key := Bucket(0.0, 0.0, 0.0)])
  }

  lemma RefusalGrows(c: Rates, maxEntries: nat, t: Table)
    requires ValidRates(c) && c.capacity < 1.0 && WellOrdered(t) && |t.order| == maxEntries
    requires forall k | k in t.buckets :: t.buckets[k] == Bucket(0.0, 0.0, 0.0) && 0 < |k|
    ensures |Step(c, maxEntries, t, "", 0.0).0.order| == maxEntries + 1
  {
    assert c.idleMs > 0.0;
    NothingIdle(t.order, t.buckets, 0.0, c.idleMs);
    FreshLevel(c, 0.0);
    assert "" !in t.buckets;
  }

  lemma {:induction false} NothingIdle(order: seq<string>, buckets: map<string, Bucket>, now: real, idleMs: real)
    requires forall k | k in order :: k in buckets && !Idle(buckets[k], now, idleMs)
    ensures FreshKeys(order, buckets, now, idleMs) == order
  {
    if order != [] {
      var n := |order| - 1;
      NothingIdle(order[..n], buckets, now, idleMs);
      assert order == order[..n] + [order[n]];
    }
  }
}
