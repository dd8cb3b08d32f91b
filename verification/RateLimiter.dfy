/** The token-bucket limiter of the API edge: a table of buckets that is pruned when idle and
    bounded in size. */
module RateLimiter {
  import opened Wrappers

  datatype Policy = Policy(rate: real, windowSeconds: real, burst: real)

  predicate ValidPolicy(p: Policy) {
    p.rate > 0.0 && p.windowSeconds > 0.0 && p.burst >= 0.0
  }

  /** What a call derives from its policy before it looks at any bucket. */
  datatype Rates = Rates(capacity: real, refillPerMs: real, idleMs: real)

  function RatesOf(p: Policy): (c: Rates)
    requires ValidPolicy(p)
    ensures ValidRates(c)
  {
    Rates(p.rate + p.burst, p.rate / (p.windowSeconds * 1000.0), p.windowSeconds * 2000.0)
  }

  predicate ValidRates(c: Rates) {
    c.capacity > 0.0 && c.refillPerMs > 0.0 && c.idleMs > 0.0
  }

  /** A bucket that idles until it is pruned has been refilled to capacity. */
  predicate RefillsWhileIdle(c: Rates) {
    c.idleMs * c.refillPerMs >= c.capacity
  }

  lemma PolicyRates(p: Policy)
    requires ValidPolicy(p)
    ensures RatesOf(p).idleMs * RatesOf(p).refillPerMs == 2.0 * p.rate
    ensures RefillsWhileIdle(RatesOf(p)) <==> p.burst <= p.rate
  {
    var ms := p.windowSeconds * 1000.0;
    var perMs := p.rate / ms;
    assert perMs * ms == p.rate;
    assert (2.0 * ms) * perMs == 2.0 * (perMs * ms);
  }

  datatype Bucket = Bucket(tokens: real, updatedAt: real, touchedAt: real)

  datatype Decision = Allowed | Refused(retryAfterSeconds: int)

  function Min(a: real, b: real): real {
    if a <= b then a else b
  }

  function Max(a: real, b: real): real {
    if a >= b then a else b
  }

  function Ceil(x: real): int {
    -((-x).Floor)
  }

  // ----- One bucket, never pruned -----

  /** The tokens of a bucket at time `now`. */
  function Level(c: Rates, b: Bucket, now: real): real {
    Min(c.capacity, b.tokens + Max(0.0, now - b.updatedAt) * c.refillPerMs)
  }

  function NewBucket(c: Rates, now: real): Bucket {
    Bucket(c.capacity, now, now)
  }

  function RetryAfter(c: Rates, tokens: real): int
    requires ValidRates(c)
  {
    var seconds := Ceil((1.0 - tokens) / (c.refillPerMs * 1000.0));
    if seconds > 1 then seconds else 1
  }

  /** One request on one bucket. */
  function Draw(c: Rates, b: Bucket, now: real): (Bucket, Decision)
    requires ValidRates(c)
  {
    var tokens := Level(c, b, now);
    if tokens < 1.0 then (Bucket(tokens, now, now), Refused(RetryAfter(c, tokens)))
    else (Bucket(tokens - 1.0, now, now), Allowed)
  }

  // ----- The table of buckets -----

  /** Buckets with their insertion order, as a JavaScript `Map` keeps them. */
  datatype Table = Table(order: seq<string>, buckets: map<string, Bucket>)

  const EMPTY := Table([], map[])

  ghost predicate WellOrdered(t: Table) {
    && (forall i, j | 0 <= i < j < |t.order| :: t.order[i] != t.order[j])
    && (forall k :: k in t.order <==> k in t.buckets)
  }

  predicate Idle(b: Bucket, now: real, idleMs: real) {
    now - b.touchedAt >= idleMs
  }

  function FreshKeys(order: seq<string>, buckets: map<string, Bucket>, now: real, idleMs: real): (r: seq<string>)
    requires forall k | k in order :: k in buckets
    ensures forall k :: k in r <==> k in order && !Idle(buckets[k], now, idleMs)
  {
    if order == [] then []
    else
      var n := |order| - 1;
      var kept := FreshKeys(order[..n], buckets, now, idleMs);
      if Idle(buckets[order[n]], now, idleMs) then kept else kept + [order[n]]
  }

  function Prune(t: Table, now: real, idleMs: real): Table
    requires forall k | k in t.order :: k in t.buckets
  {
    Table(FreshKeys(t.order, t.buckets, now, idleMs),
          map k | k in t.buckets && !Idle(t.buckets[k], now, idleMs) :: t.buckets[k])
  }

  function BucketOf(c: Rates, t: Table, key: string, now: real): Bucket {
    if key in t.buckets then t.buckets[key] else NewBucket(c, now)
  }

  function Serve(c: Rates, t: Table, key: string, now: real): (Table, Decision)
    requires ValidRates(c)
  {
    var (b, d) := Draw(c, BucketOf(c, t, key, now), now);
    (Table(if key in t.buckets then t.order else t.order + [key], t.buckets[key := b]), d)
  }

  /** Keeps the `maxEntries` most recently inserted buckets. */
  function Bound(t: Table, maxEntries: nat): Table {
    if |t.order| <= maxEntries then t
    else
      var excess := |t.order| - maxEntries;
      Table(t.order[excess..], t.buckets - set k | k in t.order[..excess])
  }

  /** One call of the limiter: prune, draw, and bound only when the request was allowed. */
  function Step(c: Rates, maxEntries: nat, t: Table, key: string, now: real): (Table, Decision)
    requires ValidRates(c) && forall k | k in t.order :: k in t.buckets
  {
    var (served, d) := Serve(c, Prune(t, now, c.idleMs), key, now);
    (if d == Allowed then Bound(served, maxEntries) else served, d)
  }

  lemma {:induction false} FreshKeysDistinct(order: seq<string>, buckets: map<string, Bucket>, now: real, idleMs: real)
    requires forall k | k in order :: k in buckets
    requires forall i, j | 0 <= i < j < |order| :: order[i] != order[j]
    ensures var r := FreshKeys(order, buckets, now, idleMs);
            |r| <= |order| && forall i, j | 0 <= i < j < |r| :: r[i] != r[j]
  {
    if order != [] {
      var n := |order| - 1;
      FreshKeysDistinct(order[..n], buckets, now, idleMs);
      assert forall k | k in order[..n] :: k != order[n];
    }
  }

  lemma PruneWellOrdered(t: Table, now: real, idleMs: real)
    requires WellOrdered(t)
    ensures WellOrdered(Prune(t, now, idleMs)) && |Prune(t, now, idleMs).order| <= |t.order|
  {
    FreshKeysDistinct(t.order, t.buckets, now, idleMs);
  }

  lemma SplitDistinct(order: seq<string>, n: nat)
    requires n <= |order| && forall i, j | 0 <= i < j < |order| :: order[i] != order[j]
    ensures forall k | k in order :: k in order[n..] <==> k !in order[..n]
  {
    forall k | k in order ensures k in order[n..] <==> k !in order[..n] {
      var i :| 0 <= i < |order| && order[i] == k;
      if i < n {
        assert order[..n][i] == k;
      } else {
        assert order[n..][i - n] == k;
      }
    }
  }

  lemma BoundWellOrdered(t: Table, maxEntries: nat)
    requires WellOrdered(t)
    ensures WellOrdered(Bound(t, maxEntries))
  {
    if |t.order| > maxEntries {
      SplitDistinct(t.order, |t.order| - maxEntries);
    }
  }

  lemma StepWellOrdered(c: Rates, maxEntries: nat, t: Table, key: string, now: real)
    requires ValidRates(c) && WellOrdered(t)
    ensures WellOrdered(Step(c, maxEntries, t, key, now).0)
  {
    PruneWellOrdered(t, now, c.idleMs);
    var (served, d) := Serve(c, Prune(t, now, c.idleMs), key, now);
    assert WellOrdered(served);
    BoundWellOrdered(served, maxEntries);
  }

  class TokenBucketLimiter {
    const maxEntries: nat
    var order: seq<string>
    var buckets: map<string, Bucket>

    constructor (maxEntries: nat)
      ensures this.maxEntries == maxEntries && Contents() == EMPTY && Valid()
    {
      this.maxEntries := maxEntries;
      order, buckets := [], map[];
    }

    function Contents(): Table
      reads this
    {
      Table(order, buckets)
    }

    ghost predicate Valid()
      reads this
    {
      WellOrdered(Contents())
    }

    method Consume(key: string, policy: Policy, now: real) returns (decision: Decision)
      requires Valid() && ValidPolicy(policy)
      modifies this
      ensures Valid()
      ensures (Contents(), decision) == Step(RatesOf(policy), maxEntries, old(Contents()), key, now)
    {
      var c := RatesOf(policy);
      PolicyRates(policy);
      StepWellOrdered(c, maxEntries, Contents(), key, now);
      PruneWellOrdered(Contents(), now, c.idleMs);
      PruneIdle(now, c.idleMs);
      var bucket := if key in buckets then buckets[key] else NewBucket(c, now);
      bucket := bucket.(tokens := Level(c, bucket, now), updatedAt := now, touchedAt := now);
      if key !in buckets {
        order := order + [key];
      }
      if bucket.tokens < 1.0 {
        buckets := buckets[key := bucket];
        return Refused(RetryAfter(c, bucket.tokens));
      }
      bucket := bucket.(tokens := bucket.tokens - 1.0);
      buckets := buckets[key := bucket];
      BoundSize();
      return Allowed;
    }

    method PruneIdle(now: real, idleMs: real)
      requires Valid()
      modifies this
      ensures Contents() == Prune(old(Contents()), now, idleMs)
    {
      var keys, all := order, buckets;
      order := [];
      for i := 0 to |keys|
        invariant Swept(keys, all, now, idleMs, i, order, buckets)
      {
        SweptNext(keys, all, now, idleMs, i, order, buckets);
        if Idle(all[keys[i]], now, idleMs) {
          buckets := buckets - {keys[i]};
        } else {
          order := order + [keys[i]];
        }
      }
      SweptAll(keys, all, now, idleMs, order, buckets);
    }

    method BoundSize()
      requires Valid()
      modifies this
      ensures Contents() == Bound(old(Contents()), maxEntries)
    {
      var keys, all := order, buckets;
      ghost var dropped := 0;
      while |order| > maxEntries
        invariant 0 <= dropped <= |keys| && order == keys[dropped..]
        invariant dropped == 0 || |order| >= maxEntries
        invariant forall k :: k in buckets <==> k in all && k !in keys[..dropped]
        invariant forall k | k in buckets :: buckets[k] == all[k]
      {
        assert keys[..dropped + 1] == keys[..dropped] + [keys[dropped]];
        buckets := buckets - {order[0]};
        order := order[1..];
        dropped := dropped + 1;
      }
      assert |keys| <= maxEntries ==> dropped == 0;
      assert |keys| > maxEntries ==> dropped == |keys| - maxEntries;
      BoundDrops(Table(keys, all), maxEntries, dropped, buckets);
    }
  }

  /** The idle ones among the first `n` keys are gone, everything else is there. */
  ghost predicate Swept(keys: seq<string>, all: map<string, Bucket>, now: real, idleMs: real, n: nat,
                        order: seq<string>, left: map<string, Bucket>) {
    && n <= |keys| && (forall k | k in keys :: k in all)
    && order == FreshKeys(keys[..n], all, now, idleMs)
    && (forall k :: k in left <==> k in all && (k in keys[..n] ==> !Idle(all[k], now, idleMs)))
    && (forall k | k in left :: left[k] == all[k])
  }

  lemma SweptNext(keys: seq<string>, all: map<string, Bucket>, now: real, idleMs: real, n: nat,
                  order: seq<string>, left: map<string, Bucket>)
    requires n < |keys| && Swept(keys, all, now, idleMs, n, order, left)
    ensures if Idle(all[keys[n]], now, idleMs) then Swept(keys, all, now, idleMs, n + 1, order, left - {keys[n]})
            else Swept(keys, all, now, idleMs, n + 1, order + [keys[n]], left)
  {
    assert keys[..n + 1] == keys[..n] + [keys[n]];
    assert keys[..n + 1][..n] == keys[..n];
  }

  lemma SweptAll(keys: seq<string>, all: map<string, Bucket>, now: real, idleMs: real, order: seq<string>,
                 left: map<string, Bucket>)
    requires WellOrdered(Table(keys, all)) && Swept(keys, all, now, idleMs, |keys|, order, left)
    ensures Table(order, left) == Prune(Table(keys, all), now, idleMs)
  {
    assert keys[..|keys|] == keys;
  }

  lemma BoundDrops(t: Table, maxEntries: nat, dropped: nat, left: map<string, Bucket>)
    requires WellOrdered(t)
    requires dropped == if |t.order| > maxEntries then |t.order| - maxEntries else 0
    requires forall k :: k in left <==> k in t.buckets && k !in t.order[..dropped]
    requires forall k | k in left :: left[k] == t.buckets[k]
    ensures Bound(t, maxEntries) == Table(t.order[dropped..], left)
  {
    if dropped == 0 {
      assert t.order[..0] == [] && t.order[0..] == t.order;
      assert left == t.buckets;
    } else {
      assert left == t.buckets - set k | k in t.order[..dropped];
    }
  }
}
