/** The fixed-window rate limiter of the ACME endpoints. */
module RateLimiter {
  import opened Common

  datatype Bucket = Bucket(count: int, resetAt: int)

  const DEFAULT_LIMIT: int := 120
  const DEFAULT_WINDOW: int := MINUTE

  /** The limit and the window length as the server configures them. */
  datatype Config = Config(limit: int, window: int)

  predicate ValidConfig(c: Config) {
    c.limit >= 1 && c.window >= 1
  }

  /** A key without a bucket reads as the zero value. */
  function Lookup(rates: map<string, Bucket>, key: string): Bucket {
    if key in rates then rates[key] else Bucket(0, ZERO_TIME)
  }

  /** The bucket that is current at `now`: the stored one, or a new one once it has run out. */
  function Current(c: Config, b: Bucket, now: int): Bucket {
    if b.resetAt == ZERO_TIME || b.resetAt <= now then Bucket(0, now + c.window) else b
  }

  function Check(c: Config, b: Bucket, now: int): (r: (bool, Bucket)) {
    var current := Current(c, b, now);
    if current.count >= c.limit then (false, current) else (true, current.(count := current.count + 1))
  }

  class Limiter {
    var rates: map<string, Bucket>
    const config: Config

    constructor (limit: int, window: int)
      ensures rates == map[] && ValidConfig(config)
      ensures config == Config(if limit > 0 then limit else 120, if window > 0 then window else 60_000_000_000)
    {
      rates := map[];
      config := Config(if limit <= 0 then DEFAULT_LIMIT else limit, if window <= 0 then DEFAULT_WINDOW else window);
    }

    method CheckRateLimit(key: string, now: int) returns (accepted: bool)
      modifies this
      ensures var (ok, bucket) := Check(config, Lookup(old(rates), key), now);
              accepted == ok && rates == old(rates)[key := bucket]
      ensures rates.Keys == old(rates).Keys + {key}
      ensures forall other :: other in rates && other != key ==> rates[other] == old(rates)[other]
      ensures key in old(rates) && old(rates)[key].resetAt != 0 && now < old(rates)[key].resetAt ==>
                var before := old(rates)[key];
                && (accepted <==> before.count < config.limit) && rates[key].resetAt == before.resetAt
                && rates[key].count == before.count + (if accepted then 1 else 0)
      ensures key !in old(rates) || old(rates)[key].resetAt == 0 || old(rates)[key].resetAt <= now ==>
                && (accepted <==> config.limit > 0) && rates[key].resetAt == now + config.window
                && rates[key].count == if accepted then 1 else 0
    {
      var bucket := Lookup(rates, key);
      if bucket.resetAt == ZERO_TIME || bucket.resetAt <= now {
        bucket := Bucket(0, now + config.window);
      }
      if bucket.count >= config.limit {
        rates := rates[key := bucket];
        return false;
      }
      bucket := bucket.(count := bucket.count + 1);
      rates := rates[key := bucket];
      return true;
    }
  }

  // ---- runs -------------------------------------------------------------------------------------

  datatype Request = Request(key: string, at: int)

  /** A clock that never runs backwards. */
  predicate Monotone(rs: seq<Request>) {
    && (forall i :: 0 <= i < |rs| ==> rs[i].at > ZERO_TIME)
    && (forall i, j :: 0 <= i < j < |rs| ==> rs[i].at <= rs[j].at)
  }

  /** The buckets after the first `n` requests. */
  function Rates(c: Config, rs: seq<Request>, n: nat): map<string, Bucket>
    requires n <= |rs|
  {
    if n == 0 then map[]
    else
      var before := Rates(c, rs, n - 1);
      before[rs[n - 1].key := Check(c, Lookup(before, rs[n - 1].key), rs[n - 1].at).1]
  }

  predicate Accepted(c: Config, rs: seq<Request>, i: nat)
    requires i < |rs|
  {
    Check(c, Lookup(Rates(c, rs, i), rs[i].key), rs[i].at).0
  }

  function BucketOf(c: Config, rs: seq<Request>, key: string, n: nat): Bucket
    requires n <= |rs|
  {
    Lookup(Rates(c, rs, n), key)
  }

  /** The first `n` requests accepted for `key` at a time in `[lo, hi)`, counted. */
  function Count(c: Config, rs: seq<Request>, key: string, lo: int, hi: int, n: nat): nat
    requires n <= |rs|
  {
    if n == 0 then 0
    else
      Count(c, rs, key, lo, hi, n - 1) +
      (if rs[n - 1].key == key && Accepted(c, rs, n - 1) && lo <= rs[n - 1].at < hi then 1 else 0)
  }

  // ---- counting ---------------------------------------------------------------------------------

  /** Every accepted request of `key` so far came before `bound`. */
  predicate AllBefore(c: Config, rs: seq<Request>, key: string, n: nat, bound: int)
    requires n <= |rs|
  {
    forall i :: 0 <= i < n && rs[i].key == key && Accepted(c, rs, i) ==> rs[i].at < bound
  }

  lemma {:induction false} CountShrinks(c: Config, rs: seq<Request>, key: string, lo: int, hi: int, lo2: int,
                                        bound: int, n: nat)
    requires n <= |rs| && lo2 <= lo && AllBefore(c, rs, key, n, bound)
    ensures Count(c, rs, key, lo, hi, n) <= Count(c, rs, key, lo2, bound, n)
  {
    if n > 0 {
      CountShrinks(c, rs, key, lo, hi, lo2, bound, n - 1);
    }
  }

  lemma {:induction false} CountSplits(c: Config, rs: seq<Request>, key: string, lo: int, mid: int, hi: int,
                                       bound: int, n: nat)
    requires n <= |rs| && AllBefore(c, rs, key, n, bound)
    ensures Count(c, rs, key, lo, hi, n) <= Count(c, rs, key, lo, mid, n) + Count(c, rs, key, mid, bound, n)
  {
    if n > 0 {
      CountSplits(c, rs, key, lo, mid, hi, bound, n - 1);
    }
  }

  lemma {:induction false} CountNone(c: Config, rs: seq<Request>, key: string, lo: int, hi: int, n: nat)
    requires n <= |rs| && AllBefore(c, rs, key, n, lo)
    ensures Count(c, rs, key, lo, hi, n) == 0
  {
    if n > 0 {
      CountNone(c, rs, key, lo, hi, n - 1);
    }
  }

  // ---- the invariant -------------------------------------------------------------------------------

  /** What holds of `key` once it has a bucket, whose window starts at `resetAt - window`. */
  ghost predicate WindowInv(c: Config, rs: seq<Request>, key: string, n: nat, b: Bucket)
    requires n <= |rs|
  {
    var start := b.resetAt - c.window;
    && 1 <= b.count <= c.limit && b.resetAt != ZERO_TIME
    && (forall i :: n <= i < |rs| ==> start <= rs[i].at)
    && AllBefore(c, rs, key, n, b.resetAt)
    && Count(c, rs, key, start, b.resetAt, n) == b.count
    && Count(c, rs, key, start + 1, b.resetAt, n) <= b.count - 1
    && forall t :: start < t + c.window ==> Count(c, rs, key, t, start, n) <= c.limit - 1
  }

  predicate NoRequest(rs: seq<Request>, key: string, n: nat)
    requires n <= |rs|
  {
    forall i :: 0 <= i < n ==> rs[i].key != key
  }

  ghost predicate Inv(c: Config, rs: seq<Request>, key: string, n: nat)
    requires n <= |rs|
  {
    var b := BucketOf(c, rs, key, n);
    if b == Bucket(0, ZERO_TIME) then NoRequest(rs, key, n) else WindowInv(c, rs, key, n, b)
  }

  lemma OtherKeyKeepsInv(c: Config, rs: seq<Request>, key: string, n: nat)
    requires ValidConfig(c) && Monotone(rs) && n < |rs| && Inv(c, rs, key, n) && rs[n].key != key
    ensures Inv(c, rs, key, n + 1)
  {
    var b := BucketOf(c, rs, key, n);
    assert BucketOf(c, rs, key, n + 1) == b;
    if b != Bucket(0, ZERO_TIME) {
      var start := b.resetAt - c.window;
      assert AllBefore(c, rs, key, n + 1, b.resetAt);
      assert Count(c, rs, key, start, b.resetAt, n + 1) == b.count;
      assert Count(c, rs, key, start + 1, b.resetAt, n + 1) <= b.count - 1;
      var m := n + 1;
      forall t | start < t + c.window ensures Count(c, rs, key, t, start, m) <= c.limit - 1 {
        assert Count(c, rs, key, t, start, n) <= c.limit - 1;
      }
    }
  }

  lemma SameWindowKeepsInv(c: Config, rs: seq<Request>, key: string, n: nat, b: Bucket)
    requires ValidConfig(c) && Monotone(rs) && n < |rs| && rs[n].key == key
    requires b == BucketOf(c, rs, key, n) && WindowInv(c, rs, key, n, b) && rs[n].at < b.resetAt
    ensures Inv(c, rs, key, n + 1)
  {
    var start := b.resetAt - c.window;
    var next := BucketOf(c, rs, key, n + 1);
    assert next == Check(c, b, rs[n].at).1 && next.resetAt == b.resetAt;
    assert AllBefore(c, rs, key, n + 1, b.resetAt);
    assert Count(c, rs, key, start, b.resetAt, n + 1) == next.count;
    assert Count(c, rs, key, start + 1, b.resetAt, n + 1) <= next.count - 1;
    var m := n + 1;
    forall t | start < t + c.window ensures Count(c, rs, key, t, start, m) <= c.limit - 1 {
      assert Count(c, rs, key, t, start, n) <= c.limit - 1;
    }
  }

  lemma NewWindowKeepsInv(c: Config, rs: seq<Request>, key: string, n: nat)
    requires ValidConfig(c) && Monotone(rs) && n < |rs| && rs[n].key == key && Inv(c, rs, key, n)
    requires BucketOf(c, rs, key, n).resetAt <= rs[n].at
    ensures Inv(c, rs, key, n + 1)
  {
    var b, now := BucketOf(c, rs, key, n), rs[n].at;
    var next := BucketOf(c, rs, key, n + 1);
    assert next == Bucket(1, now + c.window);
    assert AllBefore(c, rs, key, n, now);
    CountNone(c, rs, key, now, now + c.window, n);
    assert Count(c, rs, key, now, next.resetAt, n + 1) == 1;
    CountNone(c, rs, key, now + 1, now + c.window, n);
    assert Count(c, rs, key, now + 1, next.resetAt, n + 1) == 0;
    assert AllBefore(c, rs, key, n + 1, next.resetAt);
    var m := n + 1;
    forall t | now < t + c.window ensures Count(c, rs, key, t, now, m) <= c.limit - 1 {
      EarlierInInterval(c, rs, key, n, t);
    }
  }

  /** When a request opens a window, an interval that reaches it holds fewer than `limit` earlier acceptances. */
  lemma EarlierInInterval(c: Config, rs: seq<Request>, key: string, n: nat, t: int)
    requires ValidConfig(c) && n < |rs| && Inv(c, rs, key, n)
    requires BucketOf(c, rs, key, n).resetAt <= rs[n].at < t + c.window
    ensures Count(c, rs, key, t, rs[n].at, n) <= c.limit - 1
  {
    var b := BucketOf(c, rs, key, n);
    if b == Bucket(0, ZERO_TIME) {
      CountNone(c, rs, key, t, rs[n].at, n);
    } else {
      CountShrinks(c, rs, key, t, rs[n].at, b.resetAt - c.window + 1, b.resetAt, n);
    }
  }

  lemma StepKeepsInv(c: Config, rs: seq<Request>, key: string, n: nat)
    requires ValidConfig(c) && Monotone(rs) && n < |rs| && Inv(c, rs, key, n)
    ensures Inv(c, rs, key, n + 1)
  {
    var b := BucketOf(c, rs, key, n);
    if rs[n].key != key {
      OtherKeyKeepsInv(c, rs, key, n);
    } else if b.resetAt <= rs[n].at {
      NewWindowKeepsInv(c, rs, key, n);
    } else {
      SameWindowKeepsInv(c, rs, key, n, b);
    }
  }

  lemma {:induction false} InvHolds(c: Config, rs: seq<Request>, key: string, n: nat)
    requires ValidConfig(c) && Monotone(rs) && n <= |rs|
    ensures Inv(c, rs, key, n)
  {
    if n > 0 {
      InvHolds(c, rs, key, n - 1);
      StepKeepsInv(c, rs, key, n - 1);
    }
  }

  // ---- the two promises -----------------------------------------------------------------------------

  /** No half-open interval of one window length holds more than `2 * limit - 1` accepted requests of a key. */
  lemma {:induction false} AtMostTwiceTheLimit(c: Config, rs: seq<Request>, key: string, t: int, n: nat)
    requires ValidConfig(c) && Monotone(rs) && n <= |rs|
    ensures Count(c, rs, key, t, t + c.window, n) <= 2 * c.limit - 1
  {
    if n > 0 {
      AtMostTwiceTheLimit(c, rs, key, t, n - 1);
      if rs[n - 1].key == key && Accepted(c, rs, n - 1) && t <= rs[n - 1].at < t + c.window {
        RoomForOneMore(c, rs, key, t, n - 1);
      }
    }
  }

  lemma RoomForOneMore(c: Config, rs: seq<Request>, key: string, t: int, n: nat)
    requires ValidConfig(c) && Monotone(rs) && n < |rs| && rs[n].key == key && Accepted(c, rs, n)
    requires t <= rs[n].at < t + c.window
    ensures Count(c, rs, key, t, t + c.window, n) <= 2 * c.limit - 2
  {
    InvHolds(c, rs, key, n);
    var b, now := BucketOf(c, rs, key, n), rs[n].at;
    if b.resetAt <= now {
      EarlierInInterval(c, rs, key, n, t);
      assert AllBefore(c, rs, key, n, now);
      CountShrinks(c, rs, key, t, t + c.window, t, now, n);
    } else {
      var start := b.resetAt - c.window;
      if t <= start {
        CountSplits(c, rs, key, t, start, t + c.window, b.resetAt, n);
        assert Count(c, rs, key, t, start, n) <= c.limit - 1;
      } else {
        CountShrinks(c, rs, key, t, t + c.window, start + 1, b.resetAt, n);
      }
    }
  }

  /** A rejected request falls in a window in which exactly `limit` requests of its key were already accepted. */
  lemma RejectedOnlyWhenFull(c: Config, rs: seq<Request>, n: nat)
    requires ValidConfig(c) && Monotone(rs) && n < |rs| && !Accepted(c, rs, n)
    ensures var start := BucketOf(c, rs, rs[n].key, n).resetAt - c.window;
            start <= rs[n].at < start + c.window && Count(c, rs, rs[n].key, start, start + c.window, n) == c.limit
  {
    InvHolds(c, rs, rs[n].key, n);
  }

  /** A window of a single instant holds no more than the limit. */
  lemma {:induction false} OneInstantHoldsTheLimit(c: Config, rs: seq<Request>, key: string, t: int, n: nat)
    requires ValidConfig(c) && c.window == 1 && Monotone(rs) && n <= |rs|
    ensures Count(c, rs, key, t, t + 1, n) <= c.limit
  {
    if n > 0 {
      OneInstantHoldsTheLimit(c, rs, key, t, n - 1);
      if rs[n - 1].key == key && Accepted(c, rs, n - 1) && rs[n - 1].at == t {
        RoomInOneInstant(c, rs, n - 1);
      }
    }
  }

  lemma RoomInOneInstant(c: Config, rs: seq<Request>, n: nat)
    requires ValidConfig(c) && c.window == 1 && Monotone(rs) && n < |rs| && Accepted(c, rs, n)
    ensures Count(c, rs, rs[n].key, rs[n].at, rs[n].at + 1, n) <= c.limit - 1
  {
    InvHolds(c, rs, rs[n].key, n);
    RoomInBucket(c, rs, rs[n].key, n, BucketOf(c, rs, rs[n].key, n), rs[n].at);
  }

  lemma RoomInBucket(c: Config, rs: seq<Request>, key: string, n: nat, b: Bucket, now: int)
    requires ValidConfig(c) && c.window == 1 && n < |rs| && rs[n].at == now && now >= ZERO_TIME && Check(c, b, now).0
    requires if b == Bucket(0, ZERO_TIME) then NoRequest(rs, key, n) else WindowInv(c, rs, key, n, b)
    ensures Count(c, rs, key, now, now + 1, n) <= c.limit - 1
  {
    if b.resetAt <= now {
      AllBeforeReset(c, rs, key, n, b, now);
      CountNone(c, rs, key, now, now + 1, n);
    } else {
      RoomInOpenInstant(c, rs, key, n, b, now);
    }
  }

  lemma AllBeforeReset(c: Config, rs: seq<Request>, key: string, n: nat, b: Bucket, now: int)
    requires n <= |rs| && b.resetAt <= now
    requires if b == Bucket(0, ZERO_TIME) then NoRequest(rs, key, n) else WindowInv(c, rs, key, n, b)
    ensures AllBefore(c, rs, key, n, now)
  {
  }

  lemma RoomInOpenInstant(c: Config, rs: seq<Request>, key: string, n: nat, b: Bucket, now: int)
    requires c.window == 1 && n < |rs| && rs[n].at == now < b.resetAt
    requires WindowInv(c, rs, key, n, b) && Check(c, b, now).0
    ensures Count(c, rs, key, now, now + 1, n) <= c.limit - 1
  {
    assert b.resetAt - 1 <= rs[n].at;
  }

  // ---- the bound is reached -------------------------------------------------------------------------

  /** One request, the rest of its window's allowance in the last instant, and the next allowance right after. */
  function Burst(c: Config, key: string): seq<Request>
    requires ValidConfig(c)
  {
    [Request(key, 1)] + seq(c.limit - 1, _ => Request(key, c.window)) + seq(c.limit, _ => Request(key, 1 + c.window))
  }

  lemma {:induction false} BurstFirstWindow(c: Config, key: string, n: nat)
    requires ValidConfig(c) && c.window >= 2 && 1 <= n <= c.limit
    ensures BucketOf(c, Burst(c, key), key, n) == Bucket(n, 1 + c.window)
    ensures Count(c, Burst(c, key), key, 2, 2 + c.window, n) == n - 1
  {
    var rs := Burst(c, key);
    if n == 1 {
      assert Rates(c, rs, 0) == map[];
    } else {
      BurstFirstWindow(c, key, n - 1);
    }
  }

  lemma {:induction false} BurstSecondWindow(c: Config, key: string, n: nat)
    requires ValidConfig(c) && c.window >= 2 && n <= c.limit
    ensures var b := BucketOf(c, Burst(c, key), key, c.limit + n);
            if n == 0 then b == Bucket(c.limit, 1 + c.window) else b == Bucket(n, 1 + c.window + c.window)
    ensures Count(c, Burst(c, key), key, 2, 2 + c.window, c.limit + n) == c.limit - 1 + n
  {
    if n == 0 {
      BurstFirstWindow(c, key, c.limit);
    } else {
      BurstSecondWindow(c, key, n - 1);
    }
  }

  /** For every limit and every window longer than one instant some run reaches the bound. */
  lemma BoundIsReached(c: Config, key: string)
    requires ValidConfig(c) && c.window >= 2
    ensures Monotone(Burst(c, key))
    ensures Count(c, Burst(c, key), key, 2, 2 + c.window, |Burst(c, key)|) == 2 * c.limit - 1
  {
    BurstSecondWindow(c, key, c.limit);
  }
}
