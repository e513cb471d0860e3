/**
 The token bucket the rate limiter is assumed to be: it holds at most `burst`
 tokens, gains `rate` of them a second, and each allowed event takes one. Its
 content is kept as the seconds it took to gain: a token is worth 1/rate of them.
 */
module TokenBucket {

  datatype Limiter = Limiter(period: real, capacity: real, saved: real, last: real)

  function Period(rate: real): real
    requires rate > 0.0
    ensures Period(rate) > 0.0
  {
    1.0 / rate
  }

  function Capacity(rate: real, burst: nat): real
    requires rate > 0.0
  {
    burst as real * Period(rate)
  }

  /** A new bucket is full. A rate of zero or less never gets past validation. */
  function NewLimiter(rate: real, burst: nat, now: real): Limiter
  {
    if rate <= 0.0 then Limiter(1.0, 0.0, 0.0, now)
    else Limiter(Period(rate), Capacity(rate, burst), Capacity(rate, burst), now)
  }

  function Min(x: real, y: real): real
  {
    if x < y then x else y
  }

  /** The seconds' worth of tokens there are at a time. */
  function Available(l: Limiter, now: real): real
  {
    Min(if now > l.last then l.saved + (now - l.last) else l.saved, l.capacity)
  }

  function Allow(l: Limiter, now: real): (Limiter, bool)
  {
    if Available(l, now) >= l.period then (l.(saved := Available(l, now) - l.period, last := now), true) else (l, false)
  }

  ghost predicate Sane(l: Limiter)
  {
    l.period > 0.0 && 0.0 <= l.saved <= l.capacity
  }

  /** Waiting gains no more than the time waited, and never more than the capacity. */
  lemma Refill(l: Limiter, t: real, u: real)
    requires Sane(l) && l.last <= t <= u
    ensures Available(l, t) <= Available(l, u) <= Available(l, t) + (u - t)
    ensures 0.0 <= Available(l, u) <= l.capacity
  {
  }

  /** An allowed event takes exactly one token, a refused one none. */
  lemma AllowTakesOne(l: Limiter, now: real)
    requires Sane(l) && l.last <= now
    ensures var (l', ok) := Allow(l, now);
      && Sane(l') && l'.period == l.period && l'.capacity == l.capacity && l'.last <= now
      && Available(l', now) == Available(l, now) - if ok then l.period else 0.0
  {
  }

  /** A new bucket is full, and lets the first event through. */
  lemma NewIsFull(rate: real, burst: nat, created: real, now: real)
    requires rate > 0.0 && burst >= 1 && created <= now
    ensures var l := NewLimiter(rate, burst, created);
      && Sane(l) && l.capacity == Capacity(rate, burst) && Available(l, now) == l.capacity && Allow(l, now).1
  {
    assert burst as real * Period(rate) == Period(rate) + (burst - 1) as real * Period(rate);
    assert (burst - 1) as real * Period(rate) >= 0.0;
  }

  // ----- In tokens -----

  /** The tokens a number of seconds is worth at a rate. */
  function TokensIn(seconds: real, rate: real): real
  {
    seconds * rate
  }

  lemma Scale(x: real, y: real, rate: real)
    ensures TokensIn(x + y, rate) == TokensIn(x, rate) + TokensIn(y, rate)
    ensures TokensIn(x - y, rate) == TokensIn(x, rate) - TokensIn(y, rate)
  {
  }

  lemma ScaleOrder(x: real, y: real, rate: real)
    requires rate > 0.0
    ensures x <= y <==> TokensIn(x, rate) <= TokensIn(y, rate)
  {
    if x <= y {
      assert (y - x) * rate >= 0.0;
    } else {
      assert (x - y) * rate > 0.0;
    }
  }

  lemma ScaleMin(x: real, y: real, rate: real)
    requires rate > 0.0
    ensures TokensIn(Min(x, y), rate) == Min(TokensIn(x, rate), TokensIn(y, rate))
  {
    ScaleOrder(x, y, rate);
    ScaleOrder(y, x, rate);
  }

  lemma OneToken(rate: real)
    requires rate > 0.0
    ensures TokensIn(Period(rate), rate) == 1.0
  {
  }

  lemma Product3(x: real, y: real, z: real)
    ensures (x * y) * z == x * (y * z)
  {
  }

  lemma FullBucket(rate: real, burst: nat)
    requires rate > 0.0
    ensures TokensIn(Capacity(rate, burst), rate) == burst as real
  {
    OneToken(rate);
    Product3(burst as real, Period(rate), rate);
  }

  /**
   In tokens the bucket is the usual one: it gains `rate` a second up to `burst`, and an event needs and takes one.
   */
  lemma IsATokenBucket(l: Limiter, rate: real, burst: nat, t: real, u: real)
    requires rate > 0.0 && Sane(l) && l.period == Period(rate) && l.capacity == Capacity(rate, burst) &&
               l.last <= t <= u
    ensures TokensIn(Available(l, u), rate) ==
              Min(TokensIn(Available(l, t), rate) + TokensIn(u - t, rate), burst as real)
    ensures Allow(l, u).1 <==> TokensIn(Available(l, u), rate) >= 1.0
    ensures TokensIn(Available(Allow(l, u).0, u), rate) == TokensIn(Available(l, u), rate) - if Allow(l, u).1 then 1.0
              else 0.0
  {
    var x := Available(l, t);
    assert Available(l, u) == Min(x + (u - t), l.capacity);
    ScaleMin(x + (u - t), l.capacity, rate);
    Scale(x, u - t, rate);
    FullBucket(rate, burst);
    OneToken(rate);
    ScaleOrder(l.period, Available(l, u), rate);
    AllowTakesOne(l, u);
    Scale(Available(l, u), l.period, rate);
  }

  /** What a number of tokens is worth. */
  function Worth(n: nat, period: real): real
  {
    if n == 0 then 0.0 else Worth(n - 1, period) + period
  }

  lemma {:induction false} WorthIsProduct(n: nat, period: real)
    ensures Worth(n, period) == n as real * period
  {
    if n > 0 {
      WorthIsProduct(n - 1, period);
    }
  }

  lemma WorthInTokens(n: nat, rate: real)
    requires rate > 0.0
    ensures TokensIn(Worth(n, Period(rate)), rate) == n as real
  {
    WorthIsProduct(n, Period(rate));
    OneToken(rate);
    Product3(n as real, Period(rate), rate);
  }

  /** What a bucket may let through in a time: burst + rate * time. */
  function Quota(rate: real, burst: nat, time: real): real
  {
    burst as real + rate * time
  }

  /** Tokens worth at most a full bucket and the time gone by number at most the quota. */
  lemma WorthBounds(n: nat, rate: real, burst: nat, time: real)
    requires rate > 0.0 && Worth(n, Period(rate)) <= Capacity(rate, burst) + time
    ensures n as real <= Quota(rate, burst, time)
  {
    WorthInTokens(n, rate);
    FullBucket(rate, burst);
    Scale(Capacity(rate, burst), time, rate);
    ScaleOrder(Worth(n, Period(rate)), Capacity(rate, burst) + time, rate);
  }
}
