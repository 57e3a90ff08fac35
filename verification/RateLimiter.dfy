/**
  The token bucket that bounds on-demand chain lookups (auth/wallet.go,
  `rateLimiter`). Tokens and seconds are reals.
 */
module RateLimiter {

  datatype Bucket = Bucket(tokens: real, max: real, perSec: real, last: real)

  function Least(a: real, b: real): real {
    if a <= b then a else b
  }

  /** Credits the time since the last reading; readings that run backwards credit nothing. */
  function Refill(b: Bucket, now: real): Bucket {
    if now - b.last > 0.0 then
      b.(tokens := Least(b.max, b.tokens + (now - b.last) * b.perSec), last := now)
    else b
  }

  /** One token is taken if there is one. */
  function Allowed(b: Bucket, now: real): bool {
    Refill(b, now).tokens >= 1.0
  }

  function Allow(b: Bucket, now: real): Bucket {
    var r := Refill(b, now);
    if r.tokens >= 1.0 then r.(tokens := r.tokens - 1.0) else r
  }

  class Limiter {
    var tokens: real
    const max: real
    const perSec: real
    var last: real

    ghost function View(): Bucket
      reads this
    {
      Bucket(tokens, max, perSec, last)
    }

    constructor (perSec: real, burst: int, now: real)
      ensures View() == Bucket(burst as real, burst as real, perSec, now)
    {
      tokens, max, this.perSec, last := burst as real, burst as real, perSec, now;
    }

    method TryTake(now: real) returns (ok: bool)
      modifies this
      ensures View() == Allow(old(View()), now) && ok == Allowed(old(View()), now)
    {
      var elapsed := now - last;
      if elapsed > 0.0 {
        tokens := Least(max, tokens + elapsed * perSec);
        last := now;
      }
      if tokens >= 1.0 {
        tokens := tokens - 1.0;
        return true;
      }
      return false;
    }
  }

  // ---------------------------------------------------------------------
  // Any sequence of calls
  // ---------------------------------------------------------------------

  /** The bucket after one call per clock reading. */
  function AllowAll(b: Bucket, readings: seq<real>): Bucket {
    if readings == [] then b
    else Allow(AllowAll(b, readings[..|readings| - 1]), readings[|readings| - 1])
  }

  /** How many of those calls were allowed. */
  function Count(b: Bucket, readings: seq<real>): nat {
    if readings == [] then 0
    else
      var n := |readings| - 1;
      Count(b, readings[..n]) + if Allowed(AllowAll(b, readings[..n]), readings[n]) then 1 else 0
  }

  /** What one call costs: a token spent or nothing, against the time credited. */
  lemma OneCall(b: Bucket, now: real)
    ensures var b' := Allow(b, now);
            && b'.max == b.max && b'.perSec == b.perSec && b'.last >= b.last
            && b'.tokens + (if Allowed(b, now) then 1.0 else 0.0)
                 <= b.tokens + b.perSec * (b'.last - b.last)
            && (b.perSec >= 0.0 && 0.0 <= b.tokens <= b.max ==> 0.0 <= b'.tokens <= b'.max)
            && (b.tokens <= b.max ==> b'.tokens <= b'.max)
  {
    Credit(now - b.last, b.perSec);
    assert b.perSec * (b.last - b.last) == 0.0;
  }

  /** Time credited, whichever way round it is written. */
  lemma Credit(elapsed: real, perSec: real)
    ensures elapsed * perSec == perSec * elapsed
    ensures elapsed > 0.0 && perSec >= 0.0 ==> elapsed * perSec >= 0.0
  {
  }

  lemma {:induction false} Settings(b: Bucket, readings: seq<real>)
    ensures var b' := AllowAll(b, readings);
            && b'.max == b.max && b'.perSec == b.perSec && b'.last >= b.last
            && (b.perSec >= 0.0 && 0.0 <= b.tokens <= b.max ==> 0.0 <= b'.tokens <= b'.max)
    decreases |readings|
  {
    if readings != [] {
      var n := |readings| - 1;
      Settings(b, readings[..n]);
      OneCall(AllowAll(b, readings[..n]), readings[n]);
    }
  }

  /**
    Over any calls, with clock readings that may repeat or run backwards: calls
    allowed plus tokens left never exceed tokens at the start plus the rate
    times the advance of the clock the limiter has seen.
   */
  lemma {:induction false} RateBound(b: Bucket, readings: seq<real>)
    ensures WithinRate(Count(b, readings), b, AllowAll(b, readings))
    decreases |readings|
  {
    if readings != [] {
      var n := |readings| - 1;
      RateBound(b, readings[..n]);
      Settings(b, readings[..n]);
      OneMore(Count(b, readings[..n]), b, AllowAll(b, readings[..n]), readings[n]);
    }
  }

  /** c calls have been allowed on the way from b to b', and no more than the clock pays for. */
  ghost predicate WithinRate(c: nat, b: Bucket, b': Bucket) {
    c as real + b'.tokens <= b.tokens + b.perSec * (b'.last - b.last)
  }

  lemma OneMore(c: nat, b: Bucket, mid: Bucket, now: real)
    requires mid.perSec == b.perSec && WithinRate(c, b, mid)
    ensures WithinRate(c + if Allowed(mid, now) then 1 else 0, b, Allow(mid, now))
  {
    OneCall(mid, now);
    Accumulate(c as real, if Allowed(mid, now) then 1.0 else 0.0, b, mid, Allow(mid, now));
  }

  lemma Accumulate(c: real, d: real, b: Bucket, mid: Bucket, end: Bucket)
    requires mid.perSec == b.perSec
    requires c + mid.tokens <= b.tokens + b.perSec * (mid.last - b.last)
    requires end.tokens + d <= mid.tokens + mid.perSec * (end.last - mid.last)
    ensures c + d + end.tokens <= b.tokens + b.perSec * (end.last - b.last)
  {
    assert b.perSec * (end.last - b.last)
        == b.perSec * (mid.last - b.last) + b.perSec * (end.last - mid.last);
  }

  /** c calls are at most a full bucket and what it gains until now. */
  ghost predicate WithinBurst(c: nat, b: Bucket, now: real) {
    c as real <= b.max + b.perSec * (now - b.last)
  }

  /** From any moment on, at most one full bucket plus the refill is spent. */
  lemma AtMostBurst(b: Bucket, readings: seq<real>)
    requires b.perSec >= 0.0 && 0.0 <= b.tokens <= b.max
    ensures WithinBurst(Count(b, readings), b, AllowAll(b, readings).last)
  {
    RateBound(b, readings);
    Settings(b, readings);
    FromFull(Count(b, readings), b, AllowAll(b, readings));
  }

  lemma FromFull(c: nat, b: Bucket, b': Bucket)
    requires WithinRate(c, b, b') && b.tokens <= b.max && 0.0 <= b'.tokens
    ensures WithinBurst(c, b, b'.last)
  {
  }

  /** A bucket that cannot hold one token never allows a call. */
  lemma {:induction false} TooSmall(b: Bucket, readings: seq<real>)
    requires b.tokens <= b.max < 1.0
    ensures Count(b, readings) == 0
    ensures AllowAll(b, readings).tokens <= AllowAll(b, readings).max < 1.0
    decreases |readings|
  {
    if readings != [] {
      var n := |readings| - 1;
      TooSmall(b, readings[..n]);
      OneCall(AllowAll(b, readings[..n]), readings[n]);
    }
  }

  // ---------------------------------------------------------------------
  // Calls that must be allowed
  // ---------------------------------------------------------------------

  /** What the clock has earned since the last reading. */
  function Earned(b: Bucket, now: real): real {
    if now <= b.last then 0.0 else b.perSec * (now - b.last)
  }

  /**
    A call is allowed exactly when the bucket can hold a token and one is there
    or has been earned since; it takes that token, and a refused call takes
    nothing.
   */
  lemma AllowedExactly(b: Bucket, now: real)
    requires b.perSec >= 0.0 && 0.0 <= b.tokens <= b.max
    ensures Allowed(b, now) <==> b.max >= 1.0 && b.tokens + Earned(b, now) >= 1.0
    ensures Allow(b, now).tokens
         == (if b.tokens + Earned(b, now) <= b.max then b.tokens + Earned(b, now) else b.max)
            - (if Allowed(b, now) then 1.0 else 0.0)
    ensures Allow(b, now).last == if now <= b.last then b.last else now
  {
    Credit(now - b.last, b.perSec);
  }

  /** A bucket holding n tokens allows the next n calls, whatever the clock says. */
  lemma {:induction false} TokensAreHonoured(b: Bucket, readings: seq<real>)
    requires b.perSec >= 0.0 && |readings| as real <= b.tokens <= b.max
    ensures Count(b, readings) == |readings|
    ensures AllowAll(b, readings).tokens >= b.tokens - |readings| as real
    decreases |readings|
  {
    if readings != [] {
      var n := |readings| - 1;
      TokensAreHonoured(b, readings[..n]);
      Settings(b, readings[..n]);
      HonouredOnce(AllowAll(b, readings[..n]), readings[n]);
    }
  }

  lemma HonouredOnce(b: Bucket, now: real)
    requires b.perSec >= 0.0 && 1.0 <= b.tokens <= b.max
    ensures Allowed(b, now) && Allow(b, now).tokens >= b.tokens - 1.0
  {
    AllowedExactly(b, now);
    NothingLost(b, now);
  }

  lemma NothingLost(b: Bucket, now: real)
    requires b.perSec >= 0.0
    ensures Earned(b, now) >= 0.0
  {
    if now > b.last {
      Credit(now - b.last, b.perSec);
    }
  }

  /** However empty, a bucket that can hold a token allows a call once 1 / perSec has passed. */
  lemma WaitingEarns(b: Bucket, now: real)
    requires b.perSec > 0.0 && 0.0 <= b.tokens <= b.max && b.max >= 1.0
    requires now >= b.last + 1.0 / b.perSec
    ensures Allowed(b, now)
  {
    OneToken(b.perSec, 1.0 / b.perSec, now - b.last);
    AllowedExactly(b, now);
  }

  lemma OneToken(rate: real, wait: real, elapsed: real)
    requires rate > 0.0 && wait == 1.0 / rate && wait <= elapsed
    ensures elapsed > 0.0 && rate * elapsed >= 1.0
  {
    Reciprocal(rate, wait);
    More(rate, wait, elapsed);
  }

  lemma Reciprocal(rate: real, wait: real)
    requires rate > 0.0 && wait == 1.0 / rate
    ensures wait > 0.0 && rate * wait == 1.0
  {
  }

  lemma More(rate: real, x: real, y: real)
    requires rate >= 0.0 && x <= y
    ensures rate * x <= rate * y
  {
  }
}
