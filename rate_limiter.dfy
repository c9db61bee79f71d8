/** The asyncio rate limiter as an object: two mutable fields (the token
    count and the time of its last recomputation), the fixed rate and
    capacity, and the methods that refill, compute the wait and acquire.
    The event loop's clock is passed in as readings; the sleep is the
    requirement that the reading after it is at least the wait time later.
    Each acquire runs as one atomic method: the lock that serialises callers
    is taken as given. */
module RateLimiter {
  import opened TokenBucket

  class AsyncRateLimiter {
    /** Tokens added per unit of time. */
    const rate: real
    /** The most tokens the bucket holds. */
    const maxCapacity: real
    /** The current token count. */
    var tokens: real
    /** The clock reading at the last recomputation of `tokens`. */
    var lastUpdate: real

    function Cfg(): Config
    {
      Config(rate, maxCapacity)
    }

    function State(): Bucket
      reads this
    {
      Bucket(tokens, lastUpdate)
    }

    /** The object invariant: a valid configuration and a token count
        between zero and the capacity. */
    ghost predicate Valid()
      reads this
    {
      ValidConfig(Cfg()) && InBounds(Cfg(), State())
    }

    /** A full bucket, stamped with the clock reading at construction. */
    constructor (now: real, maxCapacity: real := 1.0, rate: real := 1.0 / 60.0)
      requires rate > 0.0 && maxCapacity >= 1.0
      ensures Valid()
      ensures this.maxCapacity == maxCapacity && this.rate == rate
      ensures tokens == maxCapacity && lastUpdate == now
    {
      this.rate := rate;
      this.maxCapacity := maxCapacity;
      tokens := maxCapacity;
      lastUpdate := now;
    }

    /** Lazy refill at the clock reading `now`: add the tokens earned since
        the last update, capped at the capacity, and stamp the time. */
    method UpdateTokenCount(now: real)
      requires Valid()
      requires lastUpdate <= now
      modifies this
      ensures Valid()
      ensures State() == Refill(Cfg(), old(State()), now)
      ensures tokens == Min(old(tokens) + (now - old(lastUpdate)) * rate, maxCapacity)
      ensures old(tokens) <= tokens <= maxCapacity
      ensures old(lastUpdate) <= lastUpdate == now
    {
      var timeElapsed := now - lastUpdate;
      var newTokens := timeElapsed * rate;
      tokens := Min(newTokens + tokens, maxCapacity);
      lastUpdate := now;
      RefillNeverDecreases(Cfg(), old(State()), now);
    }

    /** How long the caller sleeps before the next token is due: the token
        deficit over the rate when there is a deficit, otherwise nothing. */
    method WaitForNextToken() returns (waitTime: real)
      requires rate > 0.0
      ensures waitTime == WaitTime(Cfg(), tokens)
      ensures tokens < 1.0 ==> 0.0 < waitTime && tokens + waitTime * rate == 1.0
      ensures tokens >= 1.0 ==> waitTime == 0.0
    {
      var tokenDeficit := 1.0 - tokens;
      if tokenDeficit > 0.0 {
        waitTime := tokenDeficit / rate;
      } else {
        waitTime := 0.0;
      }
    }

    /** One admission. `now` is the clock reading on entry and `woke` the
        reading after the sleep, which is at least the wait time later.
        Refill; if short of a token, sleep and refill again; then debit one
        token. `waited` tells whether the caller slept, and for how long. */
    method Acquire(now: real, woke: real) returns (waited: bool, waitTime: real)
      requires Valid()
      requires WellTimed(Cfg(), State(), Call(now, woke))
      modifies this
      ensures Valid()
      ensures State() == Acquired(Cfg(), old(State()), Call(now, woke))
      ensures waited == MustWait(Cfg(), old(State()), now)
      ensures waitTime == WaitTime(Cfg(), Refill(Cfg(), old(State()), now).tokens)
      ensures waited <==> waitTime > 0.0
      ensures tokens <= maxCapacity - 1.0
      ensures old(lastUpdate) <= lastUpdate
    {
      ghost var before := State();
      UpdateTokenCount(now);
      waited := tokens < 1.0;
      waitTime := 0.0;
      if waited {
        waitTime := WaitForNextToken();
        UpdateTokenCount(woke);
      }
      tokens := tokens - 1.0;
      AcquireKeepsBounds(Cfg(), before, Call(now, woke));
    }
  }
}
