/** The token-bucket arithmetic of the asynchronous rate limiter, stated on
    values: the limiter's configuration, the two numbers it keeps (the token
    count and the time of the last recomputation), the lazy refill, the wait
    rule and one whole acquire. The class in module RateLimiter is proved
    against these functions; the lemmas below state what the algorithm
    promises about them, for one call and for a run of calls. */
module TokenBucket {

  /** The limiter's fixed parameters: tokens added per unit of time, and the
      most tokens the bucket holds. */
  datatype Config = Config(rate: real, maxCapacity: real)

  /** The parameters the limiter is meant to be built with. */
  predicate ValidConfig(c: Config)
  {
    c.rate > 0.0 && c.maxCapacity >= 1.0
  }

  /** The mutable part of the limiter: the token count and the clock reading
      at which it was last recomputed. */
  datatype Bucket = Bucket(tokens: real, lastUpdate: real)

  /** The bounds every observed state keeps. */
  predicate InBounds(c: Config, b: Bucket)
  {
    0.0 <= b.tokens <= c.maxCapacity
  }

  /** One call of acquire: the clock reading taken on entry, and the reading
      taken after the sleep (used only when the bucket was short). */
  datatype Call = Call(now: real, woke: real)

  /** Lazy refill: add the tokens earned since the last update, capped at the
      capacity, and stamp the time. */
  function Refill(c: Config, b: Bucket, now: real): (r: Bucket)
    ensures r.lastUpdate == now
    ensures r.tokens <= c.maxCapacity
    ensures r.tokens <= b.tokens + (now - b.lastUpdate) * c.rate
    ensures r.tokens == c.maxCapacity || r.tokens == b.tokens + (now - b.lastUpdate) * c.rate
  {
    var newTokens := (now - b.lastUpdate) * c.rate;
    Bucket(Min(newTokens + b.tokens, c.maxCapacity), now)
  }

  function Min(x: real, y: real): real
  {
    if y < x then y else x
  }

  /** How long a caller holding `tokens` sleeps before the next token is
      due: the deficit divided by the rate, or nothing without a deficit. */
  function WaitTime(c: Config, tokens: real): (w: real)
    requires c.rate > 0.0
    ensures w >= 0.0
    ensures tokens < 1.0 ==> w > 0.0 && tokens + w * c.rate == 1.0
    ensures tokens >= 1.0 ==> w == 0.0
  {
    var deficit := 1.0 - tokens;
    if deficit > 0.0 then deficit / c.rate else 0.0
  }

  /** Whether acquire, having refilled at `now`, must sleep. */
  predicate MustWait(c: Config, b: Bucket, now: real)
  {
    Refill(c, b, now).tokens < 1.0
  }

  /** The clock readings of one acquire are well-timed: the entry reading is
      not before the last update, and the reading after the sleep is at least
      the wait time later. */
  predicate WellTimed(c: Config, b: Bucket, call: Call)
    requires c.rate > 0.0
  {
    b.lastUpdate <= call.now &&
    call.now + WaitTime(c, Refill(c, b, call.now).tokens) <= call.woke
  }

  /** The state after one acquire: refill, refill again after the sleep if
      the bucket was short, then debit one token. */
  function Acquired(c: Config, b: Bucket, call: Call): Bucket
  {
    var first := Refill(c, b, call.now);
    var last := if first.tokens < 1.0 then Refill(c, first, call.woke) else first;
    Bucket(last.tokens - 1.0, last.lastUpdate)
  }

  /** Refill never loses tokens from a bucket within its capacity when the
      clock has not gone backwards. */
  lemma RefillNeverDecreases(c: Config, b: Bucket, now: real)
    requires c.rate >= 0.0 && b.tokens <= c.maxCapacity && b.lastUpdate <= now
    ensures b.tokens <= Refill(c, b, now).tokens
  {
    assert 0.0 <= (now - b.lastUpdate) * c.rate by { NonNegativeProduct(now - b.lastUpdate, c.rate); }
  }

  lemma NonNegativeProduct(x: real, y: real)
    requires 0.0 <= x && 0.0 <= y
    ensures 0.0 <= x * y
  {
  }

  /** The tokens earned over a span are those earned over its two parts. */
  lemma SplitElapsed(t0: real, t1: real, t2: real, rate: real)
    ensures (t2 - t0) * rate == (t1 - t0) * rate + (t2 - t1) * rate
  {
  }

  lemma ProductMonotone(x: real, y: real, z: real)
    requires x <= y && 0.0 <= z
    ensures x * z <= y * z
  {
    NonNegativeProduct(y - x, z);
  }

  /** Refills at two non-decreasing clock readings move the last update
      forward, never back. */
  lemma RefillsAdvanceLastUpdate(c: Config, b: Bucket, now1: real, now2: real)
    requires b.lastUpdate <= now1 <= now2
    ensures b.lastUpdate <= Refill(c, b, now1).lastUpdate <= Refill(c, Refill(c, b, now1), now2).lastUpdate
  {
  }

  /** A well-timed sleep earns the missing token: the refill after waking
      yields at least one token. */
  lemma {:induction false} SleepEarnsToken(c: Config, b: Bucket, call: Call)
    requires ValidConfig(c) && WellTimed(c, b, call) && MustWait(c, b, call.now)
    ensures Refill(c, Refill(c, b, call.now), call.woke).tokens >= 1.0
  {
    var first := Refill(c, b, call.now);
    var w := WaitTime(c, first.tokens);
    ProductMonotone(w, call.woke - call.now, c.rate);
    assert first.tokens + (call.woke - first.lastUpdate) * c.rate >= 1.0;
  }

  /** With at least one token after the first refill there is no wait: the
      result is that refilled count less exactly one token, stamped with the
      entry reading. */
  lemma NoWaitDebitsOne(c: Config, b: Bucket, call: Call)
    requires !MustWait(c, b, call.now)
    ensures Acquired(c, b, call) == Bucket(Refill(c, b, call.now).tokens - 1.0, call.now)
  {
  }

  /** A short bucket sleeps and refills again at the waking reading, then
      debits exactly one token. */
  lemma WaitRefillsAgain(c: Config, b: Bucket, call: Call)
    requires MustWait(c, b, call.now)
    ensures Acquired(c, b, call) == Bucket(Refill(c, Refill(c, b, call.now), call.woke).tokens - 1.0, call.woke)
  {
  }

  /** One well-timed acquire on a bucket within its bounds leaves between
      zero and capacity-less-one tokens, and does not move the clock back. */
  lemma {:induction false} AcquireKeepsBounds(c: Config, b: Bucket, call: Call)
    requires ValidConfig(c) && InBounds(c, b) && WellTimed(c, b, call)
    ensures var a := Acquired(c, b, call);
      0.0 <= a.tokens <= c.maxCapacity - 1.0 && b.lastUpdate <= a.lastUpdate
  {
    RefillNeverDecreases(c, b, call.now);
    if MustWait(c, b, call.now) {
      SleepEarnsToken(c, b, call);
      assert WaitTime(c, Refill(c, b, call.now).tokens) >= 0.0;
    }
  }

  /** The bucket's potential: its tokens less every token the clock has
      earned up to its last update. A refill can only lower it (the cap
      discards tokens) and a debit lowers it by one. */
  function Potential(c: Config, b: Bucket): real
  {
    b.tokens - b.lastUpdate * c.rate
  }

  /** A refill never raises the potential. */
  lemma RefillLowersPotential(c: Config, b: Bucket, now: real)
    ensures Potential(c, Refill(c, b, now)) <= Potential(c, b)
  {
    SplitElapsed(0.0, b.lastUpdate, now, c.rate);
  }

  /** One acquire lowers the potential by at least the token it debits. */
  lemma {:induction false} AcquireLowersPotential(c: Config, b: Bucket, call: Call)
    ensures Potential(c, Acquired(c, b, call)) <= Potential(c, b) - 1.0
  {
    var first := Refill(c, b, call.now);
    RefillLowersPotential(c, b, call.now);
    if first.tokens < 1.0 {
      RefillLowersPotential(c, first, call.woke);
    }
  }

  /** The state after a sequence of acquire calls, in order. */
  function Run(c: Config, b: Bucket, calls: seq<Call>): Bucket
    decreases |calls|
  {
    if calls == [] then b else Run(c, Acquired(c, b, calls[0]), calls[1..])
  }

  /** Every call of a run is well-timed against the state it starts from. */
  predicate RunWellTimed(c: Config, b: Bucket, calls: seq<Call>)
    requires c.rate > 0.0
    decreases |calls|
  {
    calls == [] ||
    (WellTimed(c, b, calls[0]) && RunWellTimed(c, Acquired(c, b, calls[0]), calls[1..]))
  }

  /** Capacity bound over any run: a bucket that starts within its bounds
      stays within them after every well-timed sequence of calls, and its
      last update never moves back. */
  lemma {:induction false} RunKeepsBounds(c: Config, b: Bucket, calls: seq<Call>)
    requires ValidConfig(c) && InBounds(c, b) && RunWellTimed(c, b, calls)
    ensures InBounds(c, Run(c, b, calls))
    ensures b.lastUpdate <= Run(c, b, calls).lastUpdate
    decreases |calls|
  {
    if calls != [] {
      AcquireKeepsBounds(c, b, calls[0]);
      RunKeepsBounds(c, Acquired(c, b, calls[0]), calls[1..]);
    }
  }

  /** Token-bucket conformance: every admitted call of a run lowers the
      potential by at least one. */
  lemma {:induction false} RunLowersPotential(c: Config, b: Bucket, calls: seq<Call>)
    ensures Potential(c, Run(c, b, calls)) <= Potential(c, b) - |calls| as real
    decreases |calls|
  {
    if calls != [] {
      var a := Acquired(c, b, calls[0]);
      AcquireLowersPotential(c, b, calls[0]);
      RunLowersPotential(c, a, calls[1..]);
      assert |calls[1..]| as real == |calls| as real - 1.0;
    }
  }

  /** Token-bucket conformance as a count: a well-timed run from a bucket
      within its bounds, ending in `e`, admits at most the capacity plus the
      rate times the time the run spans. */
  lemma AdmissionsBounded(c: Config, b: Bucket, calls: seq<Call>) returns (e: Bucket)
    requires ValidConfig(c) && InBounds(c, b) && RunWellTimed(c, b, calls)
    ensures e == Run(c, b, calls)
    ensures |calls| as real <= c.maxCapacity + (e.lastUpdate - b.lastUpdate) * c.rate
  {
    e := Run(c, b, calls);
    assert 0.0 <= e.tokens && Potential(c, e) <= Potential(c, b) - |calls| as real by {
      RunKeepsBounds(c, b, calls);
      RunLowersPotential(c, b, calls);
    }
    PotentialBoundsCount(c, b, e, |calls| as real, b.lastUpdate);
  }

  /** A potential drop of `n` from a bucket within its capacity to one with
      no debt is paid for by the capacity and the tokens earned in between. */
  lemma PotentialBoundsCount(c: Config, b: Bucket, e: Bucket, n: real, from: real)
    requires b.tokens <= c.maxCapacity && 0.0 <= e.tokens && b.lastUpdate == from
    requires Potential(c, e) <= Potential(c, b) - n
    ensures n <= c.maxCapacity + (e.lastUpdate - from) * c.rate
  {
    SplitElapsed(0.0, from, e.lastUpdate, c.rate);
  }

  /** Lazy refill composes: for a bucket within its capacity, refilling at
      `t1` and again at `t2` is the same as refilling once at `t2`. Tokens do
      not depend on when the refills happen, so the bucket never drifts. */
  lemma RefillCompose(c: Config, b: Bucket, t1: real, t2: real)
    requires c.rate >= 0.0 && b.tokens <= c.maxCapacity && b.lastUpdate <= t1 <= t2
    ensures Refill(c, Refill(c, b, t1), t2) == Refill(c, b, t2)
  {
    SplitElapsed(b.lastUpdate, t1, t2, c.rate);
    NonNegativeProduct(t2 - t1, c.rate);
  }

  /** Refilling at the first call's entry reading changes nothing the run
      sees: the run ends in the same state, stays well-timed, and starts
      within bounds, now stamped with that entry reading. */
  lemma {:induction false} RefillBeforeRun(c: Config, b: Bucket, calls: seq<Call>)
    requires ValidConfig(c) && InBounds(c, b) && calls != [] && RunWellTimed(c, b, calls)
    ensures var b' := Refill(c, b, calls[0].now);
      InBounds(c, b') && b'.lastUpdate == calls[0].now &&
      RunWellTimed(c, b', calls) && Run(c, b', calls) == Run(c, b, calls)
  {
    var now := calls[0].now;
    var b' := Refill(c, b, now);
    RefillNeverDecreases(c, b, now);
    RefillCompose(c, b, now, now);
    assert Acquired(c, b', calls[0]) == Acquired(c, b, calls[0]);
  }

  /** A run is its first `i` calls followed by the rest, and a well-timed
      run splits into two well-timed runs. */
  lemma {:induction false} RunSplit(c: Config, b: Bucket, calls: seq<Call>, i: nat)
    requires c.rate > 0.0 && i <= |calls| && RunWellTimed(c, b, calls)
    ensures Run(c, b, calls) == Run(c, Run(c, b, calls[..i]), calls[i..])
    ensures RunWellTimed(c, b, calls[..i]) && RunWellTimed(c, Run(c, b, calls[..i]), calls[i..])
    decreases i
  {
    if i == 0 {
      assert calls[..0] == [] && calls[0..] == calls;
    } else {
      var a := Acquired(c, b, calls[0]);
      RunSplit(c, a, calls[1..], i - 1);
      assert calls[..i][0] == calls[0];
      assert calls[..i][1..] == calls[1..][..i - 1];
      assert calls[1..][i - 1..] == calls[i..];
    }
  }

  /** Token-bucket conformance over any window: in a well-timed run from a
      bucket within its bounds, the calls `i` to `j - 1` number at most the
      capacity plus the rate times the time from call `i`'s admission (the
      state `s` it leaves) to call `j - 1`'s admission (the state `e`). */
  lemma AdmissionsInWindow(c: Config, b: Bucket, calls: seq<Call>, i: nat, j: nat) returns (s: Bucket, e: Bucket)
    requires ValidConfig(c) && InBounds(c, b) && RunWellTimed(c, b, calls) && i < j <= |calls|
    ensures s == Acquired(c, Run(c, b, calls[..i]), calls[i])
    ensures e == Run(c, Run(c, b, calls[..i]), calls[i..j])
    ensures calls[i].now <= s.lastUpdate
    ensures (j - i) as real <= c.maxCapacity + (e.lastUpdate - s.lastUpdate) * c.rate
  {
    var mid := Run(c, b, calls[..i]);
    var window := calls[i..j];
    WindowStartsInBounds(c, b, calls, i, j);
    s := Acquired(c, mid, calls[i]);
    e := Run(c, mid, window);
    assert s.tokens <= c.maxCapacity - 1.0 && 0.0 <= e.tokens &&
      Potential(c, e) <= Potential(c, s) - ((j - i) as real - 1.0) by {
      assert window[0] == calls[i];
      AcquireKeepsBounds(c, mid, calls[i]);
      RunKeepsBounds(c, s, window[1..]);
      RunLowersPotential(c, s, window[1..]);
      assert |window[1..]| == j - i - 1;
    }
    FirstAdmissionBoundsCount(c, s, e, (j - i) as real);
  }

  /** A potential drop of `n - 1` from a bucket that has just debited a token
      to one with no debt: the `n` admissions, counting that debit, are paid
      for by the capacity and the tokens earned in between. */
  lemma FirstAdmissionBoundsCount(c: Config, a: Bucket, e: Bucket, n: real)
    requires a.tokens <= c.maxCapacity - 1.0 && 0.0 <= e.tokens
    requires Potential(c, e) <= Potential(c, a) - (n - 1.0)
    ensures n <= c.maxCapacity + (e.lastUpdate - a.lastUpdate) * c.rate
  {
    SplitElapsed(0.0, a.lastUpdate, e.lastUpdate, c.rate);
  }

  /** The calls `i` to `j - 1` of a well-timed run form a well-timed run of
      their own, from the state the first `i` calls leave, which is within
      bounds. */
  lemma WindowStartsInBounds(c: Config, b: Bucket, calls: seq<Call>, i: nat, j: nat)
    requires ValidConfig(c) && InBounds(c, b) && RunWellTimed(c, b, calls) && i < j <= |calls|
    ensures InBounds(c, Run(c, b, calls[..i])) && RunWellTimed(c, Run(c, b, calls[..i]), calls[i..j])
  {
    RunSplit(c, b, calls, j);
    RunSplit(c, b, calls[..j], i);
    assert calls[..j][..i] == calls[..i] && calls[..j][i..] == calls[i..j];
    RunKeepsBounds(c, b, calls[..i]);
  }

  /** `n` calls all made at the instant `t`, with no clock advance. */
  function Burst(n: nat, t: real): seq<Call>
  {
    seq(n, _ => Call(t, t))
  }

  /** Burst admission: from a full bucket of integral capacity `n`, stamped
      at `t`, each of the first `n` calls at `t` is admitted without waiting
      and leaves one token fewer; the next call must wait, for exactly one
      token's worth of time. */
  lemma {:induction false} BurstAdmission(c: Config, n: nat, t: real, k: nat)
    requires ValidConfig(c) && c.maxCapacity == n as real && k <= n
    ensures Run(c, Bucket(n as real, t), Burst(k, t)) == Bucket((n - k) as real, t)
    ensures RunWellTimed(c, Bucket(n as real, t), Burst(k, t))
    ensures k < n ==> !MustWait(c, Run(c, Bucket(n as real, t), Burst(k, t)), t)
    ensures k == n ==> MustWait(c, Run(c, Bucket(n as real, t), Burst(k, t)), t)
    ensures k == n ==> WaitTime(c, Refill(c, Run(c, Bucket(n as real, t), Burst(k, t)), t).tokens) == 1.0 / c.rate
  {
    BurstFrom(c, (n - k) as real, t, k);
  }

  /** `k` calls at `t` on a bucket stamped at `t` holding at least `k` tokens
      each take one token without waiting. */
  lemma {:induction false} BurstFrom(c: Config, m: real, t: real, k: nat)
    requires ValidConfig(c) && 0.0 <= m && m + k as real <= c.maxCapacity
    ensures Run(c, Bucket(m + k as real, t), Burst(k, t)) == Bucket(m, t)
    ensures RunWellTimed(c, Bucket(m + k as real, t), Burst(k, t))
    decreases k
  {
    if k > 0 {
      var b := Bucket(m + k as real, t);
      var calls := Burst(k, t);
      assert Refill(c, b, t).tokens == m + k as real;
      assert Acquired(c, b, calls[0]) == Bucket(m + (k - 1) as real, t);
      assert calls[1..] == Burst(k - 1, t);
      BurstFrom(c, m, t, k - 1);
    }
  }

  /** One token per second and a capacity of one, starting full at time 0:
      a call at time 0 is admitted at once; a second call at time 0 must
      wait one second and, waking at time 1, is admitted; a call at time 5
      is admitted at once, the idle tokens having been capped at one. */
  lemma OneTokenPerSecond(c: Config)
    requires c == Config(1.0, 1.0)
    ensures !MustWait(c, Bucket(1.0, 0.0), 0.0)
    ensures Acquired(c, Bucket(1.0, 0.0), Call(0.0, 0.0)) == Bucket(0.0, 0.0)
    ensures MustWait(c, Bucket(0.0, 0.0), 0.0)
    ensures WaitTime(c, Refill(c, Bucket(0.0, 0.0), 0.0).tokens) == 1.0
    ensures WellTimed(c, Bucket(0.0, 0.0), Call(0.0, 1.0))
    ensures Acquired(c, Bucket(0.0, 0.0), Call(0.0, 1.0)) == Bucket(0.0, 1.0)
    ensures Refill(c, Bucket(0.0, 1.0), 5.0) == Bucket(1.0, 5.0)
  {
    assert Refill(c, Bucket(0.0, 0.0), 0.0) == Bucket(0.0, 0.0);
    assert Refill(c, Bucket(0.0, 0.0), 1.0) == Bucket(1.0, 1.0);
  }

  /** A capacity of three at one token per second, starting full at time 0:
      three calls at time 0 are admitted at once; a fourth must wait. */
  lemma BurstOfThree(c: Config)
    requires c == Config(1.0, 3.0)
    ensures Run(c, Bucket(3.0, 0.0), Burst(3, 0.0)) == Bucket(0.0, 0.0)
    ensures forall k :: 0 <= k < 3 ==> !MustWait(c, Run(c, Bucket(3.0, 0.0), Burst(k, 0.0)), 0.0)
    ensures MustWait(c, Bucket(0.0, 0.0), 0.0)
  {
    forall k | 0 <= k < 3
      ensures !MustWait(c, Run(c, Bucket(3.0, 0.0), Burst(k, 0.0)), 0.0)
    {
      BurstAdmission(c, 3, 0.0, k);
    }
    BurstAdmission(c, 3, 0.0, 3);
  }
}
