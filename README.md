# Token-bucket rate limiter of the Cloud SQL Python connector

This project models `AsyncRateLimiter`, the asyncio rate limiter of the Cloud
SQL Python connector, and proves what its token-bucket algorithm promises.
The limiter holds a token count, capped at `max_capacity`, and the clock
reading of its last recomputation. Tokens are refilled lazily at `rate` per
second whenever a caller arrives. `acquire` refills, and if fewer than one
token is left it sleeps for the deficit over the rate and refills again;
then it debits exactly one token.

The model has two modules.

- `TokenBucket` (`token_bucket.dfy`) states the algorithm on values.
  - `Config` holds the rate and the capacity; `Bucket` holds the token count
    and the last update.
  - `Refill` is the lazy refill and `WaitTime` the wait rule.
  - `Acquired` is one whole acquire. A `Call` carries the clock reading on
    entry (`now`) and the reading after the sleep (`woke`). `WellTimed` says
    that the sleep lasted at least the wait time.
  - `Run` folds `Acquired` over a sequence of calls, and `RunWellTimed` says
    that every call of the sequence is well-timed.
  - `Potential` is the token count less every token the clock has earned up
    to the last update. Each admission lowers it by at least one, and this
    yields the token-bucket conformance bound. The bound holds over the whole
    run and over any window of consecutive calls in it.
- `RateLimiter` (`rate_limiter.dfy`) holds the class `AsyncRateLimiter`. Its
  fields are the mutable `tokens` and `lastUpdate`, and `rate` and
  `maxCapacity` fixed at construction. Each method is proved against the
  functions of `TokenBucket`: its `ensures` equates the new state
  (`State()`) with the matching function of the old state. `Valid()` is the
  object invariant, `0 <= tokens <= maxCapacity` with `rate > 0` and
  `maxCapacity >= 1`, and every method keeps it.

The event loop's clock is not called. The model takes its readings as
parameters and requires them to be non-decreasing. The sleep is not
performed. Instead the reading taken after it must be at least the wait time
later than the reading before it. Each `acquire` runs as one sequential
method, which is what the lock in the source ensures.

## Model

| member | source | states |
|---|---|---|
| `RateLimiter.AsyncRateLimiter.constructor` | google/cloud/sql/connector/rate_limiter.py:49-61 | Given `rate > 0` and `max_capacity >= 1`, the bucket starts full: `tokens == maxCapacity`, `lastUpdate` is the clock reading at construction, and the invariant holds. The defaults are capacity 1 and rate 1/60. |
| `RateLimiter.AsyncRateLimiter.UpdateTokenCount` | google/cloud/sql/connector/rate_limiter.py:63-74 | The new state is `Refill` of the old: `tokens == min(old tokens + elapsed * rate, maxCapacity)` and `lastUpdate == now`. It keeps the invariant. Tokens never decrease and never exceed the capacity. The last update never moves back. Rate and capacity are constants. |
| `RateLimiter.AsyncRateLimiter.WaitForNextToken` | google/cloud/sql/connector/rate_limiter.py:76-83 | Returns how long the caller sleeps. Below one token it is positive and `tokens + waitTime * rate == 1`. Otherwise it is zero. It changes nothing. |
| `RateLimiter.AsyncRateLimiter.Acquire` | google/cloud/sql/connector/rate_limiter.py:97-107 | The new state is `Acquired` of the old state. It waits exactly when the first refill leaves fewer than one token, and then for `WaitTime` of that count. Afterwards `0 <= tokens <= maxCapacity - 1` and the last update has not moved back. |
| `TokenBucket.Refill` | google/cloud/sql/connector/rate_limiter.py:70-74 | The result is stamped `now`. Its token count is at most the capacity and at most the old count plus `elapsed * rate`, and it equals one of the two, so it is their minimum. |
| `TokenBucket.WaitTime` | google/cloud/sql/connector/rate_limiter.py:80-82 | The wait is never negative. Below one token it is positive and `tokens + wait * rate == 1`, so exactly the deficit is earned. With a token or more it is zero. |
| `TokenBucket.MustWait` | google/cloud/sql/connector/rate_limiter.py:104 | The branch test of acquire: after the refill at the entry reading, fewer than one token is left. The `waited` result of `Acquire` equals it. |
| `TokenBucket.WellTimed` | google/cloud/sql/connector/rate_limiter.py:83 | How long the sleep lasts: the entry reading is not before the last update, and the waking reading is at least `WaitTime` of the refilled count later. `Acquire` and every run require it. |
| `TokenBucket.Acquired` | google/cloud/sql/connector/rate_limiter.py:102-107 | The value model of one acquire: refill at entry, refill again at the waking reading when short, then debit one. It has no contract of its own. `NoWaitDebitsOne` and `WaitRefillsAgain` state its two branches, and `Acquire` is proved equal to it. |
| `TokenBucket.RefillNeverDecreases` | google/cloud/sql/connector/rate_limiter.py:73 | With a non-negative rate, a count within the capacity and a clock that has not gone back, a refill never lowers the token count. |
| `TokenBucket.RefillsAdvanceLastUpdate` | google/cloud/sql/connector/rate_limiter.py:70-74 | Refills at non-decreasing clock readings move `lastUpdate` forward, never back. |
| `TokenBucket.SleepEarnsToken` | google/cloud/sql/connector/rate_limiter.py:104-106 | When the first refill leaves less than one token and the waking reading is at least the wait time later, the second refill yields at least one token. This needs a capacity of at least 1. |
| `TokenBucket.NoWaitDebitsOne` | google/cloud/sql/connector/rate_limiter.py:103-107 | With at least one token after the first refill there is no sleep. The result is the refilled count minus exactly 1, stamped with the entry reading. |
| `TokenBucket.WaitRefillsAgain` | google/cloud/sql/connector/rate_limiter.py:104-107 | With fewer than one token after the first refill, acquire refills again at the waking reading and then debits exactly 1. |
| `TokenBucket.AcquireKeepsBounds` | google/cloud/sql/connector/rate_limiter.py:97-107 | One well-timed acquire on a bucket within `[0, capacity]` leaves `0 <= tokens <= capacity - 1`, and its last update is not earlier. |
| `TokenBucket.RefillLowersPotential` | google/cloud/sql/connector/rate_limiter.py:73 | A refill never raises the potential (tokens less `lastUpdate * rate`). The capping at the capacity can only discard tokens. |
| `TokenBucket.AcquireLowersPotential` | google/cloud/sql/connector/rate_limiter.py:102-107 | One acquire, whether or not it sleeps, lowers the potential by at least the one token it debits. |
| `TokenBucket.RunKeepsBounds` | google/cloud/sql/connector/rate_limiter.py:97-107 | Capacity bound: after any well-timed sequence of acquires from a bucket within its bounds, the token count stays in `[0, capacity]`. The last update never moves back. |
| `TokenBucket.RunLowersPotential` | google/cloud/sql/connector/rate_limiter.py:97-107 | A sequence of `n` acquires lowers the potential by at least `n`. |
| `TokenBucket.AdmissionsBounded` | google/cloud/sql/connector/rate_limiter.py:28-31 | Token-bucket conformance for a whole run: a well-timed sequence of acquires, ending in the returned state `e`, admits at most `capacity + rate * (e.lastUpdate - start)` calls. Here `start` is the starting state's last update. |
| `TokenBucket.RefillCompose` | google/cloud/sql/connector/rate_limiter.py:70-74 | Lazy refills compose. For a bucket within its capacity, refilling at `t1` and then at `t2` gives the same bucket as one refill at `t2`. So when callers arrive does not change the token count. |
| `TokenBucket.RefillBeforeRun` | google/cloud/sql/connector/rate_limiter.py:102-107 | Refilling at the first call's entry reading leaves the run unchanged. The run ends in the same state, stays well-timed, and starts within bounds, stamped with that reading. |
| `TokenBucket.RunSplit` | google/cloud/sql/connector/rate_limiter.py:97-107 | A run of acquires is its first `i` calls followed by the rest. A well-timed run splits into two well-timed runs. |
| `TokenBucket.WindowStartsInBounds` | google/cloud/sql/connector/rate_limiter.py:97-107 | Calls `i` to `j - 1` of a well-timed run are a well-timed run of their own. It starts from the state the first `i` calls leave, which is within bounds. |
| `TokenBucket.AdmissionsInWindow` | google/cloud/sql/connector/rate_limiter.py:28-31 | Token-bucket conformance over any window of a well-timed run. Calls `i` to `j - 1` number at most `capacity + rate * (e.lastUpdate - s.lastUpdate)`. Here `s` is the state call `i`'s admission leaves and `e` the state after call `j - 1`, so the window runs from the first admission to the last. Call `i` is admitted no earlier than its entry. |
| `TokenBucket.BurstFrom` | google/cloud/sql/connector/rate_limiter.py:102-107 | On a bucket stamped at `t` that holds `m + k` tokens, `k` calls at `t` leave exactly `m` tokens, stamped `t`. The sequence is well-timed with no time between entry and waking, so none of the calls sleeps. |
| `TokenBucket.BurstAdmission` | google/cloud/sql/connector/rate_limiter.py:55-107 | Burst: from a fresh bucket of integral capacity `N` and with no clock advance, each of the first `N` acquires is admitted without the wait branch, leaving `N - k` tokens. The next acquire takes the wait branch and waits exactly `1 / rate`. |
| `TokenBucket.OneTokenPerSecond` | google/cloud/sql/connector/rate_limiter.py:97-107 | With capacity 1 and rate 1, starting full at time 0: a call at 0 is admitted at once. A second call at 0 waits exactly 1 and, waking at 1, is admitted. A call at 5 finds the idle refill capped at one token and is admitted at once. |
| `TokenBucket.BurstOfThree` | google/cloud/sql/connector/rate_limiter.py:97-107 | With capacity 3 and rate 1, starting full at time 0: three calls at 0 are admitted without waiting and empty the bucket. A fourth must wait. |

## Left out

- The lock and the thread pool (`threading.Lock`, `ThreadPoolExecutor`, `async_lock`, rate_limiter.py:58, 61, 85-95) are not modelled. Concurrent callers, their wake order and fairness are not modelled either. Each `Acquire` is one atomic method, which is what the lock guarantees.
- Looking up or creating the event loop (rate_limiter.py:57, 88-90) is left out. The clock `loop.time()` becomes the `now` and `woke` parameters. They are required not to go back, as a monotonic clock guarantees.
- `asyncio.sleep` (rate_limiter.py:83) is not a suspension here. The model only requires that the reading after it is at least the wait time later. Cancellation of a sleeping caller is not modelled.
- Floating-point rounding is not modelled: tokens, times and the rate are exact `real`s. With floats, the second refill could in principle fall a rounding error short of one token. The model does not capture that.
- `WellTimed` assumes the reading after the sleep is at least the wait time later. The asyncio event loop may run a timer up to its clock resolution early: `_run_once` fires handles due before `time() + _clock_resolution`. So the waking reading can fall slightly short of `now + waitTime`, and the second refill slightly short of one token. The debit can then leave the count a little below zero. The model excludes such early wake-ups.
- The source does not validate its parameters, so `rate > 0` and `max_capacity >= 1` are constructor preconditions. No configuration error is modelled. The parameter type is `int` in the source, but the model allows any real capacity of at least 1. `BurstAdmission` takes an integral one.
- `rate` and `max_capacity` are public attributes in Python, and a caller could reassign them. The core never does, so they are constants in the model.
- RateLimiter.AsyncRateLimiter.UpdateTokenCount: requires `lastUpdate <= now` and the object invariant. The source does not check either. The model relies on the event loop's clock being monotonic, and on the invariant that the constructor and `Acquire` keep.
- The long-run average admission rate approaching `rate` from below is a liveness property about the scheduler. It is not modelled. Only the upper bounds (`AdmissionsBounded`, `AdmissionsInWindow`) are proved.
- tests/unit/test_refresh_utils.py tests HTTP helpers that are not part of this model.
