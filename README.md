# TokenBucket in Dafny

A model of `TokenBucket`, a lazily refilled token-bucket rate limiter. A bucket
holds at most `capacity` tokens. It is credited `tokensPerInterval` tokens for
every whole `replenishingInterval` that has elapsed. Callers drain it with
`consume` (blocking) or `tryConsume` (blocking until a deadline). No timer
thread runs: every read of `tokenCount` first performs a replenishing pass.
While a consumer waits, it nudges a pass on another thread and re-checks
about every 0.2 s.

The model has two modules:

- `BucketSpec` (BucketSpec.dfy) is the bucket as a pure state machine.
  - `Config` holds the three fixed parameters.
  - `State` holds the token count and the time of the last credit.
  - `Replenished` is one replenishing pass.
  - `WaitRun` is one consume attempt. Its waiter goes through a given list
    of turns (`Wake`). Each turn has a reading for the deadline check and a
    later reading at which the nudged pass runs.
  - After construction, the state changes only through two `Event`s: a
    replenishing pass (`Tick`) and an atomic check-then-deduct (`Deduct`).
    `Run` folds a history of events. `Granted` counts the tokens handed out
    along it.
  - The lemmas bound what any history can hand out. This is the rate limit
    the bucket exists for.
- `TokenBuckets` (TokenBucket.dfy) is the `TokenBucket` class.
  - The three parameters are constants. `tokenCount` and `lastReplenished`
    are fields that the methods overwrite.
  - Each method's postcondition ties the new field values to the pure
    functions of the old ones.
  - Three client methods replay the repository's tests `testReplenishing`,
    `testInitialTokens` and `testCapacity` against the contracts alone.

Time is an integer clock reading, for example milliseconds. The interval is a
positive integer. The Swift implementation's `floor(elapsed / interval)` on doubles is
integer division on these non-negative values. Each operation receives the
clock reading it would take from `Date()`. The waiting loop receives its
successive turns as a sequence of reading pairs.

Points where the Swift code behaves in a way that is easy to misread:

- The initial count is `min(capacity, initialTokenCount)`. It is not clamped
  at 0, so a negative initial count stays negative.
- Only `count <= capacity` is checked before consuming. A negative `count` is
  accepted and raises the count. The bucket invariant is therefore proved
  under the caller preconditions `0 <= capacity`, `0 <= initialTokenCount`,
  `0 <= tokensPerInterval` and `0 <= count`.
- The elapsed time is an absolute value. A clock reading earlier than the
  last credit therefore also earns credit. The rate-limit lemmas assume
  clock readings that never go back (`Chronological`).
- A credit moves the last-credit time to the observation time, not to the
  end of the last whole interval. The unused part of an interval is lost, so
  how often the bucket is observed changes how many tokens it earns
  (`PollingCanLoseCredit`). Observing more often never earns more
  (`PollingNeverGainsTokens`).
- The waiting loop never replenishes the bucket itself. It checks the count
  and the deadline, and the pass it nudged gets the lock only once the
  waiter sleeps. The model gives each turn a check reading and a separate
  pass reading. A pass that credits after the deadline reading still lets
  the waiter succeed, because the woken waiter tests the tokens before the
  deadline (`LateCreditSucceeds`). The deadline test is strict
  (`deadline < now`).

## Model

| member | source | states |
|---|---|---|
| `TokenBuckets.TokenBucket.constructor` | TokenBucket/TokenBucket.swift:24-33 | needs a positive interval; stores the parameters; holds `min(capacity, initialTokenCount)` tokens, so never more than the capacity; last credit is the construction time; satisfies the bucket invariant when the capacity and initial count are non-negative |
| `TokenBuckets.TokenBucket.Replenish` | TokenBucket/TokenBucket.swift:53-63 | the fields after the pass are `Replenished` of the fields before (the `Tick` step of the state machine), with the parameters unchanged |
| `TokenBuckets.TokenBucket.Observe` | TokenBucket/TokenBucket.swift:18-21 | the `tokenCount` getter performs a replenishing pass and returns the count it leaves |
| `TokenBuckets.TokenBucket.TryConsume` | TokenBucket/TokenBucket.swift:43-49 | needs `count <= capacity`; returns the outcome of `WaitRun`; leaves the state that the attempt's events lead to; keeps `0 <= tokenCount <= capacity` for non-negative rates and counts |
| `TokenBuckets.TokenBucket.Consume` | TokenBucket/TokenBucket.swift:35-41 | needs `count <= capacity`; is an attempt whose deadline never passes, so it never times out |
| `TokenBuckets.TokenBucket.Wait` | TokenBucket/TokenBucket.swift:65-81 | the loop `while tokenCount < count { deadline check at the turn's check reading; sleep while the nudged pass runs at its pass reading }` followed by the deduction yields exactly the outcome and state of `WaitRun` |
| `BucketSpec.Replenished` | TokenBucket/TokenBucket.swift:55-59 | at most one interval elapsed (an exact interval included): nothing changes; more than one: the last credit moves to `now`, and the count becomes the old count plus one batch per whole elapsed interval, or the capacity if that is smaller; the count never drops below the old count and never exceeds the capacity (non-negative rate); the bucket invariant is kept |
| `BucketSpec.ObserveIdempotent` | TokenBucket/TokenBucket.swift:18-21 | two reads at the same clock reading see the same state, because the first pass restarts the clock |
| `BucketSpec.PollingNeverGainsTokens` | TokenBucket/TokenBucket.swift:55-59 | an extra pass at an intermediate time never leaves more tokens than a single later pass |
| `BucketSpec.PollingCanLoseCredit` | TokenBucket/TokenBucket.swift:57-59 | with interval 10, an empty bucket observed at 15 and 25 holds 1 token; observed only at 25 it holds 2 |
| `BucketSpec.RunPreservesBounds` | TokenBucket/TokenBucket.swift:58-79 | along any history the count stays non-negative; it stays at most the capacity when every consumer asks for a non-negative amount |
| `BucketSpec.RunCredits` | TokenBucket/TokenBucket.swift:55-59 | along a history with clock readings that never go back, tokens handed out plus tokens held is at most the starting count plus one batch per whole interval up to the last credit; the last credit never moves back |
| `BucketSpec.Throughput` | TokenBucket/TokenBucket.swift:53-81 | the rate limit: up to a horizon, consumers receive at most `capacity + tokensPerInterval * ((horizon - start) / interval)` tokens, with integer division |
| `BucketSpec.WaitRun` | TokenBucket/TokenBucket.swift:65-81 | with enough tokens up front it deducts `count` at once; if the deadline has passed at the first turn's check it gives up with the bucket untouched; success never leaves a negative count, and any other outcome leaves fewer than `count`; with no deadline it never gives up |
| `BucketSpec.WaitRunEvents` | TokenBucket/TokenBucket.swift:65-81 | success exactly when the last event deducts `count`; every other event is the nudged pass of one turn, in order, at its pass reading, after a check that had not passed the deadline; giving up happens at the first check past the deadline; still waiting means every turn was spent; the last credit moves only to pass readings |
| `BucketSpec.LateCreditSucceeds` | TokenBucket/TokenBucket.swift:70-79 | with interval 500 and deadline 500, a check at 499 and a pass at 501 credit one token, and the attempt succeeds although the pass ran after the deadline reading |
| `BucketSpec.AttemptIsRun` | TokenBucket/TokenBucket.swift:70-80 | the state an attempt leaves is the run of its events; on success it hands out exactly `count` tokens, otherwise none |
| `BucketSpec.BoundsAfterAttempt` | TokenBucket/TokenBucket.swift:79 | an attempt for a non-negative count keeps `0 <= tokenCount <= capacity` |
| `TokenBuckets.ReplenishingScenario` | TokenBucketTests/TokenBucketTests.swift:14-24 | an empty bucket with interval 500 reads 0; an attempt with deadline 10 gives up at 200; once its nudged pass has run, an attempt at 810 with deadline 910 succeeds and leaves 0 tokens |
| `TokenBuckets.InitialTokensScenario` | TokenBucketTests/TokenBucketTests.swift:26-33 | buckets built with initial counts 0 and 7 under capacity 10 read 0 and 7 |
| `TokenBuckets.CapacityScenario` | TokenBucketTests/TokenBucketTests.swift:35-43 | 7 tokens per interval of 200, read three intervals later, gives the capacity 10, and reading again at once still gives 10 |

## Left out

- Locking, `NSCondition` signal and wait, and the 0.2 s polling timeout. The model is single-threaded. Other threads that replenish or consume while a waiter sleeps are not modelled.
- The `DispatchQueue` self-nudge. It becomes one replenishing pass per turn, at the turn's pass reading. A pass that is delayed past the sleep it was nudged for, or two passes in one sleep, are not modelled separately; a delayed pass is a turn whose pass reading credits nothing. The pass nudged by an attempt that then times out still runs after `tryConsume` returns; a caller models it by calling `Replenish`.
- `Date()`, `Date.distantFuture` and `TimeInterval` doubles. Clock readings are integer parameters, and the distant future is `Never`.
- TokenBuckets.TokenBucket.Consume: the Swift implementation blocks until it succeeds. The model takes a finite list of turns and may end in `Waiting`. Termination and progress over time are not claimed.
- Swift's 64-bit `Int`, which traps on overflow in `_tokenCount + ellapsedIntervals * tokensPerInterval`, and the trap of `Int(...)` on a huge double. Integers are unbounded.
- `fatalError` for a non-positive interval or `count > capacity`. These appear only as preconditions.
- The default `initialTokenCount = 0`. The constructor takes the initial count explicitly.
- The timing test `testConcurrency` (20 threads, about 0.3 s spacing). It is a wall-clock claim.
