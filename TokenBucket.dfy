/**
 * The token bucket object. Its three parameters are constants; the token
 * count and the time of the last credit are fields that the operations
 * overwrite in place. Every operation is handed the clock reading it would
 * have taken, and the consume attempt is handed the turns of its waiting
 * loop: for each, the reading of its deadline check and the reading at
 * which the pass it nudged runs.
 *
 * Each operation's effect is stated as a run of the events of `BucketSpec`
 * (a replenishing pass is a `Tick`, a successful consume ends in a
 * `Deduct`), so the bounds proved there for every run of events hold of
 * every sequence of calls on a bucket.
 */
module TokenBuckets {
  import opened BucketSpec

  class TokenBucket {
    const capacity: int
    const tokensPerInterval: int
    const replenishingInterval: Interval

    var tokenCount: int
    var lastReplenished: int

    function Parameters(): Config
    {
      Config(capacity, tokensPerInterval, replenishingInterval)
    }

    function Current(): State
      reads this
    {
      State(tokenCount, lastReplenished)
    }

    /**
     * A bucket holding the smaller of its capacity and the initial count,
     * whose last credit is the clock reading at construction. A non-positive
     * interval is a fatal configuration error.
     */
    constructor (capacity: int, tokensPerInterval: int, interval: int, initialTokenCount: int, now: int)
      requires interval > 0
      ensures this.capacity == capacity && this.tokensPerInterval == tokensPerInterval
      ensures replenishingInterval == interval
      ensures tokenCount == Min(capacity, initialTokenCount) && lastReplenished == now
      ensures tokenCount <= capacity && tokenCount <= initialTokenCount
      ensures 0 <= capacity && 0 <= initialTokenCount ==> Bounded(Parameters(), Current())
    {
      this.capacity := capacity;
      this.tokensPerInterval := tokensPerInterval;
      replenishingInterval := interval;
      tokenCount := Min(capacity, initialTokenCount);
      lastReplenished := now;
    }

    /**
     * The replenishing pass at clock reading `now`: whole intervals elapsed
     * since the last credit are credited, capped at the capacity, once more
     * than one interval has elapsed. It is also what the self-nudge of a
     * waiting consumer performs.
     */
    method Replenish(now: int)
      modifies this
      ensures Current() == Replenished(Parameters(), old(Current()), now)
    {
      var elapsed := if lastReplenished <= now then now - lastReplenished else lastReplenished - now;
      if elapsed > replenishingInterval {
        var intervals := elapsed / replenishingInterval;
        assert intervals * tokensPerInterval == Credit(Parameters(), Current(), now);
        tokenCount := Min(tokenCount + intervals * tokensPerInterval, capacity);
        lastReplenished := now;
      }
    }

    /** The token count getter: a replenishing pass, then the count. */
    method Observe(now: int) returns (count: int)
      modifies this
      ensures Current() == Replenished(Parameters(), old(Current()), now)
      ensures count == tokenCount
    {
      Replenish(now);
      count := tokenCount;
    }

    /**
     * Attempt to consume `count` tokens before `deadline`. Asking for more
     * than the capacity is a fatal usage error; otherwise this is the wait.
     */
    method TryConsume(count: int, deadline: Deadline, ticks: seq<Wake>) returns (outcome: Outcome)
      requires count <= capacity
      modifies this
      ensures var a := WaitRun(Parameters(), old(Current()), count, deadline, ticks);
              && outcome == a.outcome
              && Current() == a.after == Run(Parameters(), old(Current()), a.events)
      ensures old(Bounded(Parameters(), Current())) && 0 <= tokensPerInterval && 0 <= count
              ==> Bounded(Parameters(), Current())
    {
      ghost var start := Current();
      outcome := Wait(count, deadline, ticks);
      AttemptIsRun(Parameters(), start, count, deadline, ticks);
      if Bounded(Parameters(), start) && 0 <= tokensPerInterval && 0 <= count {
        BoundsAfterAttempt(Parameters(), start, count, deadline, ticks);
      }
    }

    /**
     * The waiting loop. While the tokens do not suffice the waiter, at the
     * check reading of each turn of `ticks`, gives up if the deadline has
     * passed and otherwise sleeps while the replenishing pass it nudged runs
     * at the turn's pass reading; once they suffice it deducts them.
     */
    method Wait(count: int, deadline: Deadline, ticks: seq<Wake>) returns (outcome: Outcome)
      modifies this
      ensures var a := WaitRun(Parameters(), old(Current()), count, deadline, ticks);
              outcome == a.outcome && Current() == a.after
    {
      ghost var a := WaitRun(Parameters(), Current(), count, deadline, ticks);
      var i := 0;
      while tokenCount < count
        invariant 0 <= i <= |ticks|
        invariant var rest := WaitRun(Parameters(), Current(), count, deadline, ticks[i..]);
                  a.outcome == rest.outcome && a.after == rest.after
        decreases |ticks| - i
      {
        if i == |ticks| {
          return Waiting;
        }
        if deadline.At? && deadline.time < ticks[i].check {
          return TimedOut;
        }
        // Asleep; the nudged pass takes the lock meanwhile.
        WaitRunWake(Parameters(), Current(), count, deadline, ticks, i);
        Replenish(ticks[i].pass);
        i := i + 1;
      }
      tokenCount := tokenCount - count;
      outcome := Consumed;
    }

    /** The blocking consume: an attempt whose deadline never passes. */
    method Consume(count: int, ticks: seq<Wake>) returns (outcome: Outcome)
      requires count <= capacity
      modifies this
      ensures var a := WaitRun(Parameters(), old(Current()), count, Never, ticks);
              outcome == a.outcome && Current() == a.after
      ensures outcome != TimedOut
      ensures old(Bounded(Parameters(), Current())) && 0 <= tokensPerInterval && 0 <= count
              ==> Bounded(Parameters(), Current())
    {
      outcome := TryConsume(count, Never, ticks);
    }
  }

  /**
   * The replenishing scenario: interval 500, one token per interval, starting
   * empty at 0. The first attempt gives up at its check at 200; its nudged
   * pass then runs, and 600 later a second attempt succeeds.
   */
  method ReplenishingScenario() returns (first: Outcome, second: Outcome, left: int)
    ensures first == TimedOut && second == Consumed && left == 0
  {
    var b := new TokenBucket(10, 1, 500, 0, 0);
    var n := b.Observe(0);
    assert n == 0;
    // Deadline 10: checked at 0 (too early to give up), a pass at 0 credits
    // nothing, then checked at 200, past it.
    first := b.TryConsume(1, At(10), [Wake(0, 0), Wake(200, 200)]);
    // The pass nudged before giving up runs after the attempt returns.
    b.Replenish(200);
    // Asleep until 810; an attempt with deadline 910 is checked once, and
    // the pass it nudged credits one token.
    second := b.TryConsume(1, At(910), [Wake(810, 810)]);
    left := b.Observe(810);
  }

  /** Initial counts: 0 and 7 with capacity 10 read back unchanged. */
  method InitialTokensScenario() returns (empty: int, seven: int)
    ensures empty == 0 && seven == 7
  {
    var b0 := new TokenBucket(10, 1, 5000, 0, 0);
    empty := b0.Observe(0);
    var b7 := new TokenBucket(10, 1, 5000, 7, 0);
    seven := b7.Observe(0);
  }

  /** Capacity: 7 per interval of 200, three intervals later the bucket holds 10, not 21 or 14. */
  method CapacityScenario() returns (later: int, again: int)
    ensures later == 10 && again == 10
  {
    var b := new TokenBucket(10, 7, 200, 0, 0);
    var n := b.Observe(0);
    assert n == 0;
    later := b.Observe(600);
    again := b.Observe(600);
  }
}
