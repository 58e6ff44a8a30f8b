/**
 * The token bucket as a pure state machine.
 *
 * A bucket is fixed by three parameters (its capacity, the tokens granted per
 * replenishing interval and the interval itself) and changes in two values:
 * the tokens it holds and the clock reading of its last credit. Time is an
 * integer clock reading (ticks); the bucket never reads a clock itself, every
 * transition is handed the current reading `now`.
 *
 * Every change the bucket ever makes is one of two events: a replenishing
 * pass at some clock reading (`Tick`), or the atomic check-then-deduct of a
 * consumer that found enough tokens (`Deduct`). `Run` folds a history of
 * events, `Granted` counts the tokens handed out along it, and the lemmas at
 * the end bound what any history can hand out: the rate limit itself.
 */
module BucketSpec {

  /** A replenishing interval: a positive number of clock ticks. */
  type Interval = t: int | 0 < t witness 1

  /** The parameters fixed at construction. */
  datatype Config = Config(capacity: int, tokensPerInterval: int, interval: Interval)

  /** The values that change: the tokens held and the time of the last credit. */
  datatype State = State(tokens: int, lastReplenished: int)

  /** The bucket invariant: never negative, never above capacity. */
  predicate Bounded(c: Config, s: State)
  {
    0 <= s.tokens <= c.capacity
  }

  function Min(a: int, b: int): int
  {
    if a <= b then a else b
  }

  /** The time between two clock readings, whichever comes first. */
  function Elapsed(last: int, now: int): nat
  {
    if last <= now then now - last else last - now
  }

  /** Tokens that the whole intervals elapsed since the last credit are worth, before the cap. */
  function Credit(c: Config, s: State, now: int): int
  {
    c.tokensPerInterval * (Elapsed(s.lastReplenished, now) / c.interval)
  }

  /**
   * One replenishing pass at clock reading `now`. Credit is granted only once
   * strictly more than one interval has elapsed, in whole intervals, capped at
   * the capacity; a credit moves the last-credit time to `now`, so any
   * fraction of an interval left over is dropped.
   */
  function Replenished(c: Config, s: State, now: int): (r: State)
    // Within one interval (an interval exactly counts as within) nothing changes.
    ensures Elapsed(s.lastReplenished, now) <= c.interval ==> r == s
    // Beyond it the clock restarts at `now`, and the count is the credited count
    // unless that would exceed the capacity, in which case the bucket is full.
    ensures Elapsed(s.lastReplenished, now) > c.interval ==>
              && r.lastReplenished == now
              && r.tokens <= c.capacity
              && r.tokens <= s.tokens + Credit(c, s, now)
              && (r.tokens == c.capacity || r.tokens == s.tokens + Credit(c, s, now))
    // A pass never takes tokens away from a bucket that is not over capacity,
    // and it keeps the bucket invariant.
    ensures 0 <= c.tokensPerInterval && s.tokens <= c.capacity ==> s.tokens <= r.tokens
    ensures 0 <= c.tokensPerInterval && Bounded(c, s) ==> Bounded(c, r)
  {
    if Elapsed(s.lastReplenished, now) > c.interval then
      State(Min(s.tokens + Credit(c, s, now), c.capacity), now)
    else
      s
  }

  /** Observing twice at the same clock reading: the second pass finds nothing to credit. */
  lemma ObserveIdempotent(c: Config, s: State, now: int)
    ensures Replenished(c, Replenished(c, s, now), now) == Replenished(c, s, now)
  {
  }

  // ---------------------------------------------------------------------
  // Histories of events

  /** The two ways the bucket's state ever changes after construction. */
  datatype Event = Tick(now: int) | Deduct(count: int)

  /** One event. A deduction happens only when the tokens suffice (check and deduct are atomic). */
  function Step(c: Config, s: State, e: Event): State
  {
    match e
    case Tick(now) => Replenished(c, s, now)
    case Deduct(n) => if n <= s.tokens then s.(tokens := s.tokens - n) else s
  }

  /** Tokens a single event hands out. */
  function Handed(s: State, e: Event): int
  {
    match e
    case Tick(_) => 0
    case Deduct(n) => if n <= s.tokens then n else 0
  }

  /** The state after a history of events, the latest event last. */
  function Run(c: Config, s: State, es: seq<Event>): State
    decreases |es|
  {
    if es == [] then s else Step(c, Run(c, s, es[..|es| - 1]), es[|es| - 1])
  }

  /** Total tokens handed out to consumers along a history. */
  function Granted(c: Config, s: State, es: seq<Event>): int
    decreases |es|
  {
    if es == [] then 0
    else Granted(c, s, es[..|es| - 1]) + Handed(Run(c, s, es[..|es| - 1]), es[|es| - 1])
  }

  /** The latest clock reading in a history, or `from` when there is none later. */
  function Latest(es: seq<Event>, from: int): int
    decreases |es|
  {
    if es == [] then from
    else
      var before := Latest(es[..|es| - 1], from);
      match es[|es| - 1]
      case Tick(now) => if before < now then now else before
      case Deduct(_) => before
  }

  /** A history whose clock readings never go back before `from` or before each other. */
  predicate Chronological(es: seq<Event>, from: int)
    decreases |es|
  {
    es == [] ||
    (Chronological(es[..|es| - 1], from) &&
     (es[|es| - 1].Tick? ==> Latest(es[..|es| - 1], from) <= es[|es| - 1].now))
  }

  /** Non-negative consumer requests, the caller precondition `TokenBucket.swift` leaves unchecked. */
  predicate NonNegativeDeducts(es: seq<Event>)
  {
    forall k :: 0 <= k < |es| && es[k].Deduct? ==> 0 <= es[k].count
  }

  /** Running two histories one after the other is running their concatenation. */
  lemma {:induction false} RunConcat(c: Config, s: State, a: seq<Event>, b: seq<Event>)
    ensures Run(c, s, a + b) == Run(c, Run(c, s, a), b)
    ensures Granted(c, s, a + b) == Granted(c, s, a) + Granted(c, Run(c, s, a), b)
    decreases |b|
  {
    if b == [] {
      assert a + b == a;
    } else {
      var b' := b[..|b| - 1];
      assert (a + b)[..|a + b| - 1] == a + b';
      assert (a + b)[|a + b| - 1] == b[|b| - 1];
      RunConcat(c, s, a, b');
    }
  }

  /** A pass earns a non-negative credit at a non-negative rate. */
  lemma CreditNonNegative(c: Config, s: State, now: int)
    requires 0 <= c.tokensPerInterval
    ensures 0 <= Credit(c, s, now)
  {
    MulMonotone(0, Elapsed(s.lastReplenished, now) / c.interval, c.tokensPerInterval);
  }

  /** One event keeps the count non-negative, and within the capacity unless it deducts a negative amount. */
  lemma StepPreservesBounds(c: Config, s: State, e: Event)
    requires 0 <= c.tokensPerInterval && 0 <= c.capacity && 0 <= s.tokens
    ensures 0 <= Step(c, s, e).tokens
    ensures s.tokens <= c.capacity && (e.Deduct? ==> 0 <= e.count) ==> Step(c, s, e).tokens <= c.capacity
  {
    if e.Tick? {
      CreditNonNegative(c, s, e.now);
    }
  }

  /**
   * The bucket invariant holds along every history: the count never goes
   * negative, and never above the capacity when consumers ask for
   * non-negative amounts.
   */
  lemma {:induction false} RunPreservesBounds(c: Config, s: State, es: seq<Event>)
    requires 0 <= c.tokensPerInterval
    requires Bounded(c, s)
    ensures 0 <= Run(c, s, es).tokens
    ensures NonNegativeDeducts(es) ==> Bounded(c, Run(c, s, es))
    decreases |es|
  {
    if es != [] {
      var p, e := es[..|es| - 1], es[|es| - 1];
      RunPreservesBounds(c, s, p);
      StepPreservesBounds(c, Run(c, s, p), e);
      if NonNegativeDeducts(es) {
        assert NonNegativeDeducts(p) by {
          forall k | 0 <= k < |p| && p[k].Deduct? ensures 0 <= p[k].count {
            assert p[k] == es[k];
          }
        }
        assert e.Deduct? ==> 0 <= e.count;
      }
    }
  }

  // ---------------------------------------------------------------------
  // The rate limit

  /** Whole intervals never add up to more than the whole intervals of the sum. */
  lemma FloorSuperadditive(a: nat, b: nat, d: int)
    requires d > 0
    ensures a / d + b / d <= (a + b) / d
  {
    var q := a / d + b / d;
    var n := a + b;
    assert q * d == (a / d) * d + (b / d) * d;
    assert q * d <= n;
    assert n < (n / d + 1) * d;
    MulCancel(q, n / d + 1, d);
  }

  /** A positive factor can be cancelled from a strict inequality. */
  lemma MulCancel(x: int, y: int, d: int)
    requires d > 0 && x * d < y * d
    ensures x < y
  {
    if y <= x {
      MulMonotone(y, x, d);
    }
  }

  /** A non-negative factor preserves an inequality. */
  lemma MulMonotone(x: int, y: int, d: int)
    requires 0 <= d && x <= y
    ensures x * d <= y * d && d * x <= d * y
  {
    assert y * d - x * d == (y - x) * d;
  }

  /** Whole intervals grow with the time span, and so does their worth at a non-negative rate. */
  lemma ScaledMonotone(x: nat, y: nat, d: int, rate: int)
    requires d > 0 && 0 <= rate && x <= y
    ensures rate * (x / d) <= rate * (y / d)
  {
    FloorSuperadditive(x, y - x, d);
    assert x + (y - x) == y;
    MulMonotone(x / d, y / d, rate);
  }

  /** The worth of whole intervals at a non-negative rate is superadditive too. */
  lemma ScaledSuperadditive(a: nat, b: nat, d: int, rate: int)
    requires d > 0 && 0 <= rate
    ensures rate * (a / d) + rate * (b / d) <= rate * ((a + b) / d)
  {
    FloorSuperadditive(a, b, d);
    MulMonotone(a / d + b / d, (a + b) / d, rate);
    assert rate * (a / d + b / d) == rate * (a / d) + rate * (b / d);
  }

  /**
   * Along a chronological history, what the bucket handed out plus what it
   * still holds never exceeds what it started with plus one batch of
   * tokens per whole interval between the start and the last credit. The
   * last credit is never earlier than the start nor later than the latest
   * clock reading in the history.
   */
  lemma {:induction false} RunCredits(c: Config, s: State, es: seq<Event>)
    requires 0 <= c.tokensPerInterval
    requires Chronological(es, s.lastReplenished)
    ensures s.lastReplenished <= Run(c, s, es).lastReplenished <= Latest(es, s.lastReplenished)
    ensures Granted(c, s, es) + Run(c, s, es).tokens
            <= s.tokens + c.tokensPerInterval * ((Run(c, s, es).lastReplenished - s.lastReplenished) / c.interval)
    decreases |es|
  {
    if es != [] {
      var p := es[..|es| - 1];
      RunCredits(c, s, p);
      var q := Run(c, s, p);
      match es[|es| - 1]
      case Deduct(n) =>
      case Tick(t) =>
        if Elapsed(q.lastReplenished, t) > c.interval {
          var before := q.lastReplenished - s.lastReplenished;
          var since := t - q.lastReplenished;
          ScaledSuperadditive(before, since, c.interval, c.tokensPerInterval);
          assert before + since == t - s.lastReplenished;
        }
    }
  }

  /**
   * The rate limit: in a chronological history whose clock readings end by
   * `horizon`, consumers receive at most a full bucket plus one batch per
   * whole interval between the last credit before the history and `horizon`.
   */
  lemma Throughput(c: Config, s: State, es: seq<Event>, horizon: int)
    requires 0 <= c.tokensPerInterval
    requires Bounded(c, s)
    requires Chronological(es, s.lastReplenished) && Latest(es, s.lastReplenished) <= horizon
    ensures Granted(c, s, es)
            <= c.capacity + c.tokensPerInterval * ((horizon - s.lastReplenished) / c.interval)
  {
    RunCredits(c, s, es);
    RunPreservesBounds(c, s, es);
    ScaledMonotone(Run(c, s, es).lastReplenished - s.lastReplenished, horizon - s.lastReplenished,
                   c.interval, c.tokensPerInterval);
  }

  /**
   * Observing at an intermediate clock reading never yields more tokens than
   * observing only once later: frequent callers cannot mint tokens.
   */
  lemma PollingNeverGainsTokens(c: Config, s: State, t1: int, t2: int)
    requires 0 <= c.tokensPerInterval
    requires s.tokens <= c.capacity
    requires s.lastReplenished <= t1 <= t2
    ensures Replenished(c, Replenished(c, s, t1), t2).tokens <= Replenished(c, s, t2).tokens
  {
    var m := Replenished(c, s, t1);
    var e1, e2 := t1 - s.lastReplenished, t2 - t1;
    if e1 > c.interval {
      var c1, c2, c12 := Credit(c, s, t1), Credit(c, m, t2), Credit(c, s, t2);
      assert c1 + c2 <= c12 && 0 <= c2 by {
        assert m.lastReplenished == t1;
        ScaledSuperadditive(e1, e2, c.interval, c.tokensPerInterval);
        MulMonotone(0, e2 / c.interval, c.tokensPerInterval);
      }
      var r := Replenished(c, s, t2);
      assert r.tokens == c.capacity || r.tokens == s.tokens + c12;
      assert m.tokens <= s.tokens + c1;
    }
  }

  /**
   * Because a credit restarts the clock at the observation, the fraction of
   * an interval left over is lost: observed at 15 and 25 with an interval of
   * 10, an empty bucket holds 1 token; observed only at 25, it holds 2.
   */
  lemma PollingCanLoseCredit()
    ensures var c := Config(10, 1, 10);
            var s := State(0, 0);
            Replenished(c, Replenished(c, s, 15), 25).tokens == 1 &&
            Replenished(c, s, 25).tokens == 2
  {
  }

  // ---------------------------------------------------------------------
  // A consume attempt

  /** An absolute deadline, or none (`Date.distantFuture` in the Swift implementation). */
  datatype Deadline = Never | At(time: int)

  /** The Swift implementation gives up only once the deadline is strictly earlier than the clock. */
  predicate Passed(d: Deadline, now: int)
  {
    d.At? && d.time < now
  }

  /**
   * How a consume attempt ends: tokens deducted, deadline passed, or still
   * waiting when the clock readings supplied ran out.
   */
  datatype Outcome = Consumed | TimedOut | Waiting

  /** The outcome of an attempt, the events it performed and the state it left. */
  datatype Attempt = Attempt(outcome: Outcome, events: seq<Event>, after: State)

  /**
   * One turn of the waiting loop with too few tokens: the clock reading at
   * which the waiter checks the deadline, and the later reading, while it
   * sleeps, at which the replenishing pass it nudged gets the lock.
   */
  datatype Wake = Wake(check: int, pass: int)

  /**
   * A consume attempt for `count` tokens whose waiter goes through the turns
   * `ticks`. As soon as the tokens suffice they are deducted; while they do
   * not, each turn gives up if the deadline has passed at its check, and
   * otherwise sleeps, during which the pass it nudged runs at its pass
   * reading; the woken waiter tests the tokens again before the deadline.
   */
  function WaitRun(c: Config, s: State, count: int, deadline: Deadline, ticks: seq<Wake>): (a: Attempt)
    // Enough tokens up front: deducted at once, without waiting or replenishing.
    ensures count <= s.tokens ==>
              a.outcome == Consumed && a.events == [Deduct(count)] && a.after.tokens == s.tokens - count
    // Too few tokens at a check past the deadline: give up, the bucket untouched.
    ensures s.tokens < count && 0 < |ticks| && Passed(deadline, ticks[0].check) ==>
              a.outcome == TimedOut && a.events == [] && a.after == s
    // Success never leaves the count negative; any other outcome leaves it short of `count`.
    ensures a.outcome == Consumed ==> 0 <= a.after.tokens
    ensures a.outcome != Consumed ==> a.after.tokens < count
    // Without a deadline the attempt never gives up.
    ensures deadline == Never ==> a.outcome != TimedOut
    decreases |ticks|
  {
    if count <= s.tokens then
      Attempt(Consumed, [Deduct(count)], s.(tokens := s.tokens - count))
    else if ticks == [] then
      Attempt(Waiting, [], s)
    else if Passed(deadline, ticks[0].check) then
      Attempt(TimedOut, [], s)
    else
      var rest := WaitRun(c, Replenished(c, s, ticks[0].pass), count, deadline, ticks[1..]);
      Attempt(rest.outcome, [Tick(ticks[0].pass)] + rest.events, rest.after)
  }

  /** A check before the deadline with too few tokens: one pass, then the attempt goes on. */
  lemma WaitRunWake(c: Config, s: State, count: int, deadline: Deadline, ticks: seq<Wake>, i: nat)
    requires s.tokens < count && i < |ticks| && !Passed(deadline, ticks[i].check)
    ensures var rest := WaitRun(c, Replenished(c, s, ticks[i].pass), count, deadline, ticks[i + 1..]);
            WaitRun(c, s, count, deadline, ticks[i..]) == Attempt(rest.outcome, [Tick(ticks[i].pass)] + rest.events, rest.after)
  {
    assert ticks[i..][1..] == ticks[i + 1..];
  }

  /**
   * The events of an attempt: success is exactly an attempt whose last event
   * deducts `count`; every other event is the replenishing pass of one turn,
   * in order, run at its pass reading after a check that had not passed the
   * deadline. Giving up happens at the next turn's check, the first past the
   * deadline; still waiting means every turn supplied was spent on a pass.
   * The last credit moves only to pass readings.
   */
  lemma {:induction false} WaitRunEvents(c: Config, s: State, count: int, deadline: Deadline, ticks: seq<Wake>)
    ensures var a := WaitRun(c, s, count, deadline, ticks);
            var turns := if a.outcome == Consumed then |a.events| - 1 else |a.events|;
            && (a.outcome == Consumed <==> 0 < |a.events| && a.events[|a.events| - 1] == Deduct(count))
            && 0 <= turns <= |ticks|
            && (forall k :: 0 <= k < turns ==> a.events[k] == Tick(ticks[k].pass) && !Passed(deadline, ticks[k].check))
            && (a.outcome == TimedOut ==> turns < |ticks| && Passed(deadline, ticks[turns].check))
            && (a.outcome == Waiting ==> turns == |ticks|)
            && (a.after.lastReplenished == s.lastReplenished
                || exists k :: 0 <= k < |ticks| && ticks[k].pass == a.after.lastReplenished)
    decreases |ticks|
  {
    if s.tokens < count && ticks != [] && !Passed(deadline, ticks[0].check) {
      var m := Replenished(c, s, ticks[0].pass);
      var rest := WaitRun(c, m, count, deadline, ticks[1..]);
      WaitRunEvents(c, m, count, deadline, ticks[1..]);
      var a := WaitRun(c, s, count, deadline, ticks);
      assert a.events == [Tick(ticks[0].pass)] + rest.events;
      forall k | 1 <= k < |a.events| && (a.outcome != Consumed || k < |a.events| - 1)
        ensures a.events[k] == Tick(ticks[k].pass) && !Passed(deadline, ticks[k].check)
      {
        assert a.events[k] == rest.events[k - 1];
        assert ticks[1..][k - 1] == ticks[k];
      }
      if rest.outcome == TimedOut {
        assert ticks[1..][|rest.events|] == ticks[|a.events|];
      }
      if rest.after.lastReplenished == m.lastReplenished {
        if m.lastReplenished != s.lastReplenished {
          assert ticks[0].pass == a.after.lastReplenished;
        }
      } else {
        var k :| 0 <= k < |ticks[1..]| && ticks[1..][k].pass == rest.after.lastReplenished;
        assert ticks[k + 1].pass == a.after.lastReplenished;
      }
    }
  }

  /**
   * The nudged pass runs after the deadline check, while the waiter sleeps:
   * a credit that comes due only after the deadline reading still lets the
   * waiter succeed, since it tests the tokens before the deadline again.
   */
  lemma LateCreditSucceeds()
    ensures var c := Config(10, 1, 500);
            var a := WaitRun(c, State(0, 0), 1, At(500), [Wake(499, 501)]);
            a.outcome == Consumed && a.events == [Tick(501), Deduct(1)] && a.after == State(0, 501)
  {
    var c := Config(10, 1, 500);
    assert Replenished(c, State(0, 0), 501) == State(1, 501);
  }

  /**
   * An attempt is a run of its events: the state it leaves is the state
   * they lead to, and on success it handed out exactly `count` tokens,
   * otherwise none.
   */
  lemma {:induction false} AttemptIsRun(c: Config, s: State, count: int, deadline: Deadline, ticks: seq<Wake>)
    ensures var a := WaitRun(c, s, count, deadline, ticks);
            && Run(c, s, a.events) == a.after
            && Granted(c, s, a.events) == (if a.outcome == Consumed then count else 0)
    decreases |ticks|
  {
    var a := WaitRun(c, s, count, deadline, ticks);
    if count <= s.tokens {
      var es := [Deduct(count)];
      assert es[..0] == [];
      assert Run(c, s, es) == s.(tokens := s.tokens - count);
      assert Granted(c, s, es) == count;
    } else if ticks == [] || Passed(deadline, ticks[0].check) {
    } else {
      var m := Replenished(c, s, ticks[0].pass);
      var first := [Tick(ticks[0].pass)];
      var rest := WaitRun(c, m, count, deadline, ticks[1..]);
      assert a.events == first + rest.events;
      AttemptIsRun(c, m, count, deadline, ticks[1..]);
      assert first[..0] == [];
      assert Run(c, s, first) == m && Granted(c, s, first) == 0;
      RunConcat(c, s, first, rest.events);
    }
  }

  /** An attempt by a caller asking for a non-negative amount keeps the bucket invariant. */
  lemma BoundsAfterAttempt(c: Config, s: State, count: int, deadline: Deadline, ticks: seq<Wake>)
    requires 0 <= c.tokensPerInterval && 0 <= count
    requires Bounded(c, s)
    ensures Bounded(c, Run(c, s, WaitRun(c, s, count, deadline, ticks).events))
  {
    var es := WaitRun(c, s, count, deadline, ticks).events;
    WaitRunEvents(c, s, count, deadline, ticks);
    assert NonNegativeDeducts(es);
    RunPreservesBounds(c, s, es);
  }
}
