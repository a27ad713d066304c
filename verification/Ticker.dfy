/** The phased ticker clock with its saturating 64-bit catch-up loop. */
module Ticker {
  import opened Common

  function SaturatingSub(a: U64, b: U64): U64 {
    if a < b then 0 else a - b
  }

  datatype Clock = Clock(lastProcessedAt: U64, nextDueAt: U64, cadence: U64)

  predicate IsDue(c: Clock, now: U64) {
    c.nextDueAt <= now
  }

  /** What the catch-up loop leaves in `next_due_at`.  At `now == U64_MAX` the loop never ends. */
  function CatchUp(next: U64, cadence: U64, now: U64): U64
    requires cadence > 0 && now < U64_MAX
    decreases U64_MAX - next
  {
    if next <= now then CatchUp(SaturatingAdd(next, cadence), cadence, now) else next
  }

  /** The loop's body repeated `n` times. */
  function Iterate(next: U64, cadence: U64, n: nat): U64
    decreases n
  {
    if n == 0 then next else Iterate(SaturatingAdd(next, cadence), cadence, n - 1)
  }

  /** Some number of rounds passes `now`, so that the loop ends. */
  ghost predicate Ends(next: U64, cadence: U64, now: U64) {
    exists n: nat :: Iterate(next, cadence, n) > now
  }

  lemma {:induction false} CatchUpEndsBelow(next: U64, cadence: U64, now: U64)
    requires cadence > 0 && now < U64_MAX
    ensures Ends(next, cadence, now)
    decreases U64_MAX - next
  {
    if next > now {
      var n: nat := 0;
      assert Iterate(next, cadence, n) > now;
    } else {
      var more := SaturatingAdd(next, cadence);
      CatchUpEndsBelow(more, cadence, now);
      var n: nat :| Iterate(more, cadence, n) > now;
      assert Iterate(next, cadence, n + 1) > now;
    }
  }

  /** The loop ends exactly when `now` is below the largest instant. */
  lemma CatchUpEnds(next: U64, cadence: U64, now: U64)
    requires cadence > 0
    ensures Ends(next, cadence, now) <==> now < U64_MAX
  {
    if now < U64_MAX {
      CatchUpEndsBelow(next, cadence, now);
    }
  }

  lemma QuotientUp(q: int, r: int, a: int, c: int)
    requires c > 0 && 0 <= r < c && a - c == q * c + r
    ensures a / c == q + 1
  {
    assert (q + 1) * c == q * c + c;
    DivUnique(a, c, q + 1, r);
  }

  lemma QuotientSign(a: nat, c: nat)
    requires c > 0
    ensures a / c >= 0 && a / c * c >= 0
  {
    MulOrder(0, a / c, c);
  }

  lemma QuotientStep(a: nat, c: nat)
    requires c > 0
    ensures a / c >= 0 && a / c * c >= 0
    ensures a < c ==> a / c == 0
    ensures a >= c ==> a / c == (a - c) / c + 1
  {
    if a < c {
      DivUnique(a, c, 0, a);
    } else {
      QuotientUp((a - c) / c, (a - c) % c, a, c);
    }
    QuotientSign(a, c);
  }

  /** The least instant after `now` that lies whole cadences after `next`. */
  function CaughtUp(next: U64, cadence: U64, now: U64): int
    requires cadence > 0 && next <= now
  {
    next + ((now - next) / cadence + 1) * cadence
  }

  lemma CaughtUpStep(next: U64, cadence: U64, now: U64)
    requires cadence > 0 && next <= now
    ensures CaughtUp(next, cadence, now) >= next + cadence
    ensures next + cadence > now ==> CaughtUp(next, cadence, now) == next + cadence
    ensures next + cadence <= now ==> CaughtUp(next, cadence, now) == CaughtUp(next + cadence, cadence, now)
  {
    QuotientStep(now - next, cadence);
    var q := (now - next) / cadence;
    assert (q + 1) * cadence == q * cadence + cadence;
    if next + cadence <= now {
      assert q == (now - (next + cadence)) / cadence + 1;
    } else {
      assert q == 0;
    }
  }

  /** The loop in closed form: the least instant after `now` in the residue class of the due time,
      or the largest instant once that overflows. */
  lemma {:induction false} CatchUpClosedForm(next: U64, cadence: U64, now: U64)
    requires cadence > 0 && now < U64_MAX
    ensures var r := CatchUp(next, cadence, now);
            && (next > now ==> r == next)
            && (next <= now ==>
                  var exact := CaughtUp(next, cadence, now);
                  r == if exact > U64_MAX then U64_MAX else exact)
    decreases U64_MAX - next
  {
    if next <= now {
      CaughtUpStep(next, cadence, now);
      CatchUpClosedForm(SaturatingAdd(next, cadence), cadence, now);
    }
  }

  function Later(next: int, cadence: int, k: nat): int {
    next + k * cadence
  }

  /** `due` is `next` or a whole number of cadences after it. */
  ghost predicate InPhase(next: int, cadence: int, due: int) {
    exists k: nat :: due == Later(next, cadence, k)
  }

  lemma LaterAdds(next: int, cadence: int, j: nat, k: nat)
    ensures Later(Later(next, cadence, j), cadence, k) == Later(next, cadence, j + k)
    ensures Later(next, cadence, 1) == next + cadence && Later(next, cadence, 0) == next
  {
  }

  lemma InPhaseTrans(a: int, b: int, c: int, cadence: int)
    requires InPhase(a, cadence, b) && InPhase(b, cadence, c)
    ensures InPhase(a, cadence, c)
  {
    var j: nat :| b == Later(a, cadence, j);
    var k: nat :| c == Later(b, cadence, k);
    LaterAdds(a, cadence, j, k);
  }

  lemma {:induction false} CatchUpInPhase(next: U64, cadence: U64, now: U64)
    requires cadence > 0 && now < U64_MAX
    ensures var r := CatchUp(next, cadence, now);
            next <= r && now < r && (r < U64_MAX ==> InPhase(next, cadence, r))
    decreases U64_MAX - next
  {
    LaterAdds(next, cadence, 0, 0);
    if next <= now {
      CatchUpInPhase(SaturatingAdd(next, cadence), cadence, now);
      if CatchUp(next, cadence, now) < U64_MAX {
        InPhaseTrans(next, next + cadence, CatchUp(next, cadence, now), cadence);
      }
    }
  }

  /** The new due time is after `now`, and never after any later instant in the residue class of
      the old one: without saturation it is the least such instant. */
  lemma {:induction false} CatchUpLeast(next: U64, cadence: U64, now: U64, k: nat)
    requires cadence > 0 && now < U64_MAX && Later(next, cadence, k) > now
    ensures CatchUp(next, cadence, now) <= Later(next, cadence, k)
    decreases U64_MAX - next
  {
    if next <= now {
      LaterAdds(next, cadence, 1, k - 1);
      if next + cadence <= U64_MAX {
        CatchUpLeast(next + cadence, cadence, now, k - 1);
      } else {
        MulOrder(1, k, cadence);
      }
    } else {
      MulOrder(0, k, cadence);
    }
  }

  // ----- the clock

  function Advanced(c: Clock, now: U64): (Clock, Option<U64>)
    requires c.cadence > 0 && now < U64_MAX
  {
    if !IsDue(c, now) then (c, None)
    else (Clock(now, CatchUp(c.nextDueAt, c.cadence, now), c.cadence),
          Some(SaturatingSub(now, c.lastProcessedAt)))
  }

  function Retried(c: Clock, now: U64, delay: U64): Clock {
    Clock(now, SaturatingAdd(now, delay), c.cadence)
  }

  /** A clock that is due reports the time since it was last processed, none if that is still to come. */
  lemma ElapsedExact(c: Clock, now: U64)
    requires c.cadence > 0 && now < U64_MAX
    ensures var (after, elapsed) := Advanced(c, now);
            && (elapsed.Some? <==> c.nextDueAt <= now) && (elapsed.None? ==> after == c)
            && (elapsed.Some? ==>
                  && after.lastProcessedAt == now && now < after.nextDueAt && after.cadence == c.cadence
                  && if c.lastProcessedAt <= now then c.lastProcessedAt + elapsed.value == now else elapsed.value == 0)
  {
    CatchUpInPhase(c.nextDueAt, c.cadence, now);
  }

  function PhaseDelay(phase: nat, now: U64, cadence: U64): int
    requires cadence > 0 && phase < cadence
  {
    var nowPhase := now % cadence;
    if phase > nowPhase then phase - nowPhase else cadence - (nowPhase - phase)
  }

  function Phased(seed: int, now: U64, cadence: U64): Clock
    requires cadence > 0 && -0x8000_0000_0000_0000 <= seed < 0x8000_0000_0000_0000
  {
    var phase := (if seed < 0 then -seed else seed) % cadence;
    var delay := PhaseDelay(phase, now, cadence);
    Clock(now, SaturatingAdd(now, if delay < 1 then 1 else delay), cadence)
  }

  /** The least instant after `now` with remainder `phase`. */
  ghost predicate IsNextWithPhase(due: int, phase: nat, now: int, cadence: int)
    requires cadence > 0
  {
    && now < due && due % cadence == phase
    && forall other: int :: now < other && other % cadence == phase ==> due <= other
  }

  lemma NoneBetween(a: int, b: int, cadence: int)
    requires cadence > 0 && a % cadence == b % cadence && a < b
    ensures a + cadence <= b
  {
    var q, r := a / cadence, b / cadence;
    assert a == q * cadence + a % cadence && b == r * cadence + b % cadence;
    if r <= q {
      MulOrder(r, q, cadence);
    } else {
      MulOrder(q + 1, r, cadence);
    }
  }

  lemma NextWithPhase(phase: nat, now: U64, cadence: U64)
    requires cadence > 0 && phase < cadence
    ensures var delay := PhaseDelay(phase, now, cadence);
            1 <= delay <= cadence && IsNextWithPhase(now + delay, phase, now, cadence)
  {
    var q, nowPhase := now / cadence, now % cadence;
    var due := now + PhaseDelay(phase, now, cadence);
    if phase > nowPhase {
      assert due == q * cadence + phase;
      DivUnique(due, cadence, q, phase);
    } else {
      assert due == (q + 1) * cadence + phase;
      DivUnique(due, cadence, q + 1, phase);
    }
    forall other: int | now < other && other % cadence == phase ensures due <= other {
      if other < due {
        NoneBetween(other, due, cadence);
      }
    }
  }

  /** A phased clock is next due at the least later instant on its seed's residue, which is at most
      one cadence away, or at the largest instant if that one overflows. */
  lemma PhasedOnResidue(seed: int, now: U64, cadence: U64) returns (due: int)
    requires cadence > 0 && -0x8000_0000_0000_0000 <= seed < 0x8000_0000_0000_0000
    ensures due <= now + cadence && IsNextWithPhase(due, (if seed < 0 then -seed else seed) % cadence, now, cadence)
    ensures Phased(seed, now, cadence) == Clock(now, if due > U64_MAX then U64_MAX else due, cadence)
  {
    var phase := (if seed < 0 then -seed else seed) % cadence;
    due := now + PhaseDelay(phase, now, cadence);
    NextWithPhase(phase, now, cadence);
  }

  class SimTickerClock {
    var lastProcessedAt: U64
    var nextDueAt: U64
    const cadence: U64

    ghost function View(): Clock
      reads this
    {
      Clock(lastProcessedAt, nextDueAt, cadence)
    }

    ghost predicate Valid()
      reads this
    {
      cadence > 0
    }

    /** `scheduled`; the source asserts a non-zero cadence. */
    constructor (last: U64, due: U64, every: U64)
      requires every > 0
      ensures Valid() && View() == Clock(last, due, every)
    {
      lastProcessedAt, nextDueAt, cadence := last, due, every;
    }

    method AdvancePast(now: U64)
      requires Valid() && now < U64_MAX
      modifies this`nextDueAt
      ensures nextDueAt == CatchUp(old(nextDueAt), cadence, now)
    {
      while nextDueAt <= now
        invariant CatchUp(nextDueAt, cadence, now) == CatchUp(old(nextDueAt), cadence, now)
        decreases U64_MAX - nextDueAt
      {
        nextDueAt := SaturatingAdd(nextDueAt, cadence);
      }
    }

    method AdvanceDue(now: U64) returns (elapsed: Option<U64>)
      requires Valid() && now < U64_MAX
      modifies this
      ensures (View(), elapsed) == Advanced(old(View()), now)
    {
      if nextDueAt > now {
        return None;
      }
      elapsed := Some(SaturatingSub(now, lastProcessedAt));
      lastProcessedAt := now;
      AdvancePast(now);
    }

    /** Starts over at `now`: nothing is due until the delay has passed, everything is from then on,
        and the time before `now` is never counted as elapsed. */
    method RetryAfter(now: U64, delay: U64)
      requires Valid()
      modifies this
      ensures View() == Retried(old(View()), now, delay)
      ensures forall later: U64 :: later < U64_MAX ==> (IsDue(View(), later) <==> now + delay <= later)
      ensures forall later: U64 :: now <= later < U64_MAX && IsDue(View(), later) ==>
                Advanced(View(), later).1 == Some(later - now)
    {
      lastProcessedAt := now;
      nextDueAt := SaturatingAdd(now, delay);
    }
  }

  // ----- runs

  datatype TickerStep = Poll(now: U64) | Retry(now: U64, delay: U64)

  /** Polls come before the largest instant, where the catch-up loop never ends. */
  predicate StepsOk(steps: seq<TickerStep>) {
    forall i :: 0 <= i < |steps| ==> steps[i].Poll? ==> steps[i].now < U64_MAX
  }

  /** No step lies before the one ahead of it or before `from`. */
  predicate Ordered(steps: seq<TickerStep>, from: int) {
    && (forall i :: 0 <= i < |steps| ==> from <= steps[i].now)
    && (forall i, j :: 0 <= i < j < |steps| ==> steps[i].now <= steps[j].now)
  }

  /** A run's final clock, the elapsed time it reported, and the time its retries wrote off. */
  datatype Ran = Ran(clock: Clock, elapsed: int, writtenOff: int)

  function Run(c: Clock, steps: seq<TickerStep>): Ran
    requires c.cadence > 0 && StepsOk(steps)
    decreases |steps|
  {
    if steps == [] then Ran(c, 0, 0)
    else match steps[0]
      case Poll(now) =>
        var (next, elapsed) := Advanced(c, now);
        var r := Run(next, steps[1..]);
        r.(elapsed := r.elapsed + if elapsed.Some? then elapsed.value else 0)
      case Retry(now, delay) =>
        var r := Run(Retried(c, now, delay), steps[1..]);
        r.(writtenOff := r.writtenOff + (now - c.lastProcessedAt))
  }

  predicate NoRetry(steps: seq<TickerStep>) {
    forall i :: 0 <= i < |steps| ==> steps[i].Poll?
  }

  /** Over non-decreasing times, what was reported as elapsed and what retries wrote off add up to
      the time processed, so without retries every instant is reported exactly once. */
  lemma {:induction false} ElapsedTelescopes(c: Clock, steps: seq<TickerStep>)
    requires c.cadence > 0 && StepsOk(steps) && Ordered(steps, c.lastProcessedAt)
    ensures var r := Run(c, steps);
            && r.elapsed + r.writtenOff == r.clock.lastProcessedAt - c.lastProcessedAt
            && 0 <= r.elapsed && 0 <= r.writtenOff && (NoRetry(steps) ==> r.writtenOff == 0)
    decreases |steps|
  {
    if steps != [] {
      var next := if steps[0].Poll? then Advanced(c, steps[0].now).0 else Retried(c, steps[0].now, steps[0].delay);
      ElapsedTelescopes(next, steps[1..]);
    }
  }

  /** Until it saturates, no run of polls moves the clock off its residue class. */
  lemma {:induction false} RunKeepsPhase(c: Clock, steps: seq<TickerStep>)
    requires c.cadence > 0 && StepsOk(steps) && NoRetry(steps)
    ensures var due := Run(c, steps).clock.nextDueAt;
            c.nextDueAt <= due && (due < U64_MAX ==> InPhase(c.nextDueAt, c.cadence, due))
    decreases |steps|
  {
    LaterAdds(c.nextDueAt, c.cadence, 0, 0);
    if steps != [] {
      var next := Advanced(c, steps[0].now).0;
      RunKeepsPhase(next, steps[1..]);
      CatchUpInPhase(c.nextDueAt, c.cadence, steps[0].now);
      if Run(c, steps).clock.nextDueAt < U64_MAX {
        InPhaseTrans(c.nextDueAt, next.nextDueAt, Run(c, steps).clock.nextDueAt, c.cadence);
      }
    }
  }

  lemma {:induction false} PollsTooEarly(c: Clock, polls: seq<TickerStep>)
    requires c.cadence > 0 && StepsOk(polls) && NoRetry(polls)
    requires forall i :: 0 <= i < |polls| ==> polls[i].now < c.nextDueAt
    ensures Run(c, polls) == Ran(c, 0, 0)
    decreases |polls|
  {
    if polls != [] {
      PollsTooEarly(c, polls[1..]);
    }
  }

  /** Where a run stands after its last retry, which sets the residue class for all polls after it. */
  lemma RetrySetsPhase(c: Clock, now: U64, delay: U64, polls: seq<TickerStep>)
    requires c.cadence > 0 && StepsOk(polls) && NoRetry(polls)
    ensures var due := Run(Retried(c, now, delay), polls).clock.nextDueAt;
            due < U64_MAX ==> InPhase(now + delay, c.cadence, due)
    ensures (forall i :: 0 <= i < |polls| ==> polls[i].now < now + delay) ==>
              Run(Retried(c, now, delay), polls) == Ran(Retried(c, now, delay), 0, 0)
  {
    RunKeepsPhase(Retried(c, now, delay), polls);
    if forall i :: 0 <= i < |polls| ==> polls[i].now < now + delay {
      PollsTooEarly(Retried(c, now, delay), polls);
    }
  }
}
