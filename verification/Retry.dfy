/** Bounded retry within a time budget (agent/src/transport.rs), under any clock whose sleeps may
    overshoot, any answers and any moment of cancellation. Times are in nanoseconds.
 */
module Retry {
  import opened Options

  const MILLIS: nat := 1_000_000
  const INITIAL_DELAY: nat := 250 * MILLIS
  const MAX_DELAY: nat := 8_000 * MILLIS
  const BACKOFF_SLICE: nat := 25 * MILLIS

  /** A failed request: whether it may pass later, whether it was answered `moved`, and the earliest
      moment the server wants to be asked again (section 10.2.3 of RFC 9110). */
  datatype Error = Error(transient: bool, moved: bool, retryNotBefore: Option<int>)

  datatype Answer = Success | Failure(error: Error)

  /** What happens to the loop: how long each attempt takes and how it ends, by how much each sleep
      overshoots, and what each look at the cancellation finds. */
  datatype World = World(
    answers: nat -> Answer, durations: nat -> nat, overshoots: nat -> nat, cancelled: nat -> bool)

  /** One attempt and the sleep slices after it. `poll` is the look at the cancellation before it. */
  datatype Round = Round(poll: nat, start: int, end: int, answer: Answer, slices: seq<nat>)

  datatype Outcome = Done | GaveUp(error: Error) | Cancelled

  function Backoff(k: nat): nat {
    if k == 0 then INITIAL_DELAY
    else if 2 * Backoff(k - 1) < MAX_DELAY then 2 * Backoff(k - 1)
    else MAX_DELAY
  }

  /** The wait after round `k`: the larger of the backoff and what the server asked for. */
  function Wait(k: nat, end: int, error: Error): nat {
    var asked :=
      if error.retryNotBefore.Some? && error.retryNotBefore.value > end then error.retryNotBefore.value - end else 0;
    if asked > Backoff(k) then asked else Backoff(k)
  }

  function Sum(slices: seq<nat>): nat {
    if slices == [] then 0 else Sum(slices[..|slices| - 1]) + slices[|slices| - 1]
  }

  lemma SumAppend(slices: seq<nat>, slice: nat)
    ensures Sum(slices + [slice]) == Sum(slices) + slice
  {
    assert (slices + [slice])[..|slices|] == slices;
  }

  /** Every slice is 25 milliseconds long, but for a shorter last one. */
  predicate Sliced(slices: seq<nat>) {
    && (forall i | 0 <= i < |slices| :: 0 < slices[i] <= 25_000_000)
    && (forall i | 0 <= i < |slices| - 1 :: slices[i] == 25_000_000)
  }

  /** No look from `a` up to `b` found the cancellation set. */
  predicate Quiet(world: World, a: nat, b: nat) {
    forall i | a <= i < b :: !world.cancelled(i)
  }

  /** Every sleep ends on time. */
  ghost predicate OnTime(world: World) {
    forall i :: world.overshoots(i) == 0
  }

  predicate Retryable(a: Answer) {
    a.Failure? && a.error.transient && !a.error.moved
  }

  /** Round `k` failed in a way that may pass, the slices slept after it are its wait exactly, and `now` is
      no earlier than that and leaves another attempt inside the budget. */
  ghost predicate Waited(k: nat, r: Round, now: int, started: int, timeout: nat, budget: nat, world: World) {
    && Retryable(r.answer)
    && Sum(r.slices) == Wait(k, r.end, r.answer.error)
    && Sliced(r.slices)
    && now >= r.end + Sum(r.slices)
    && (OnTime(world) ==> now == r.end + Sum(r.slices))
    && now - started + timeout <= budget
  }

  /** Round `k` was followed by another once its wait was over. */
  ghost predicate LedOn(rounds: seq<Round>, k: nat, started: int, timeout: nat, budget: nat, world: World)
    requires k + 1 < |rounds|
  {
    && Waited(k, rounds[k], rounds[k + 1].start, started, timeout, budget, world)
    && rounds[k + 1].poll > rounds[k].poll
  }

  ghost predicate Faithful(r: Round, k: nat, world: World) {
    r.end == r.start + world.durations(k) && r.answer == world.answers(k) && !world.cancelled(r.poll)
  }

  /** The first attempt starts at once; every later one as `LedOn` says. */
  ghost predicate Paced(rounds: seq<Round>, started: int, timeout: nat, budget: nat, world: World) {
    && (rounds != [] ==> rounds[0].start == started)
    && (forall k | 0 <= k < |rounds| :: Faithful(rounds[k], k, world))
    && (forall k | 0 <= k < |rounds| - 1 :: LedOn(rounds, k, started, timeout, budget, world))
  }

  /** Sleeps for `total` in slices, looking at the cancellation before each. */
  method SleepSliced(total: nat, from: int, firstPoll: nat, firstSleep: nat, world: World)
    returns (slices: seq<nat>, now: int, polls: nat, sleeps: nat, cancelled: bool)
    ensures polls >= firstPoll && Sliced(slices) && now >= from + Sum(slices)
    ensures OnTime(world) ==> now == from + Sum(slices)
    ensures !cancelled ==> Sum(slices) == total && Quiet(world, firstPoll, polls)
    ensures cancelled ==> polls > firstPoll && world.cancelled(polls - 1) && Quiet(world, firstPoll, polls - 1)
  {
    slices, now, polls, sleeps, cancelled := [], from, firstPoll, firstSleep, false;
    var remaining: nat := total;
    while remaining != 0
      invariant polls >= firstPoll && Quiet(world, firstPoll, polls)
      invariant Sliced(slices) && Sum(slices) + remaining == total && now >= from + Sum(slices)
      invariant OnTime(world) ==> now == from + Sum(slices)
      invariant remaining > 0 ==> forall i | 0 <= i < |slices| :: slices[i] == 25_000_000
      decreases remaining
    {
      polls := polls + 1;
      if world.cancelled(polls - 1) {
        return slices, now, polls, sleeps, true;
      }
      var slice := if remaining < BACKOFF_SLICE then remaining else BACKOFF_SLICE;
      now := now + slice + world.overshoots(sleeps);
      sleeps := sleeps + 1;
      SumAppend(slices, slice);
      slices := slices + [slice];
      remaining := remaining - slice;
    }
  }

  /** The loop may start another attempt at `now`: the last one's wait is over and time is left. */
  ghost predicate Ready(
    rounds: seq<Round>, now: int, polls: nat, started: int, timeout: nat, budget: nat, world: World)
  {
    if rounds == [] then now == started
    else
      var k := |rounds| - 1;
      var last := rounds[k];
      Waited(k, last, now, started, timeout, budget, world) && last.poll < polls
  }

  lemma AnotherRound(rounds: seq<Round>, r: Round, started: int, timeout: nat, budget: nat, world: World)
    requires Paced(rounds, started, timeout, budget, world) && Faithful(r, |rounds|, world)
    requires Ready(rounds, r.start, r.poll, started, timeout, budget, world)
    ensures Paced(rounds + [r], started, timeout, budget, world)
  {
    var more := rounds + [r];
    forall k | 0 <= k < |more| - 1 ensures LedOn(more, k, started, timeout, budget, world) {
      if k < |rounds| - 1 { assert LedOn(rounds, k, started, timeout, budget, world); }
    }
  }

  /** Why no further attempt follows round `k`, which failed with `error`. */
  predicate NoMore(k: nat, r: Round, error: Error, attempts: nat, now: int, started: int, timeout: nat, budget: nat) {
    || !Retryable(r.answer)
    || k + 1 == attempts
    || now - started + timeout > budget
    || now - started + Wait(k, r.end, error) + timeout > budget
  }

  /** The wait after round `k`, with the attempt to follow, fits the budget. */
  ghost predicate SleepFits(k: nat, r: Round, started: int, timeout: nat, budget: nat) {
    && r.answer.Failure?
    && r.end - started + Backoff(k) + timeout <= budget
    && (r.answer.error.retryNotBefore.Some? ==> r.answer.error.retryNotBefore.value - started + timeout <= budget)
  }

  ghost predicate SleepsFit(rounds: seq<Round>, started: int, timeout: nat, budget: nat) {
    forall k | 0 <= k < |rounds| && rounds[k].slices != [] :: SleepFits(k, rounds[k], started, timeout, budget)
  }

  lemma AnotherSleep(rounds: seq<Round>, r: Round, started: int, timeout: nat, budget: nat)
    requires SleepsFit(rounds, started, timeout, budget)
    requires r.slices != [] ==> SleepFits(|rounds|, r, started, timeout, budget)
    ensures SleepsFit(rounds + [r], started, timeout, budget)
  {
  }

  /** Attempt `k` and the wait after it, if the loop is to go on. */
  method OneRound(k: nat, attempts: nat, delay: nat, start: int, poll: nat, firstSleep: nat,
                  timeout: nat, budget: nat, started: int, world: World)
    returns (verdict: Option<Outcome>, round: Round, now: int, polls: nat, sleeps: nat)
    requires delay == Backoff(k) && !world.cancelled(poll)
    ensures Faithful(round, k, world) && round.start == start && round.poll == poll < polls
    ensures verdict.None? ==> k + 1 != attempts && Waited(k, round, now, started, timeout, budget, world)
    // no sleep begins unless an attempt after it would fit
    ensures round.slices != [] ==> SleepFits(k, round, started, timeout, budget)
    ensures verdict == Some(Done) ==> round.answer.Success?
    ensures verdict.Some? && verdict.value.GaveUp? ==>
              && round.answer == Failure(verdict.value.error)
              && NoMore(k, round, verdict.value.error, attempts, now, started, timeout, budget)
    ensures verdict == Some(Cancelled) ==> Retryable(round.answer)
    ensures Quiet(world, poll, polls - 1) && (world.cancelled(polls - 1) <==> verdict == Some(Cancelled))
  {
    var answer := world.answers(k);
    now, polls, sleeps := start + world.durations(k), poll + 1, firstSleep;
    round := Round(poll, start, now, answer, []);
    if answer.Success? {
      return Some(Done), round, now, polls, sleeps;
    }
    var error := answer.error;
    if !error.transient || error.moved || k + 1 == attempts {
      return Some(GaveUp(error)), round, now, polls, sleeps;
    }
    var wait := delay;
    if error.retryNotBefore.Some? && error.retryNotBefore.value - now > delay {
      wait := error.retryNotBefore.value - now;
    }
    if now - started + wait + timeout > budget {
      return Some(GaveUp(error)), round, now, polls, sleeps;
    }
    var slices, cancelled;
    slices, now, polls, sleeps, cancelled := SleepSliced(wait, now, polls, sleeps, world);
    round := round.(slices := slices);
    verdict :=
      if cancelled then Some(Cancelled)
      else if now - started + timeout > budget then Some(GaveUp(error))
      else None;
  }

  /** Retries until an attempt succeeds, fails for good, or another would not fit the budget. */
  method RetryWithBudget(attempts: nat, timeout: nat, budget: nat, started: int, world: World)
    returns (outcome: Outcome, rounds: seq<Round>, now: int, polls: nat)
    requires attempts >= 1
    ensures |rounds| <= attempts
    ensures Paced(rounds, started, timeout, budget, world)
    ensures SleepsFit(rounds, started, timeout, budget)
    // a cancellation is seen once, and no attempt follows it
    ensures polls >= 1 && Quiet(world, 0, polls - 1)
    ensures outcome.Cancelled? <==> world.cancelled(polls - 1)
    ensures rounds != [] ==> rounds[|rounds| - 1].poll < polls
    // what the outcome says of the last attempt
    ensures outcome.Done? ==> rounds != [] && rounds[|rounds| - 1].answer.Success?
    ensures outcome.GaveUp? ==>
              && rounds != []
              && rounds[|rounds| - 1].answer == Failure(outcome.error)
              && NoMore(|rounds| - 1, rounds[|rounds| - 1], outcome.error, attempts, now, started, timeout, budget)
    ensures outcome.Cancelled? && rounds != [] ==> Retryable(rounds[|rounds| - 1].answer)
  {
    var delay, sleeps := INITIAL_DELAY, 0;
    rounds, now, polls := [], started, 0;
    for attempt := 0 to attempts
      invariant |rounds| == attempt && (attempt == 0 || attempt < attempts)
      invariant delay == Backoff(attempt)
      invariant Paced(rounds, started, timeout, budget, world)
      invariant Ready(rounds, now, polls, started, timeout, budget, world)
      invariant Quiet(world, 0, polls)
      invariant SleepsFit(rounds, started, timeout, budget)
    {
      polls := polls + 1;
      if world.cancelled(polls - 1) {
        return Cancelled, rounds, now, polls;
      }
      var verdict, round, later, polled, slept :=
        OneRound(attempt, attempts, delay, now, polls - 1, sleeps, timeout, budget, started, world);
      AnotherRound(rounds, round, started, timeout, budget, world);
      AnotherSleep(rounds, round, started, timeout, budget);
      rounds, now, polls, sleeps := rounds + [round], later, polled, slept;
      assert rounds[attempt] == round;
      if verdict.Some? {
        return verdict.value, rounds, now, polls;
      }
      delay := if 2 * delay < MAX_DELAY then 2 * delay else MAX_DELAY;
    }
    // every attempt returns or leaves another to make
    assert false;
  }

  /** What pacing means for any two neighbouring attempts: the later one starts inside the budget
      and not before the moment the earlier response asked for. */
  lemma RetryAfterIsAFloor(rounds: seq<Round>, k: nat, started: int, timeout: nat, budget: nat, world: World)
    requires Paced(rounds, started, timeout, budget, world) && k + 1 < |rounds|
    ensures rounds[k].answer.Failure? && rounds[k].answer.error.transient && !rounds[k].answer.error.moved
    ensures var deadline := rounds[k].answer.error.retryNotBefore;
            deadline.Some? ==> rounds[k + 1].start >= deadline.value
    ensures rounds[k + 1].start >= rounds[k].end + Backoff(k)
    ensures rounds[k + 1].start - started + timeout <= budget
  {
    assert LedOn(rounds, k, started, timeout, budget, world);
  }

  /** When no sleep overshoots, the next attempt starts exactly at the later of the end of the backoff and
      the moment the server asked for. */
  lemma StartsExactly(rounds: seq<Round>, k: nat, started: int, timeout: nat, budget: nat, world: World)
    requires Paced(rounds, started, timeout, budget, world) && k + 1 < |rounds| && OnTime(world)
    ensures rounds[k].answer.Failure?
    ensures var r, next := rounds[k], rounds[k + 1].start;
            var due, deadline := r.end + Backoff(k), r.answer.error.retryNotBefore;
            next == if deadline.Some? && deadline.value > due then deadline.value else due
  {
    assert LedOn(rounds, k, started, timeout, budget, world);
  }

  /** The backoff doubles from a quarter second and stays at eight seconds from the sixth wait on. */
  lemma {:induction false} BackoffDoubles(k: nat)
    ensures Backoff(0) == 250_000_000
    ensures k < 5 ==> Backoff(k + 1) == 2 * Backoff(k)
    ensures k >= 5 ==> Backoff(k) == 8_000_000_000
    ensures INITIAL_DELAY <= Backoff(k) <= MAX_DELAY
  {
    if k > 5 { BackoffDoubles(k - 1); }
    assert Backoff(1) == 500 * MILLIS && Backoff(2) == 1_000 * MILLIS && Backoff(3) == 2_000 * MILLIS;
    assert Backoff(4) == 4_000 * MILLIS && Backoff(5) == MAX_DELAY;
  }
}
