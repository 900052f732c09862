/** The delivery queues and the flush that drains them (agent/src/main.rs): every observation
    first, telemetry only after them and never more than a fixed number of batches.
 */
module Flush {
  import opened Options
  import opened EntryLists
  import opened QueueHistory
  import opened Queue

  const TELEMETRY_PER_FLUSH: nat := 120

  datatype FlushEnd = Done | Undelivered | QueueFailed

  class DeliveryQueue {
    const observations: DiskQueue
    const telemetry: DiskQueue
    var observing: bool
    var measuring: bool

    ghost predicate Valid()
      reads observations, telemetry
    {
      observations != telemetry && observations.Valid() && telemetry.Valid()
    }

    /** Tries to open a queue for observations and another for telemetry, on a directory each. One that
        cannot be opened leaves its directory as it was found. */
    constructor (
      observationLimits: Limits, observed: seq<Entry>, opensFirst: bool,
      telemetryLimits: Limits, measured: seq<Entry>, opensSecond: bool)
      requires Sorted(observed) && Distinct(multiset(observed)) && Sorted(measured) && Distinct(multiset(measured))
      ensures Valid() && fresh(observations) && fresh(telemetry)
      ensures observations.h == Found(observed) && telemetry.h == Found(measured)
      ensures observations.limits == observationLimits && telemetry.limits == telemetryLimits
      ensures (observing <==> opensFirst) && (measuring <==> opensSecond)
    {
      observations := new DiskQueue(observationLimits, observed);
      telemetry := new DiskQueue(telemetryLimits, measured);
      observing, measuring := opensFirst, opensSecond;
    }

    /** The telemetry part of a flush, once no observation is queued. */
    method FlushTelemetry(now: int, patience: nat, world: World, opens: bool)
      returns (end: FlushEnd, ghost measured: History, ghost held: bool)
      requires Valid()
      modifies this`measuring, telemetry
      ensures Valid()
      ensures measuring <==> old(measuring) || opens
      ensures !measuring ==> telemetry.h == old(telemetry.h) && end == QueueFailed
      ensures patience == 0 ==> telemetry.h.offered == old(telemetry.h.offered)
      ensures |telemetry.h.offered| <= |old(telemetry.h.offered)| + 120
      ensures ExpiredOnly(old(telemetry.h), measured) && Passed(measured, telemetry.h, world, held)
      ensures end == QueueFailed ==> world.stuck != {} || !measuring
      ensures end != QueueFailed ==>
                && measured.dir == Current(old(telemetry.dir), now, telemetry.limits.maxAge)
                && (end == Undelivered <==> held && !Cancelled(world.answers(telemetry.dir[0])))
      ensures end == Done && !held && patience > |old(telemetry.dir)| ==>
                telemetry.dir == [] || |telemetry.h.offered| == |old(telemetry.h.offered)| + 120
    {
      measured, held := telemetry.h, false;
      PassedNone(telemetry.h, world);
      measuring := measuring || opens;
      if !measuring {
        return QueueFailed, measured, held;
      }
      var pass, left;
      pass, left, measured, held := telemetry.DrainAtMost(now, Some(TELEMETRY_PER_FLUSH), patience, world);
      if pass.Broken? {
        return QueueFailed, measured, held;
      }
      CurrentShorter(telemetry.limits, old(telemetry.dir), now);
      var blocked := pass.drained.blocked;
      end := if blocked.Some? && !Cancelled(blocked.value) then Undelivered else Done;
    }

    /** One flush. `patience` is how many looks at the cancellation find it unset; once set it
        stays set, so a pass cut short leaves the next none. The telemetry pass changes nothing
        of the observation queue, so an empty one at its end was empty at every offer. A queue that is
        not open is tried again; `opensFirst` and `opensSecond` say whether that works. */
    method Flush(
      now: int, later: int, patience: nat, first: World, second: World, opensFirst: bool, opensSecond: bool)
      returns (end: FlushEnd, ghost observed: History, ghost measured: History, ghost stopped: bool, ghost held: bool)
      requires Valid()
      modifies this`observing, this`measuring, observations, telemetry
      ensures Valid()
      // a queue stays open, is opened when its turn comes, and is not touched otherwise
      ensures observing <==> old(observing) || opensFirst
      ensures old(measuring) ==> measuring
      ensures measuring && !old(measuring) ==> opensSecond && observing && !stopped
      ensures !observing ==> end == QueueFailed && observations.h == old(observations.h)
      ensures !observing || !measuring ==> telemetry.h == old(telemetry.h)
      ensures observing && !measuring ==> end == QueueFailed || stopped
      // an offer of telemetry finds no observation queued, and there are few of them
      ensures telemetry.h.offered != old(telemetry.h.offered) ==> observations.dir == []
      ensures |telemetry.h.offered| <= |old(telemetry.h.offered)| + 120
      // each pass expires what is too old and takes entries off the head of its queue
      ensures ExpiredOnly(old(observations.h), observed) && Passed(observed, observations.h, first, stopped)
      ensures ExpiredOnly(old(telemetry.h), measured) && Passed(measured, telemetry.h, second, held)
      ensures end != QueueFailed ==> observed.dir == Current(old(observations.dir), now, observations.limits.maxAge)
      ensures end != QueueFailed && !stopped ==>
                measured.dir == Current(old(telemetry.dir), later, telemetry.limits.maxAge)
      // how it ends: a block by cancellation is no failure
      ensures stopped ==> telemetry.h == old(telemetry.h)
      ensures end == QueueFailed ==> first.stuck != {} || second.stuck != {} || !observing || !measuring
      ensures end != QueueFailed ==>
                (end == Undelivered <==>
                   || (stopped && !Cancelled(first.answers(observations.dir[0])))
                   || (held && !Cancelled(second.answers(telemetry.dir[0]))))
      ensures end == Done && !stopped && !held && patience > |old(observations.dir)| + |old(telemetry.dir)| ==>
                && observations.dir == []
                && (telemetry.dir == [] || |telemetry.h.offered| == |old(telemetry.h.offered)| + 120)
    {
      observed, measured, stopped, held := observations.h, telemetry.h, false, false;
      PassedNone(observations.h, first);
      PassedNone(telemetry.h, second);
      observing := observing || opensFirst;
      if !observing {
        return QueueFailed, observed, measured, stopped, held;
      }
      var pass, left;
      pass, left, observed, stopped := observations.DrainAtMost(now, None, patience, first);
      if pass.Broken? {
        return QueueFailed, observed, measured, stopped, held;
      }
      CurrentShorter(observations.limits, old(observations.dir), now);
      if pass.drained.blocked.Some? {
        return if Cancelled(pass.drained.blocked.value) then Done else Undelivered, observed, measured, stopped, held;
      }
      end, measured, held := FlushTelemetry(later, left, second, opensSecond);
    }
  }

  /** `after` is `before` with nothing but expired entries gone. */
  ghost predicate ExpiredOnly(before: History, after: History) {
    && after == before.(dir := after.dir, counters := after.counters, departed := after.departed)
    && LeftFor(before.departed, after.departed, Expired)
  }

  lemma {:induction false} CurrentShorter(limits: Limits, dir: seq<Entry>, now: int)
    ensures |Current(dir, now, limits.maxAge)| <= |dir|
    decreases |dir|
  {
    if dir != [] { CurrentShorter(limits, dir[1..], now); }
  }
}
