/** The bounded on-disk queue of encoded payloads (agent/src/queue.rs).

    Each method takes what the world does to it as parameters: the clock, the entries whose unlink
    or read fails, how a write ends, what the server answers, and after how many looks the pass is
    cancelled. A crash is a call that stops at a failing unlink or write, followed by `Reopen`. The
    ghost field `h` keeps the whole history; `Valid` says it is good and that the published health
    is the health of the directory and counters as they are.
 */
module Queue {
  import opened Options
  import opened EntryLists
  import opened QueueHistory

  datatype Limits = Limits(maxEntries: nat, maxBytes: nat, maxAge: nat)

  datatype Health = Health(entries: nat, bytes: nat, oldestQueuedAt: Option<nat>, counters: Counters)

  /** How a write ends: a directory sync can fail after the rename made the entry visible. */
  datatype WriteEnd = Written | FailedBeforeRename | FailedAfterRename

  /** What the server answers; for any other failure, whether it took the payload all the same and
      whether the request was cancelled. */
  datatype Answer = Accepted | PayloadRejected | Failed(took: bool, cancelled: bool)

  datatype World = World(stuck: set<Entry>, unreadable: set<Entry>, answers: Entry -> Answer)

  datatype Drained = Drained(delivered: nat, rejected: nat, blocked: Option<Answer>)

  datatype Pass = Finished(drained: Drained) | Broken

  /** The head of the line left, stays because the server could not take it, or stays because its
      unlink failed, after or before it was offered. */
  datatype HeadEnd = Gone(reason: Reason) | Stays(answer: Answer) | Stuck(offered: bool)

  function HealthOf(dir: seq<Entry>, counters: Counters): Health {
    Health(|dir|, TotalBytes(dir), if dir == [] then None else Some(dir[0].queuedAt), counters)
  }

  /** The published health counts the entries and their bytes, and its oldest time is that of an entry
      whose number no other undercuts. */
  lemma HealthTold(dir: seq<Entry>, counters: Counters)
    requires Sorted(dir)
    ensures var health := HealthOf(dir, counters);
            && health.entries == |dir| && health.bytes == TotalBytes(dir) && health.counters == counters
            && (health.oldestQueuedAt.None? <==> dir == [])
            && forall e | e in dir && (forall x | x in dir && x != e :: e.sequence < x.sequence) ::
                 health.oldestQueuedAt == Some(e.queuedAt)
  {
    if dir != [] {
      forall e | e in dir && (forall x | x in dir && x != e :: e.sequence < x.sequence) ensures e == dir[0] {
        var i :| 0 <= i < |dir| && dir[i] == e;
        assert dir[0] in dir;
      }
    }
  }

  function Seconds(now: int): nat {
    if now < 0 then 0 else now / NANOS
  }

  // ---------------------------------------------------------------- making room

  /** Whether `queued` leaves room for a payload of `size` bytes. */
  predicate Fits(queued: seq<Entry>, size: nat, limits: Limits) {
    |queued| < limits.maxEntries && TotalBytes(queued) + size <= limits.maxBytes
  }

  /** How many of the oldest entries must go: what follows is the longest suffix with room. */
  function Overflow(queued: seq<Entry>, size: nat, limits: Limits): (k: nat)
    ensures k <= |queued|
    ensures k < |queued| ==> Fits(queued[k..], size, limits)
    ensures forall j | 0 <= j < k :: !Fits(queued[j..], size, limits)
  {
    if queued == [] || Fits(queued, size, limits) then
      assert queued[0..] == queued;
      0
    else
      var k := 1 + Overflow(queued[1..], size, limits);
      assert forall j | 0 < j <= |queued| :: queued[j..] == queued[1..][j - 1..];
      assert queued[0..] == queued;
      k
  }

  // ---------------------------------------------------------------- one pass over the queue

  function ReasonFor(e: Entry, world: World): Reason {
    if e in world.unreadable then Unreadable
    else if world.answers(e).Accepted? then Accept
    else Rejected
  }

  /** Each departure of a pass has its own cause in the world. */
  ghost predicate Caused(d: Departure, world: World) {
    && (d.reason == Unreadable <==> d.entry in world.unreadable)
    && (d.reason == Accept <==> d.entry !in world.unreadable && world.answers(d.entry).Accepted?)
    && (d.reason == Rejected <==> d.entry !in world.unreadable && world.answers(d.entry).PayloadRejected?)
    && d.reason in {Unreadable, Accept, Rejected}
  }

  /** The pass is done with an entry: it cannot be read, or the server said yes or no. */
  predicate Settled(e: Entry, world: World) {
    e in world.unreadable || !world.answers(e).Failed?
  }

  ghost predicate AllCaused(before: seq<Departure>, after: seq<Departure>, world: World) {
    before <= after && forall i | |before| <= i < |after| :: Caused(after[i], world)
  }

  function Exits(passed: seq<Entry>, world: World): seq<Departure> {
    seq(|passed|, i requires 0 <= i < |passed| => Departure(passed[i], ReasonFor(passed[i], world)))
  }

  function Readable(passed: seq<Entry>, world: World): seq<Entry> {
    if passed == [] then []
    else
      var n := |passed| - 1;
      Readable(passed[..n], world) + if passed[n] in world.unreadable then [] else [passed[n]]
  }

  predicate Cancelled(a: Answer) {
    a.Failed? && a.cancelled
  }

  predicate Took(a: Answer) {
    a.Accepted? || (a.Failed? && a.took)
  }

  function TakenOf(offers: seq<Entry>, world: World): seq<Entry> {
    if offers == [] then []
    else
      var n := |offers| - 1;
      TakenOf(offers[..n], world) + if Took(world.answers(offers[n])) then [offers[n]] else []
  }

  /** What a pass offers: the readable entries it got past and, if it `stopped` at an entry it had
      offered, that one too. */
  function Offers(passed: seq<Entry>, rest: seq<Entry>, world: World, stopped: bool): seq<Entry>
    requires stopped ==> rest != []
  {
    Readable(passed, world) + if stopped then [rest[0]] else []
  }

  /** A pass takes entries off the head of the line, each settled, for the reason its read or answer
      gives, and leaves the rest, with the entry it stopped at, as they were. */
  ghost predicate Passed(before: History, after: History, world: World, stopped: bool) {
    var n := |before.dir| - |after.dir|;
    && 0 <= n
    && after.dir == before.dir[n..]
    && (stopped ==> after.dir != [])
    && (forall j | 0 <= j < n :: Settled(before.dir[j], world))
    && after.departed == before.departed + Exits(before.dir[..n], world)
    && after.offered == before.offered + Offers(before.dir[..n], after.dir, world, stopped)
    && after.taken == before.taken + TakenOf(Offers(before.dir[..n], after.dir, world, stopped), world)
    && after.next == before.next && after.arrived == before.arrived
    && after.openedAt == before.openedAt && after.slipped == before.slipped
  }

  lemma TakenOfAppend(offers: seq<Entry>, e: Entry, world: World)
    ensures TakenOf(offers + [e], world) == TakenOf(offers, world) + if Took(world.answers(e)) then [e] else []
  {
    assert (offers + [e])[..|offers|] == offers;
  }

  /** Offering the head of what is left. */
  lemma PassedOffer(before: History, after: History, world: World)
    requires Passed(before, after, world, false) && after.dir != []
    ensures Passed(before, Offered(after, Took(world.answers(after.dir[0]))), world, true)
  {
    var n := |before.dir| - |after.dir|;
    var readable, e := Readable(before.dir[..n], world), after.dir[0];
    var took := if Took(world.answers(e)) then [e] else [];
    assert Offers(before.dir[..n], after.dir, world, false) == readable;
    assert Offers(before.dir[..n], after.dir, world, true) == readable + [e];
    TakenOfAppend(readable, e, world);
    Regroup(before.offered, readable, [e]);
    Regroup(before.taken, TakenOf(readable, world), took);
  }

  lemma Regroup(a: seq<Entry>, b: seq<Entry>, c: seq<Entry>)
    ensures a + b + c == a + (b + c)
  {
  }

  lemma ExitsNext(passed: seq<Entry>, e: Entry, world: World)
    ensures Exits(passed + [e], world) == Exits(passed, world) + [Departure(e, ReasonFor(e, world))]
  {
  }

  lemma ReadableNext(passed: seq<Entry>, e: Entry, world: World)
    ensures Readable(passed + [e], world) == Readable(passed, world) + if e in world.unreadable then [] else [e]
  {
    assert (passed + [e])[..|passed|] == passed;
  }

  lemma HeadRemoved(before: seq<Entry>, n: nat)
    requires n < |before|
    ensures before[..n + 1] == before[..n] + [before[n]]
    ensures before[n..][..0] + before[n..][1..] == before[n + 1..] && before[n..][1..] == before[n + 1..]
  {
  }

  /** Removing the head, offered or unreadable. */
  lemma PassedRemove(before: History, after: History, world: World, stopped: bool)
    requires Passed(before, after, world, stopped) && after.dir != []
    requires (stopped <==> after.dir[0] !in world.unreadable) && Settled(after.dir[0], world)
    ensures Passed(before, Removed(after, 0, ReasonFor(after.dir[0], world)), world, false)
  {
    var n := |before.dir| - |after.dir|;
    var e := after.dir[0];
    HeadRemoved(before.dir, n);
    ExitsNext(before.dir[..n], e, world);
    ReadableNext(before.dir[..n], e, world);
    assert Offers(before.dir[..n] + [e], before.dir[n + 1..], world, false) ==
           Offers(before.dir[..n], after.dir, world, stopped);
    var departed := [Departure(e, ReasonFor(e, world))];
    assert before.departed + Exits(before.dir[..n], world) + departed ==
           before.departed + (Exits(before.dir[..n], world) + departed);
  }

  /** Entries a pass is done with have left, each for the reason the world gave. */
  lemma PassedCaused(before: History, after: History, world: World, stopped: bool)
    requires Passed(before, after, world, stopped)
    ensures AllCaused(before.departed, after.departed, world)
  {
    var n := |before.dir| - |after.dir|;
    forall i | |before.departed| <= i < |after.departed| ensures Caused(after.departed[i], world) {
      assert after.departed[i] == Exits(before.dir[..n], world)[i - |before.departed|];
      assert Settled(before.dir[i - |before.departed|], world);
    }
  }

  class DiskQueue {
    const limits: Limits
    var dir: seq<Entry>
    var nextSequence: nat
    var counters: Counters
    var published: Health
    ghost var h: History

    ghost predicate HealthAgrees()
      reads this
    {
      published == HealthOf(dir, counters)
    }

    ghost predicate Valid()
      reads this
    {
      h.dir == dir && h.next == nextSequence && h.counters == counters && Reachable(h) && HealthAgrees()
    }

    /** The first opening, on whatever entries the directory already holds. */
    constructor (limits: Limits, found: seq<Entry>)
      requires Sorted(found) && Distinct(multiset(found))
      ensures Valid() && this.limits == limits && h == Found(found)
    {
      FoundReachable(found);
      this.limits := limits;
      dir := found;
      nextSequence := NumberAfter(0, found);
      counters := NO_COUNTERS;
      published := HealthOf(found, NO_COUNTERS);
      h := Found(found);
    }

    /** Opening again after a crash or restart: only the directory is left. */
    method Reopen()
      requires Valid()
      modifies this
      ensures Valid() && h == Reopened(old(h))
    {
      StepReachable(h, Step.Reopen);
      h := Reopened(h);
      counters := NO_COUNTERS;
      nextSequence := NumberAfter(0, dir);
      published := HealthOf(dir, counters);
    }

    /** Unlinks an entry, counts it and publishes; a failing unlink changes nothing. */
    method Remove(e: Entry, reason: Reason, stuck: set<Entry>, ghost k: nat) returns (ok: bool)
      requires Valid() && k < |dir| && dir[k] == e
      modifies this
      ensures Valid()
      ensures ok == (e !in stuck)
      ensures h == if ok then Removed(old(h), k, reason) else old(h)
    {
      if e in stuck {
        return false;
      }
      RemovedByName(h, k, reason);
      h := Removed(h, k, reason);
      dir := Without(dir, {e});
      counters := Noted(counters, Departure(e, reason));
      published := HealthOf(dir, counters);
      ok := true;
    }

    /** Drops the next aged entry; the ones before it have already left `start`. */
    method ExpireNext(e: Entry, stuck: set<Entry>, ghost start: seq<Entry>, ghost aged: seq<Entry>, ghost i: nat)
      returns (ok: bool)
      requires Valid() && Sorted(aged) && i < |aged| && aged[i] == e && e in start
      requires dir == Without(start, AsSet(aged[..i]))
      modifies this
      ensures Valid()
      ensures ok <==> e !in stuck
      ensures ok ==>
                && dir == Without(start, AsSet(aged[..i + 1]))
                && h.departed == old(h.departed) + [Departure(e, Expired)]
      ensures h == if ok then old(h).(dir := dir, counters := counters, departed := h.departed) else old(h)
    {
      ghost var gone, before := AsSet(aged[..i]), h;
      AsSetNext(aged, i);
      assert e in dir by {
        InWithout(start, gone, e);
      }
      ghost var k :| 0 <= k < |dir| && dir[k] == e;
      ok := Remove(e, Expired, stuck, k);
      if ok {
        RemovedByName(before, k, Expired);
        WithoutTwice(start, gone, e);
      }
    }

    /** Drops every entry past the age limit, oldest first, up to the first that cannot be unlinked. */
    method Expire(now: int, stuck: set<Entry>) returns (ok: bool, ghost done: nat)
      requires Valid()
      modifies this
      ensures Valid()
      ensures var aged := Aged(old(dir), now, limits.maxAge);
              && done <= |aged| && dir == Without(old(dir), AsSet(aged[..done]))
              && (ok <==> done == |aged|)
              && (!ok ==> aged[done] in stuck)
      ensures ok ==> dir == Current(old(dir), now, limits.maxAge)
      // what goes was queued longer ago than the limit; what is left, if none got stuck, was not
      ensures forall e | e in old(dir) && e !in dir :: now - e.queuedAt * 1_000_000_000 > limits.maxAge
      ensures ok ==> forall e :: e in dir <==> e in old(dir) && now - e.queuedAt * 1_000_000_000 <= limits.maxAge
      ensures stuck == {} ==> ok
      ensures LeftFor(old(h).departed, h.departed, Expired)
      ensures h == old(h).(dir := dir, counters := counters, departed := h.departed)
    {
      ReachableSorted(h);
      var aged := Aged(dir, now, limits.maxAge);
      AgedIn(dir, now, limits.maxAge);
      WithoutNone(dir);
      assert AsSet(aged[..0]) == {};
      done := 0;
      var i := 0;
      while i < |aged|
        invariant 0 <= i <= |aged| && done == i
        invariant Valid() && dir == Without(old(dir), AsSet(aged[..i]))
        invariant LeftFor(old(h).departed, h.departed, Expired)
        invariant h == old(h).(dir := dir, counters := counters, departed := h.departed)
      {
        assert aged[i] in old(dir);
        var removed := ExpireNext(aged[i], stuck, old(dir), aged, i);
        if !removed {
          OnlyOldGone(old(dir), aged, done, now, limits.maxAge);
          return false, done;
        }
        i, done := i + 1, done + 1;
      }
      assert aged[..i] == aged;
      OnlyOldGone(old(dir), aged, done, now, limits.maxAge);
      WithoutAged(old(dir), now, limits.maxAge);
      NotTooOld(old(dir), now, limits.maxAge);
      ok := true;
    }

    /** The deliver callback. Whoever looks at the monitor meanwhile sees the queue as it is. */
    method Deliver(e: Entry, world: World) returns (answer: Answer)
      requires Valid() && HealthAgrees() && dir != [] && dir[0] == e
      modifies this`h
      ensures Valid()
      ensures answer == world.answers(e)
      ensures h == Offered(old(h), answer.Accepted? || (answer.Failed? && answer.took))
    {
      answer := world.answers(e);
      StepReachable(h, Offer(Took(answer)));
      h := Offered(h, Took(answer));
    }

    /** What a pass does with the entry at the head of the line. */
    method PassHead(world: World, ghost start: History) returns (end: HeadEnd)
      requires Valid() && dir != [] && Passed(start, h, world, false)
      modifies this
      ensures Valid()
      ensures Passed(start, h, world, end.Stays? || (end.Stuck? && end.offered))
      ensures end.Gone? ==>
                dir == old(dir[1..]) && h.departed == old(h.departed) + [Departure(old(dir[0]), end.reason)]
      ensures end.Gone? && end.reason == Unreadable ==> h.offered == old(h.offered)
      ensures end.Gone? && end.reason != Unreadable ==>
                h.offered == old(h.offered) + [old(dir[0])] && end.reason in {Accept, Rejected}
      ensures !end.Gone? ==> dir == old(dir) && h.departed == old(h.departed)
      ensures end.Stays? ==>
                end.answer == world.answers(dir[0]) && end.answer.Failed? && h.offered == old(h.offered) + [dir[0]]
      ensures end.Stuck? ==>
                dir[0] in world.stuck && h.offered == old(h.offered) + if end.offered then [dir[0]] else []
    {
      var e := dir[0];
      if e in world.unreadable {
        PassedRemove(start, h, world, false);
        var removed := Remove(e, Unreadable, world.stuck, 0);
        return if removed then Gone(Unreadable) else Stuck(false);
      }
      PassedOffer(start, h, world);
      var answer := Deliver(e, world);
      if answer.Failed? {
        return Stays(answer);
      }
      var reason := if answer.Accepted? then Accept else Rejected;
      PassedRemove(start, h, world, true);
      var removed := Remove(e, reason, world.stuck, 0);
      return if removed then Gone(reason) else Stuck(true);
    }

    /** One pass over the queue from its head: it goes on while entries leave, and stops at the first
        that stays. */
    method DrainCurrent(limit: Option<nat>, patience: nat, world: World)
      returns (pass: Pass, left: nat, ghost stopped: bool)
      requires Valid()
      modifies this
      ensures Valid()
      ensures Passed(old(h), h, world, stopped)
      ensures left <= patience && (patience == 0 ==> h.offered == old(h.offered))
      ensures patience - left == |old(dir)| - |dir| + if stopped || pass.Broken? then 1 else 0
      ensures pass.Broken? ==> dir != [] && dir[0] in world.stuck
      ensures limit.Some? ==> |h.offered| <= |old(h.offered)| + limit.value
      ensures pass.Finished? ==> pass.drained.blocked == if stopped then Some(world.answers(dir[0])) else None
      ensures pass.Finished? && stopped ==> world.answers(dir[0]).Failed?
      ensures pass.Finished? && !stopped && left > 0 && dir != [] ==>
                limit.Some? && |h.offered| == |old(h.offered)| + limit.value
      ensures pass.Finished? ==>
                pass.drained.delivered == CountSince(old(h.departed), h.departed, Accept) &&
                pass.drained.rejected == CountSince(old(h.departed), h.departed, Rejected)
    {
      var delivered, rejected, count := 0, 0, 0;
      left, stopped := patience, false;
      PassedNone(h, world);
      CountSinceNone(h.departed);
      var entries, i := dir, 0;
      while i < |entries|
        invariant 0 <= i <= |entries| && dir == entries[i..]
        invariant Valid() && Passed(old(h), h, world, false)
        invariant left == patience - i && (patience == 0 ==> h.offered == old(h.offered))
        invariant |h.offered| == |old(h.offered)| + count
        invariant limit.Some? ==> count <= limit.value
        invariant delivered == CountSince(old(h.departed), h.departed, Accept)
        invariant rejected == CountSince(old(h.departed), h.departed, Rejected)
      {
        if left == 0 || (limit.Some? && count >= limit.value) {
          break;
        }
        left := left - 1;
        ghost var departed := h.departed;
        var end := PassHead(world, old(h));
        match end {
          case Stuck(offered) =>
            return Broken, left, offered;
          case Stays(answer) =>
            return Finished(Drained(delivered, rejected, Some(answer))), left, true;
          case Gone(reason) =>
            CountSinceNext(old(h.departed), departed, Departure(entries[i], reason));
            count := count + if reason == Unreadable then 0 else 1;
            delivered := delivered + if reason == Accept then 1 else 0;
            rejected := rejected + if reason == Rejected then 1 else 0;
        }
        i := i + 1;
      }
      pass := Finished(Drained(delivered, rejected, None));
    }

    /** One pass: expiry first, then delivery of what is current. */
    method DrainAtMost(now: int, limit: Option<nat>, patience: nat, world: World)
      returns (pass: Pass, left: nat, ghost current: History, ghost stopped: bool)
      requires Valid()
      modifies this
      ensures Valid()
      ensures current == old(h).(dir := current.dir, counters := current.counters, departed := current.departed)
      ensures LeftFor(old(h).departed, current.departed, Expired)
      ensures pass.Finished? ==> current.dir == Current(old(dir), now, limits.maxAge)
      ensures pass.Finished? ==>
                forall e :: e in current.dir <==>
                            e in old(dir) && now - e.queuedAt * 1_000_000_000 <= limits.maxAge
      ensures Passed(current, h, world, stopped) && AllCaused(current.departed, h.departed, world)
      ensures left <= patience && (patience == 0 ==> h.offered == old(h.offered))
      ensures pass.Finished? ==> patience - left == |current.dir| - |dir| + if stopped then 1 else 0
      ensures limit.Some? ==> |h.offered| <= |old(h.offered)| + limit.value
      ensures pass.Finished? ==> pass.drained.blocked == if stopped then Some(world.answers(dir[0])) else None
      ensures pass.Finished? && stopped ==> world.answers(dir[0]).Failed?
      ensures pass.Finished? && !stopped && left > 0 && dir != [] ==>
                limit.Some? && |h.offered| == |old(h.offered)| + limit.value
      ensures pass.Finished? ==>
                pass.drained.delivered == CountSince(current.departed, h.departed, Accept) &&
                pass.drained.rejected == CountSince(current.departed, h.departed, Rejected)
      ensures pass.Broken? ==> world.stuck != {}
    {
      var expired, done := Expire(now, world.stuck);
      current := h;
      if !expired {
        PassedNone(h, world);
        return Broken, patience, current, false;
      }
      pass, left, stopped := DrainCurrent(limit, patience, world);
      PassedCaused(current, h, world, stopped);
    }

    method DropOldest(stuck: set<Entry>) returns (ok: bool)
      requires Valid() && dir != []
      modifies this
      ensures Valid()
      ensures ok <==> old(dir)[0] !in stuck
      ensures ok ==> dir == old(dir)[1..] && h.departed == old(h.departed) + [Departure(old(dir)[0], DroppedForSpace)]
      ensures h == if ok then old(h).(dir := dir, counters := counters, departed := h.departed) else old(h)
    {
      HeadRemoved(dir, 0);
      assert dir[0..] == dir;
      ok := Remove(dir[0], DroppedForSpace, stuck, 0);
    }

    /** Drops the oldest entries until a payload of `size` bytes has room. */
    method MakeRoom(size: nat, stuck: set<Entry>) returns (ok: bool, ghost done: nat)
      requires Valid()
      modifies this
      ensures Valid()
      ensures done <= Overflow(old(dir), size, limits) && dir == old(dir)[done..]
      ensures ok <==> done == Overflow(old(dir), size, limits)
      ensures !ok ==> dir[0] in stuck
      ensures stuck == {} ==> ok
      ensures LeftFor(old(h.departed), h.departed, DroppedForSpace)
      ensures h == old(h).(dir := dir, counters := counters, departed := h.departed)
    {
      var entries := dir;
      var remaining, bytes := |entries|, TotalBytes(entries);
      var i := 0;
      assert entries[0..] == entries;
      while i < |entries|
        invariant 0 <= i <= |entries|
        invariant Valid() && dir == entries[i..]
        invariant remaining == |entries| - i && bytes == TotalBytes(entries[i..])
        invariant i <= Overflow(entries, size, limits)
        invariant LeftFor(old(h.departed), h.departed, DroppedForSpace)
        invariant h == old(h).(dir := dir, counters := counters, departed := h.departed)
      {
        RoomAt(entries, size, limits, i);
        if remaining < limits.maxEntries && bytes + size <= limits.maxBytes {
          break;
        }
        var oldest := entries[i];
        HeadRemoved(entries, i);
        BytesFrom(entries, i);
        var removed := DropOldest(stuck);
        if !removed {
          return false, i;
        }
        remaining, bytes := remaining - 1, bytes - |oldest.body|;
        i := i + 1;
      }
      ok, done := true, i;
    }

    /** Writes a new entry behind everything queued. The count advances only when the write is
        known to have succeeded. */
    method Write(e: Entry, end: WriteEnd) returns (ok: bool)
      requires Valid() && e.sequence >= NumberAfter(nextSequence, dir)
      requires forall x | x in h.arrived :: x.id != e.id
      modifies this
      ensures Valid()
      ensures ok == end.Written?
      ensures h == if end.FailedBeforeRename? then old(h) else Arrived(old(h), e, end.Written?)
    {
      if end.FailedBeforeRename? {
        return false;
      }
      StepReachable(h, Arrive(e, end.Written?));
      h := Arrived(h, e, end.Written?);
      dir := dir + [e];
      ok := end.Written?;
      if ok {
        nextSequence := e.sequence + 1;
      }
      published := HealthOf(dir, counters);
    }

    /** Queues a payload behind everything queued, after dropping what is too old and as many of
        the oldest entries as the limits demand. */
    method Enqueue(id: string, body: seq<bv8>, now: int, stuck: set<Entry>, end: WriteEnd) returns (ok: bool)
      requires Valid() && forall x | x in h.arrived :: x.id != id
      modifies this
      ensures Valid()
      ensures h.offered == old(h.offered) && h.taken == old(h.taken) && h.openedAt == old(h.openedAt)
      ensures LeftForRoom(old(h.departed), h.departed)
      ensures |body| > limits.maxBytes ==> !ok && h == old(h)
      ensures ok ==> |body| <= limits.maxBytes && end.Written?
      ensures |body| <= limits.maxBytes && end.Written? && stuck == {} ==> ok
      ensures ok || (|body| <= limits.maxBytes && end.FailedAfterRename? && stuck == {}) ==>
                var e := NewEntry(id, body, now, old(nextSequence), old(dir), limits);
                dir == Kept(old(dir), |body|, now, limits) + [e] && h.arrived == old(h.arrived) + multiset{e}
      ensures ok && limits.maxEntries >= 1 ==> |dir| <= limits.maxEntries && TotalBytes(dir) <= limits.maxBytes
      ensures h.slipped && !old(h.slipped) ==>
                && end.FailedAfterRename?
                && NewEntry(id, body, now, old(nextSequence), old(dir), limits).sequence > old(nextSequence)
    {
      if |body| > limits.maxBytes {
        return false;
      }
      var expired, done := Expire(now, stuck);
      if !expired {
        return false;
      }
      var sequence := NumberAfter(nextSequence, dir);
      ghost var current := dir;
      var room, dropped := MakeRoom(|body|, stuck);
      if !room {
        return false;
      }
      NumberAfterSuffix(nextSequence, current, Overflow(current, |body|, limits));
      ok := Write(Entry(sequence, Seconds(now), id, body), end);
      if limits.maxEntries >= 1 {
        KeptFits(current, Entry(sequence, Seconds(now), id, body), limits);
      }
    }
  }

  /** Of what is gone, every entry was too old. */
  lemma OnlyOldGone(dir: seq<Entry>, aged: seq<Entry>, done: nat, now: int, maxAge: nat)
    requires aged == Aged(dir, now, maxAge) && done <= |aged|
    ensures forall e | e in dir && e !in Without(dir, AsSet(aged[..done])) ::
              now - e.queuedAt * 1_000_000_000 > maxAge
  {
    TooOld(dir, now, maxAge);
    forall e | e in dir && e !in Without(dir, AsSet(aged[..done]))
      ensures now - e.queuedAt * 1_000_000_000 > maxAge
    {
      InWithout(dir, AsSet(aged[..done]), e);
      assert e in aged;
    }
  }

  /** What an enqueue keeps: the longest suffix of the entries not too old that leaves room. */
  function Kept(dir: seq<Entry>, size: nat, now: int, limits: Limits): seq<Entry> {
    var current := Current(dir, now, limits.maxAge);
    current[Overflow(current, size, limits)..]
  }

  /** What is kept is not too old and ends the directory, and one entry more would not leave room. */
  lemma KeptIs(dir: seq<Entry>, size: nat, now: int, limits: Limits)
    ensures forall e | e in Kept(dir, size, now, limits) ::
              e in dir && now - e.queuedAt * 1_000_000_000 <= limits.maxAge
    ensures var current, kept := Current(dir, now, limits.maxAge), Kept(dir, size, now, limits);
            |kept| < |current| ==>
              || |kept| + 1 >= limits.maxEntries
              || TotalBytes(current[|current| - |kept| - 1..]) + size > limits.maxBytes
  {
    var current := Current(dir, now, limits.maxAge);
    var k := Overflow(current, size, limits);
    NotTooOld(dir, now, limits.maxAge);
    if k > 0 { assert !Fits(current[k - 1..], size, limits); }
  }

  /** The entry an enqueue writes, numbered behind every entry not too old. */
  function NewEntry(id: string, body: seq<bv8>, now: int, next: nat, dir: seq<Entry>, limits: Limits): Entry {
    Entry(NumberAfter(next, Current(dir, now, limits.maxAge)), Seconds(now), id, body)
  }

  /** The new entry is stamped with the whole second, and its number is the lowest that is neither below
      the count nor taken by an entry not too old. */
  lemma NewEntryIs(id: string, body: seq<bv8>, now: int, next: nat, dir: seq<Entry>, limits: Limits)
    requires Sorted(dir)
    ensures var e := NewEntry(id, body, now, next, dir, limits);
            && e.id == id && e.body == body
            && e.queuedAt * 1_000_000_000 == (if now < 0 then 0 else now - now % 1_000_000_000)
            && next <= e.sequence
            && (forall x | x in dir && now - x.queuedAt * 1_000_000_000 <= limits.maxAge :: x.sequence < e.sequence)
            && (e.sequence == next || exists x :: x in dir && e.sequence == x.sequence + 1)
  {
    var current := Current(dir, now, limits.maxAge);
    NotTooOld(dir, now, limits.maxAge);
    CurrentSorted(dir, now, limits.maxAge);
    if current != [] { assert current[|current| - 1] in current; }
  }

  lemma {:induction false} CurrentSorted(dir: seq<Entry>, now: int, maxAge: nat)
    requires Sorted(dir)
    ensures Sorted(Current(dir, now, maxAge))
    decreases |dir|
  {
    if dir != [] {
      CurrentSorted(dir[1..], now, maxAge);
      NotTooOld(dir[1..], now, maxAge);
      var rest := Current(dir[1..], now, maxAge);
      forall i | 0 <= i < |rest| ensures dir[0].sequence <= rest[i].sequence && dir[0] != rest[i] {
        assert rest[i] in dir[1..];
      }
    }
  }

  lemma BytesFrom(queued: seq<Entry>, i: nat)
    requires i < |queued|
    ensures TotalBytes(queued[i..]) == |queued[i].body| + TotalBytes(queued[i + 1..])
  {
    assert queued[i..][1..] == queued[i + 1..];
  }

  /** The first suffix with room is where the dropping ends. */
  lemma RoomAt(queued: seq<Entry>, size: nat, limits: Limits, k: nat)
    requires k < |queued| && k <= Overflow(queued, size, limits)
    ensures k == Overflow(queued, size, limits) <==> Fits(queued[k..], size, limits)
  {
  }

  lemma NumberAfterSuffix(next: nat, queued: seq<Entry>, k: nat)
    requires k <= |queued|
    ensures NumberAfter(next, queued) >= NumberAfter(next, queued[k..])
  {
    if k < |queued| { assert queued[k..][|queued| - k - 1] == queued[|queued| - 1]; }
  }

  lemma KeptFits(current: seq<Entry>, e: Entry, limits: Limits)
    requires |e.body| <= limits.maxBytes && limits.maxEntries >= 1
    ensures var dir := current[Overflow(current, |e.body|, limits)..] + [e];
            |dir| <= limits.maxEntries && TotalBytes(dir) <= limits.maxBytes
  {
    var k := Overflow(current, |e.body|, limits);
    TotalBytesAppend(current[k..], [e]);
  }

  lemma PassedNone(h: History, world: World)
    ensures Passed(h, h, world, false)
  {
    assert h.dir[0..] == h.dir && h.dir[..0] == [];
    assert Exits([], world) == [] && h.departed + [] == h.departed;
    assert Offers([], h.dir, world, false) == [];
  }

  /** How many left for `reason` since `before`. */
  ghost function CountSince(before: seq<Departure>, now: seq<Departure>, reason: Reason): nat
    requires before <= now
  {
    Count(now[|before|..], reason)
  }

  lemma CountSinceNone(departed: seq<Departure>)
    ensures forall reason: Reason :: CountSince(departed, departed, reason) == 0
  {
    assert departed[|departed|..] == [] && Reasons([]) == [];
  }

  lemma CountSinceNext(before: seq<Departure>, now: seq<Departure>, d: Departure)
    requires before <= now
    ensures before <= now + [d]
    ensures forall reason: Reason ::
              CountSince(before, now + [d], reason) ==
              CountSince(before, now, reason) + if d.reason == reason then 1 else 0
  {
    assert (now + [d])[|before|..] == now[|before|..] + [d];
    forall reason: Reason ensures Count(now[|before|..] + [d], reason) ==
                                  Count(now[|before|..], reason) + if d.reason == reason then 1 else 0 {
      CountAppend(now[|before|..], d, reason);
    }
  }

  // ---------------------------------------------------------------- how long an entry lives

  /** An entry queued at `now` outlives an expiry at `later` exactly when its second began no more than
      the age limit before it. */
  method QueueThenExpire(queue: DiskQueue, id: string, body: seq<bv8>, now: int, later: int) returns (e: Entry)
    requires queue.Valid() && (forall x | x in queue.h.arrived :: x.id != id)
    requires now >= 0 && |body| <= queue.limits.maxBytes
    modifies queue
    ensures queue.Valid() && e.id == id && e.body == body
    ensures e in queue.dir <==> later - (now - now % 1_000_000_000) <= queue.limits.maxAge
    // a clock stepped back to before that second drops nothing just queued, nor within the second
    // unless the limit is shorter than a second
    ensures later <= now - now % 1_000_000_000 ==> e in queue.dir
    ensures later <= now && queue.limits.maxAge >= 1_000_000_000 ==> e in queue.dir
  {
    ReachableSorted(queue.h);
    NewEntryIs(id, body, now, queue.nextSequence, queue.dir, queue.limits);
    var ok := queue.Enqueue(id, body, now, {}, Written);
    e := queue.dir[|queue.dir| - 1];
    assert e in queue.dir;
    var expired, done := queue.Expire(later, {});
  }
}
