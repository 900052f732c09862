/** The history of an on-disk queue (agent/src/queue.rs) as a value: what its directory and
    counters owe to every entry that ever reached it, and the steps that change them.
 */
module QueueHistory {
  import opened EntryLists

  datatype History = History(
    dir: seq<Entry>,            // the directory, in delivery order
    next: nat,                  // the count kept in memory
    counters: Counters,         // since the last opening
    arrived: multiset<Entry>,   // every entry that reached the directory
    departed: seq<Departure>,   // every entry that left it, in order
    openedAt: nat,              // how many had left at the last opening
    offered: seq<Entry>,        // every entry offered to the server, in order
    taken: seq<Entry>,          // every entry the server took, in order
    slipped: bool)              // whether the count ever fell behind the numbers in use

  /** Each entry is still queued or left once, for one reason, and the counters say why. */
  ghost predicate Conserved(h: History) {
    && h.arrived == multiset(h.dir) + multiset(Entries(h.departed))
    && Distinct(h.arrived)
    && h.openedAt <= |h.departed|
    && Counted(h.departed[h.openedAt..], h.counters)
  }

  /** The next number is not below that of any queued entry or of the last one taken. */
  ghost predicate InStep(h: History) {
    && (h.dir != [] ==> h.dir[|h.dir| - 1].sequence <= h.next)
    && (h.taken != [] ==> h.taken[|h.taken| - 1].sequence <= h.next)
  }

  /** An entry already taken is the last one taken and stands at the head of the line. */
  ghost predicate RetakesHead(h: History) {
    && (forall e | e in h.dir && e in h.taken :: e == h.taken[|h.taken| - 1])
    && (h.taken != [] && h.taken[|h.taken| - 1] in h.dir ==> h.dir[0] == h.taken[|h.taken| - 1])
  }

  ghost predicate InOrder(h: History) {
    && InStep(h)
    && NonDecreasing(h.taken)
    && (h.taken != [] && h.dir != [] ==> h.taken[|h.taken| - 1].sequence <= h.dir[0].sequence)
  }

  ghost predicate InLine(h: History) {
    && Sorted(h.dir)
    && Repeats(h.taken)
    && (forall e | e in h.taken :: e in h.arrived)
    && RetakesHead(h)
    && (!h.slipped ==> InOrder(h))
  }

  ghost predicate Good(h: History) {
    Conserved(h) && InLine(h)
  }

  /** A new entry's number: past every queued entry and never below the count kept in memory. */
  function NumberAfter(next: nat, queued: seq<Entry>): nat {
    if queued != [] && queued[|queued| - 1].sequence + 1 > next
    then queued[|queued| - 1].sequence + 1
    else next
  }

  // ---------------------------------------------------------------- the steps

  function Removed(h: History, k: nat, reason: Reason): History
    requires k < |h.dir|
  {
    var d := Departure(h.dir[k], reason);
    h.(dir := h.dir[..k] + h.dir[k + 1..], counters := Noted(h.counters, d), departed := h.departed + [d])
  }

  function Offered(h: History, took: bool): History
    requires h.dir != []
  {
    h.(offered := h.offered + [h.dir[0]], taken := h.taken + if took then [h.dir[0]] else [])
  }

  /** A write whose end is not known is not counted, so the count may fall behind it. */
  function Arrived(h: History, e: Entry, counted: bool): History {
    h.(dir := h.dir + [e],
       arrived := h.arrived + multiset{e},
       next := if counted then e.sequence + 1 else h.next,
       slipped := h.slipped || (!counted && e.sequence > h.next))
  }

  /** Only the directory survives; its last number restarts the count. */
  function Reopened(h: History): History {
    h.(next := NumberAfter(0, h.dir),
       counters := NO_COUNTERS,
       openedAt := |h.departed|,
       slipped := h.slipped || (h.dir == [] && h.taken != [] && h.taken[|h.taken| - 1].sequence > 0))
  }

  function Found(dir: seq<Entry>): History {
    History(dir, NumberAfter(0, dir), NO_COUNTERS, multiset(dir), [], 0, [], [], false)
  }

  datatype Step =
    | Remove(k: nat, reason: Reason)
    | Offer(took: bool)
    | Arrive(entry: Entry, counted: bool)
    | Reopen

  /** What a step needs; a new entry carries a fresh id and a number behind everything queued. */
  ghost predicate Enabled(h: History, step: Step) {
    match step
    case Remove(k, _) => k < |h.dir|
    case Offer(_) => h.dir != []
    case Arrive(e, _) => e.sequence >= NumberAfter(h.next, h.dir) && forall x | x in h.arrived :: x.id != e.id
    case Reopen => true
  }

  ghost function Apply(h: History, step: Step): History
    requires Enabled(h, step)
  {
    match step
    case Remove(k, reason) => Removed(h, k, reason)
    case Offer(took) => Offered(h, took)
    case Arrive(e, counted) => Arrived(h, e, counted)
    case Reopen => Reopened(h)
  }

  /** `h` is where `steps` lead from a first opening of the directory `start`. */
  ghost predicate IsRun(start: seq<Entry>, steps: seq<Step>, h: History)
    decreases |steps|
  {
    if steps == [] then Sorted(start) && Distinct(multiset(start)) && h == Found(start)
    else
      var n := |steps| - 1;
      exists before :: IsRun(start, steps[..n], before) && Enabled(before, steps[n]) && h == Apply(before, steps[n])
  }

  ghost predicate Reachable(h: History) {
    exists start, steps :: IsRun(start, steps, h)
  }

  lemma FoundReachable(dir: seq<Entry>)
    requires Sorted(dir) && Distinct(multiset(dir))
    ensures Reachable(Found(dir))
  {
    assert IsRun(dir, [], Found(dir));
  }

  lemma StepReachable(h: History, step: Step)
    requires Reachable(h) && Enabled(h, step)
    ensures Reachable(Apply(h, step))
  {
    var start, steps :| IsRun(start, steps, h);
    assert (steps + [step])[..|steps|] == steps;
    assert IsRun(start, steps + [step], Apply(h, step));
  }

  // ---------------------------------------------------------------- every step keeps the history good

  lemma RemovedConserved(h: History, k: nat, reason: Reason)
    requires Conserved(h) && Sorted(h.dir) && k < |h.dir|
    ensures Conserved(Removed(h, k, reason))
  {
    var d := Departure(h.dir[k], reason);
    SplicedMultiset(h.dir, k);
    EntriesAppend(h.departed, d);
    assert (h.departed + [d])[h.openedAt..] == h.departed[h.openedAt..] + [d];
    CountDeparture(h.departed[h.openedAt..], h.counters, d);
  }

  lemma SplicedIn(dir: seq<Entry>, k: nat)
    requires Sorted(dir) && k < |dir|
    ensures var after := dir[..k] + dir[k + 1..];
            && (forall x | x in after :: x in dir && x != dir[k])
            && (after != [] ==>
                  && after[|after| - 1].sequence <= dir[|dir| - 1].sequence
                  && dir[0].sequence <= after[0].sequence
                  && (k > 0 ==> after[0] == dir[0]))
  {
    var after := dir[..k] + dir[k + 1..];
    forall x | x in after ensures x in dir && x != dir[k] {
      var i :| 0 <= i < |after| && after[i] == x;
      assert x == dir[if i < k then i else i + 1];
    }
    if after != [] {
      assert after[0] == dir[if k == 0 then 1 else 0];
      assert after[|after| - 1] == dir[if k == |dir| - 1 then k - 1 else |dir| - 1];
    }
  }

  lemma RemovedInLine(h: History, k: nat, reason: Reason)
    requires InLine(h) && k < |h.dir|
    ensures InLine(Removed(h, k, reason))
  {
    SplicedSorted(h.dir, k);
    SplicedIn(h.dir, k);
  }

  lemma RemovedGood(h: History, k: nat, reason: Reason)
    requires Good(h) && k < |h.dir|
    ensures Good(Removed(h, k, reason))
  {
    RemovedConserved(h, k, reason);
    RemovedInLine(h, k, reason);
  }

  lemma TakenHead(h: History)
    requires InLine(h) && h.dir != []
    ensures var taken := h.taken + [h.dir[0]];
            && Repeats(taken)
            && (forall x | x in h.dir && x in taken :: x == h.dir[0])
            && (!h.slipped ==> NonDecreasing(taken))
  {
    var taken := h.taken + [h.dir[0]];
    assert taken[..|h.taken|] == h.taken;
  }

  lemma OfferedGood(h: History, took: bool)
    requires Good(h) && h.dir != []
    ensures Good(Offered(h, took))
  {
    assert Conserved(Offered(h, took));
    if took {
      TakenHead(h);
      assert h.dir[0] in multiset(h.dir);
      assert h.dir[0].sequence <= h.dir[|h.dir| - 1].sequence;
    } else {
      assert Offered(h, took).taken == h.taken;
    }
  }

  lemma ArrivedConserved(h: History, e: Entry, counted: bool)
    requires Conserved(h) && (forall x | x in h.arrived :: x.id != e.id)
    ensures Conserved(Arrived(h, e, counted))
  {
    assert e !in h.arrived;
    assert multiset(h.dir + [e]) == multiset(h.dir) + multiset{e};
  }

  lemma AppendedSorted(dir: seq<Entry>, e: Entry)
    requires Sorted(dir) && e !in dir && (dir != [] ==> dir[|dir| - 1].sequence < e.sequence)
    ensures Sorted(dir + [e])
  {
    if dir != [] { assert forall i | 0 <= i < |dir| :: dir[i].sequence <= dir[|dir| - 1].sequence; }
  }

  lemma ArrivedGood(h: History, e: Entry, counted: bool)
    requires Good(h) && e.sequence >= NumberAfter(h.next, h.dir)
    requires forall x | x in h.arrived :: x.id != e.id
    ensures Good(Arrived(h, e, counted))
  {
    ArrivedConserved(h, e, counted);
    var after := Arrived(h, e, counted);
    assert e !in h.dir by { assert forall x | x in h.dir :: x in multiset(h.dir); }
    AppendedSorted(h.dir, e);
    assert after.taken == h.taken && e !in h.taken;
    if h.dir != [] {
      assert after.dir[0] == h.dir[0];
      assert h.dir[0].sequence <= h.dir[|h.dir| - 1].sequence;
    }
    assert RetakesHead(after);
  }

  lemma ReopenedConserved(h: History)
    requires Conserved(h)
    ensures Conserved(Reopened(h))
  {
    assert h.departed[|h.departed|..] == [];
    NothingCounted();
  }

  lemma ReopenedGood(h: History)
    requires Good(h)
    ensures Good(Reopened(h))
  {
    ReopenedConserved(h);
    if h.dir != [] { assert h.dir[0].sequence <= h.dir[|h.dir| - 1].sequence; }
    assert RetakesHead(Reopened(h));
  }

  lemma NothingCounted()
    ensures Counted([], NO_COUNTERS)
  {
    assert Reasons([]) == [];
  }

  lemma FoundGood(dir: seq<Entry>)
    requires Sorted(dir) && Distinct(multiset(dir))
    ensures Good(Found(dir))
  {
    NothingCounted();
    assert Entries([]) == [];
    var h := Found(dir);
    assert h.departed[h.openedAt..] == [];
  }

  lemma {:induction false} RunGood(start: seq<Entry>, steps: seq<Step>, h: History)
    requires IsRun(start, steps, h)
    ensures Good(h)
    decreases |steps|
  {
    if steps == [] {
      FoundGood(start);
    } else {
      var n := |steps| - 1;
      var before :| IsRun(start, steps[..n], before) && Enabled(before, steps[n]) && h == Apply(before, steps[n]);
      RunGood(start, steps[..n], before);
      match steps[n] {
        case Remove(k, reason) => RemovedGood(before, k, reason);
        case Offer(took) => OfferedGood(before, took);
        case Arrive(e, counted) => ArrivedGood(before, e, counted);
        case Reopen => ReopenedGood(before);
      }
    }
  }

  /** Every state a queue can come to, over any run of arrivals, removals, offers, crashes and
      openings, has a good history. */
  lemma ReachableGood(h: History)
    requires Reachable(h)
    ensures Good(h)
  {
    var start, steps :| IsRun(start, steps, h);
    RunGood(start, steps, h);
  }

  lemma ReachableSorted(h: History)
    requires Reachable(h)
    ensures Sorted(h.dir)
  {
    ReachableGood(h);
  }

  /** Unlinking an entry by name takes out its position in the directory. */
  lemma RemovedByName(h: History, k: nat, reason: Reason)
    requires Reachable(h) && k < |h.dir|
    ensures Reachable(Removed(h, k, reason))
    ensures Removed(h, k, reason).dir == Without(h.dir, {h.dir[k]})
  {
    StepReachable(h, Remove(k, reason));
    ReachableSorted(h);
    WithoutAt(h.dir, k);
  }

  // ---------------------------------------------------------------- what a good history says

  /** Every entry leaves at most once, for one reason, and what left is no longer queued. */
  lemma LeavesOnce(h: History, i: nat, j: nat)
    requires Reachable(h) && i < j < |h.departed|
    ensures h.departed[i].entry != h.departed[j].entry
    ensures h.departed[i].entry !in h.dir
  {
    ReachableGood(h);
    var gone, e := Entries(h.departed), h.departed[i].entry;
    assert gone[i] == e && e in multiset(gone) && e in h.arrived;
    if h.departed[j].entry == e { SeenTwice(gone, i, j); }
  }

  lemma SeenTwice(s: seq<Entry>, i: nat, j: nat)
    requires i < j < |s| && s[i] == s[j]
    ensures multiset(s)[s[i]] >= 2
  {
    assert s == s[..j] + [s[j]] + s[j + 1..];
    assert s[..j][i] == s[i];
  }

  /** Deliveries under one name are of one body, with nothing else taken in between. */
  lemma RepeatsAreAdjacent(h: History, i: nat, j: nat, k: nat)
    requires Reachable(h) && i <= j <= k < |h.taken| && NameOf(h.taken[i]) == NameOf(h.taken[k])
    ensures h.taken[i] == h.taken[j] == h.taken[k]
  {
    ReachableGood(h);
    assert h.taken[i] in h.arrived && h.taken[k] in h.arrived;
    RepeatsPairs(h.taken, i, j, k);
  }

  lemma {:induction false} IdsStayDistinct(start: seq<Entry>, steps: seq<Step>, h: History)
    requires IsRun(start, steps, h) && DistinctIds(multiset(start))
    ensures DistinctIds(h.arrived)
    decreases |steps|
  {
    if steps != [] {
      var n := |steps| - 1;
      var before :| IsRun(start, steps[..n], before) && Enabled(before, steps[n]) && h == Apply(before, steps[n]);
      IdsStayDistinct(start, steps[..n], before);
    }
  }

  /** In a directory that was found without two files of one id, an id is only ever one entry, and all
      its deliveries are adjacent. */
  lemma OneEntryPerId(start: seq<Entry>, steps: seq<Step>, h: History, i: nat, j: nat, k: nat)
    requires IsRun(start, steps, h) && DistinctIds(multiset(start))
    requires i <= j <= k < |h.taken| && h.taken[i].id == h.taken[k].id
    ensures h.taken[i] == h.taken[j] == h.taken[k]
  {
    RunGood(start, steps, h);
    IdsStayDistinct(start, steps, h);
    assert h.taken[i] in h.arrived && h.taken[k] in h.arrived;
    RepeatsPairs(h.taken, i, j, k);
  }

  /** Numbers of taken entries never go down while the count has not slipped. */
  lemma TakenInOrder(h: History, i: nat, j: nat)
    requires Reachable(h) && !h.slipped && i <= j < |h.taken|
    ensures h.taken[i].sequence <= h.taken[j].sequence
  {
    ReachableGood(h);
    NonDecreasingPairs(h.taken, i, j);
  }

  /** The count slips in exactly the steps that leave the queue out of step: a write whose end is
      not known while the count already lags, and an opening of an emptied directory. */
  lemma SlipsExactly(h: History, step: Step)
    requires Reachable(h) && !h.slipped && Enabled(h, step)
    ensures Apply(h, step).slipped <==> !InStep(Apply(h, step))
  {
    StepReachable(h, step);
    ReachableGood(Apply(h, step));
  }

  /** Once out of step, a queue that delivers everything and then one more entry delivers a lower
      number after a higher one. */
  lemma {:induction false} OutOfStepGoesBack(h: History, id: string) returns (later: History)
    requires Reachable(h) && !InStep(h) && (forall x | x in h.arrived :: x.id != id)
    ensures Reachable(later) && h.taken <= later.taken && !NonDecreasing(later.taken)
    decreases |h.dir|
  {
    if h.dir == [] {
      later := NextGoesBack(h, id);
    } else {
      var left;
      later, left := DeliverHead(h);
      if NonDecreasing(later.taken) {
        StillOutOfStep(h, left);
        later := OutOfStepGoesBack(left, id);
      }
    }
  }

  lemma DeliverNew(h: History, e: Entry) returns (later: History)
    requires Reachable(h) && h.dir == [] && e.sequence >= h.next && (forall x | x in h.arrived :: x.id != e.id)
    ensures Reachable(later) && later.taken == h.taken + [e]
  {
    StepReachable(h, Arrive(e, true));
    var queued := Arrived(h, e, true);
    assert queued.dir == [e];
    StepReachable(queued, Offer(true));
    later := Offered(queued, true);
  }

  lemma NextGoesBack(h: History, id: string) returns (later: History)
    requires Reachable(h) && h.dir == [] && !InStep(h) && (forall x | x in h.arrived :: x.id != id)
    ensures Reachable(later) && h.taken <= later.taken && !NonDecreasing(later.taken)
  {
    later := DeliverNew(h, Entry(h.next, 0, id, []));
  }

  lemma DeliverHead(h: History) returns (offered: History, left: History)
    requires Reachable(h) && h.dir != []
    ensures Reachable(offered) && offered == Offered(h, true)
    ensures Reachable(left) && left.dir == h.dir[1..] && left.taken == offered.taken
    ensures left.arrived == h.arrived && left.next == h.next
  {
    StepReachable(h, Offer(true));
    offered := Offered(h, true);
    StepReachable(offered, Remove(0, Accept));
    left := Removed(offered, 0, Accept);
    assert h.dir[..0] + h.dir[1..] == h.dir[1..];
  }

  lemma StillOutOfStep(h: History, left: History)
    requires !InStep(h) && h.dir != [] && NonDecreasing(h.taken + [h.dir[0]])
    requires left.dir == h.dir[1..] && left.taken == h.taken + [h.dir[0]] && left.next == h.next
    ensures !InStep(left)
  {
    var n := |left.taken|;
    assert n >= 2 ==> left.taken[n - 2] == h.taken[n - 2];
  }

  /** The numbers of taken entries do go down after a restart: an entry delivered, the emptied
      queue reopened, another delivered under number 0. */
  lemma RestartGoesBack() returns (h: History)
    ensures Reachable(h) && |h.taken| == 2 && h.taken[1].sequence < h.taken[0].sequence
  {
    var first, again := Entry(1, 0, "a", []), Entry(0, 0, "b", []);
    assert Sorted([first]) && Distinct(multiset([first]));
    FoundReachable([first]);
    var offered, emptied := DeliverHead(Found([first]));
    assert offered.taken == [] + [first] && emptied.dir == [];
    StepReachable(emptied, Reopen);
    h := DeliverNew(Reopened(emptied), again);
  }

  // ---------------------------------------------------------------- numbers between openings

  /** `after` is where `steps` lead from `h`, none of them an opening. */
  ghost predicate LeadsOn(h: History, steps: seq<Step>, after: History)
    decreases |steps|
  {
    if steps == [] then after == h
    else
      && !steps[0].Reopen? && Enabled(h, steps[0])
      && LeadsOn(Apply(h, steps[0]), steps[1..], after)
  }

  lemma {:induction false} CountNeverFalls(h: History, steps: seq<Step>, after: History)
    requires LeadsOn(h, steps, after)
    ensures after.next >= h.next
    decreases |steps|
  {
    if steps != [] { CountNeverFalls(Apply(h, steps[0]), steps[1..], after); }
  }

  /** Between two openings an entry gets a higher number than every entry known to be written before
      it, whether that one is still queued or long gone. */
  lemma NumbersGrow(h: History, e: Entry, steps: seq<Step>, after: History, f: Entry, counted: bool)
    requires Enabled(h, Arrive(e, true)) && LeadsOn(Apply(h, Arrive(e, true)), steps, after)
    requires Enabled(after, Arrive(f, counted))
    ensures e.sequence < f.sequence
  {
    CountNeverFalls(Apply(h, Arrive(e, true)), steps, after);
  }
}
