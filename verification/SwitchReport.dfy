/** Switch poller reports (agent/src/switch_report.rs): how the outcomes of a poll are divided among
    reports that each stay below a byte limit. The length of an encoding is a parameter.
 */
module SwitchReport {
  import opened Options
  import opened Ordering

  const MAX_OBSERVATION_BYTES: nat := 256_000
  const REPORT_ENVELOPE_BYTES: nat := 1_024
  const TARGET_ENTRY_BYTES: nat := 96
  const MAX_STRING_CHARS: nat := 255
  const COLLECTOR_ID_MAX: nat := 64
  const TARGET_ADDRESS_MAX: nat := 255

  /** Whether a switch answered about its neighbors, and about its VLANs. */
  datatype Sections = Sections(neighbors: bool, vlans: bool)

  datatype Poll = Reached(resource: string, sections: Sections) | Unread(error: string)

  datatype Outcome = Outcome(address: string, poll: Poll)

  datatype TargetStatus = TargetStatus(address: string, reachable: bool, error: Option<string>)

  datatype Report = Report(
    collector: string, targets: seq<TargetStatus>, resources: seq<string>, vlans: bool, neighbors: bool)

  /** The encoded length of a report and of a switch on its own. */
  datatype Encoding = Encoding(report: Report -> nat, resource: string -> nat)

  // ---------------------------------------------------------------- one report

  function StatusOf(o: Outcome): TargetStatus {
    match o.poll
    case Reached(_, _) => TargetStatus(o.address, true, None)
    case Unread(error) =>
      TargetStatus(o.address, false, Some(if |error| > MAX_STRING_CHARS then error[..MAX_STRING_CHARS] else error))
  }

  function Statuses(outcomes: seq<Outcome>): seq<TargetStatus> {
    seq(|outcomes|, i requires 0 <= i < |outcomes| => StatusOf(outcomes[i]))
  }

  function Resources(outcomes: seq<Outcome>): seq<string> {
    if outcomes == [] then []
    else
      var n := |outcomes| - 1;
      Resources(outcomes[..n]) + if outcomes[n].poll.Reached? then [outcomes[n].poll.resource] else []
  }

  predicate AnyReached(outcomes: seq<Outcome>) {
    exists i :: 0 <= i < |outcomes| && outcomes[i].poll.Reached?
  }

  /** Some target was reached, and every reached target answered the section. */
  predicate VlansComplete(outcomes: seq<Outcome>) {
    AnyReached(outcomes) &&
    forall i | 0 <= i < |outcomes| && outcomes[i].poll.Reached? :: outcomes[i].poll.sections.vlans
  }

  predicate NeighborsComplete(outcomes: seq<Outcome>) {
    AnyReached(outcomes) &&
    forall i | 0 <= i < |outcomes| && outcomes[i].poll.Reached? :: outcomes[i].poll.sections.neighbors
  }

  function ReportOf(collector: string, outcomes: seq<Outcome>): Report {
    Report(collector, Statuses(outcomes), Resources(outcomes), VlansComplete(outcomes), NeighborsComplete(outcomes))
  }

  predicate Encodes(collector: string, outcomes: seq<Outcome>, enc: Encoding) {
    outcomes != [] && enc.report(ReportOf(collector, outcomes)) <= MAX_OBSERVATION_BYTES
  }

  /** Builds the report in one loop over the outcomes; there is none of no outcomes, and none that
      exceeds the limit. */
  method Encode(collector: string, outcomes: seq<Outcome>, enc: Encoding) returns (report: Option<Report>)
    ensures report == if Encodes(collector, outcomes, enc) then Some(ReportOf(collector, outcomes)) else None
  {
    if outcomes == [] {
      return None;
    }
    var targets: seq<TargetStatus>, resources: seq<string> := [], [];
    var neighbors, vlans, reached := true, true, false;
    var i := 0;
    while i < |outcomes|
      invariant 0 <= i <= |outcomes|
      invariant targets == Statuses(outcomes[..i])
      invariant resources == Resources(outcomes[..i])
      invariant reached == AnyReached(outcomes[..i])
      invariant vlans <==> forall j | 0 <= j < i && outcomes[j].poll.Reached? :: outcomes[j].poll.sections.vlans
      invariant neighbors <==> forall j | 0 <= j < i && outcomes[j].poll.Reached? :: outcomes[j].poll.sections.neighbors
    {
      var outcome := outcomes[i];
      assert outcomes[..i + 1][..i] == outcomes[..i];
      ReachedNext(outcomes, i);
      match outcome.poll {
        case Reached(resource, sections) =>
          reached := true;
          neighbors := neighbors && sections.neighbors;
          vlans := vlans && sections.vlans;
          targets := targets + [TargetStatus(outcome.address, true, None)];
          resources := resources + [resource];
        case Unread(error) =>
          targets := targets + [StatusOf(outcome)];
      }
      i := i + 1;
    }
    assert outcomes[..i] == outcomes;
    var built := Report(collector, targets, resources, reached && vlans, reached && neighbors);
    assert built == ReportOf(collector, outcomes);
    report := if enc.report(built) <= MAX_OBSERVATION_BYTES then Some(built) else None;
  }

  /** What a report says of the outcomes it was made from: each target's status at its place, the
      switches read, and of each section whether every switch that was read answered it. */
  ghost predicate Told(collector: string, group: seq<Outcome>, report: Report) {
    && report.collector == collector
    && |report.targets| == |group|
    && (forall i | 0 <= i < |group| :: StatusTold(group[i], report.targets[i]))
    && (exists places: seq<nat> :: InPlaces(group, report.resources, places))
    && (report.vlans <==>
          && (exists i :: 0 <= i < |group| && group[i].poll.Reached?)
          && forall i | 0 <= i < |group| && group[i].poll.Reached? :: group[i].poll.sections.vlans)
    && (report.neighbors <==>
          && (exists i :: 0 <= i < |group| && group[i].poll.Reached?)
          && forall i | 0 <= i < |group| && group[i].poll.Reached? :: group[i].poll.sections.neighbors)
  }

  /** `resources` are those of the switches that were read, which stand at `places`, in their order. */
  ghost predicate InPlaces(group: seq<Outcome>, resources: seq<string>, places: seq<nat>) {
    && |places| == |resources|
    && (forall k | 0 <= k < |places| ::
          places[k] < |group| && group[places[k]].poll.Reached? && group[places[k]].poll.resource == resources[k])
    && (forall j, k | 0 <= j < k < |places| :: places[j] < places[k])
    && (forall i: nat | i < |group| && group[i].poll.Reached? :: i in places)
  }

  lemma PlacesNext(group: seq<Outcome>, o: Outcome, resources: seq<string>, places: seq<nat>)
    requires InPlaces(group, resources, places)
    ensures o.poll.Unread? ==> InPlaces(group + [o], resources + [], places + [])
    ensures o.poll.Reached? ==> InPlaces(group + [o], resources + [o.poll.resource], places + [|group|])
  {
    var more := group + [o];
    assert forall i: nat | i < |group| :: more[i] == group[i];
    assert resources + [] == resources && places + [] == places;
    assert more[|group|] == o;
  }

  lemma {:induction false} Places(group: seq<Outcome>) returns (places: seq<nat>)
    ensures InPlaces(group, Resources(group), places)
    decreases |group|
  {
    if group == [] {
      places := [];
    } else {
      var n := |group| - 1;
      var before := Places(group[..n]);
      PlacesNext(group[..n], group[n], Resources(group[..n]), before);
      assert group == group[..n] + [group[n]];
      places := before + if group[n].poll.Reached? then [n] else [];
    }
  }

  ghost predicate StatusTold(o: Outcome, status: TargetStatus) {
    && status.address == o.address
    && (status.reachable <==> o.poll.Reached?)
    && (o.poll.Reached? ==> status.error.None?)
    && (o.poll.Unread? ==>
          && status.error.Some? && status.error.value <= o.poll.error
          && |status.error.value| == if |o.poll.error| < 255 then |o.poll.error| else 255)
  }

  lemma {:induction false} ResourcesTold(group: seq<Outcome>, x: string)
    ensures x in Resources(group) <==>
            exists i :: 0 <= i < |group| && group[i].poll.Reached? && group[i].poll.resource == x
    decreases |group|
  {
    if group != [] {
      var n := |group| - 1;
      ResourcesTold(group[..n], x);
      if i :| 0 <= i < n && group[..n][i].poll.Reached? && group[..n][i].poll.resource == x {
        assert group[i].poll.Reached? && group[i].poll.resource == x;
      }
      if i :| 0 <= i < |group| && group[i].poll.Reached? && group[i].poll.resource == x {
        if i < n { assert group[..n][i].poll.Reached? && group[..n][i].poll.resource == x; }
      }
    }
  }

  lemma ReportTells(collector: string, group: seq<Outcome>)
    ensures Told(collector, group, ReportOf(collector, group))
  {
    var places := Places(group);
  }

  lemma ReachedNext(outcomes: seq<Outcome>, i: nat)
    requires i < |outcomes|
    ensures AnyReached(outcomes[..i + 1]) <==> AnyReached(outcomes[..i]) || outcomes[i].poll.Reached?
  {
    if AnyReached(outcomes[..i]) {
      var j :| 0 <= j < i && outcomes[..i][j].poll.Reached?;
      assert outcomes[..i + 1][j].poll.Reached?;
    }
    if outcomes[i].poll.Reached? { assert outcomes[..i + 1][i].poll.Reached?; }
  }

  // ---------------------------------------------------------------- packing

  const TOO_LARGE := "the switch's report exceeds 256000 bytes"

  /** A switch too large to be reported even on its own counts as unread. */
  function WithinLimit(collector: string, o: Outcome, enc: Encoding): Outcome {
    if o.poll.Unread? || Encodes(collector, [o], enc) then o else Outcome(o.address, Unread(TOO_LARGE))
  }

  function Limited(collector: string, outcomes: seq<Outcome>, enc: Encoding): seq<Outcome> {
    seq(|outcomes|, i requires 0 <= i < |outcomes| => WithinLimit(collector, outcomes[i], enc))
  }

  function EncodedSize(o: Outcome, enc: Encoding): nat {
    (match o.poll case Reached(resource, _) => enc.resource(resource) case Unread(error) => |error|)
    + |o.address| + TARGET_ENTRY_BYTES
  }

  function BatchSize(batch: seq<Outcome>, enc: Encoding): nat {
    if batch == [] then 0
    else BatchSize(batch[..|batch| - 1], enc) + EncodedSize(batch[|batch| - 1], enc)
  }

  function Flatten(batches: seq<seq<Outcome>>): seq<Outcome> {
    if batches == [] then []
    else Flatten(batches[..|batches| - 1]) + batches[|batches| - 1]
  }

  const BUDGET: nat := MAX_OBSERVATION_BYTES - REPORT_ENVELOPE_BYTES

  /** No batch is empty, a batch of several stays within the budget, and a batch ends only where the
      next outcome would not fit. */
  ghost predicate Greedy(batches: seq<seq<Outcome>>, enc: Encoding) {
    && (forall i | 0 <= i < |batches| ::
          batches[i] != [] && (|batches[i]| > 1 ==> BatchSize(batches[i], enc) <= BUDGET))
    && (forall i | 0 < i < |batches| :: BatchSize(batches[i - 1], enc) + EncodedSize(batches[i][0], enc) > BUDGET)
  }

  lemma FlattenAppend(batches: seq<seq<Outcome>>, batch: seq<Outcome>)
    ensures Flatten(batches + [batch]) == Flatten(batches) + batch
  {
    assert (batches + [batch])[..|batches|] == batches;
  }

  lemma GrowLast(batches: seq<seq<Outcome>>, o: Outcome, enc: Encoding)
    requires batches != []
    ensures var n := |batches| - 1;
            var grown := batches[n := batches[n] + [o]];
            && Flatten(grown) == Flatten(batches) + [o]
            && BatchSize(grown[n], enc) == BatchSize(batches[n], enc) + EncodedSize(o, enc)
  {
    var n := |batches| - 1;
    var grown := batches[n := batches[n] + [o]];
    assert grown[..n] == batches[..n];
    assert (batches[n] + [o])[..|batches[n]|] == batches[n];
    assert Flatten(batches[..n]) + (batches[n] + [o]) == Flatten(batches[..n]) + batches[n] + [o];
  }

  lemma SingleSize(o: Outcome, enc: Encoding)
    ensures BatchSize([o], enc) == EncodedSize(o, enc)
  {
    assert [o][..0] == [];
  }

  lemma GreedyNew(batches: seq<seq<Outcome>>, o: Outcome, enc: Encoding)
    requires Greedy(batches, enc)
    requires batches != [] ==> BatchSize(batches[|batches| - 1], enc) + EncodedSize(o, enc) > BUDGET
    ensures Greedy(batches + [[o]], enc)
  {
  }

  lemma GreedyGrow(batches: seq<seq<Outcome>>, o: Outcome, enc: Encoding)
    requires Greedy(batches, enc) && batches != []
    requires BatchSize(batches[|batches| - 1], enc) + EncodedSize(o, enc) <= BUDGET
    ensures var n := |batches| - 1; Greedy(batches[n := batches[n] + [o]], enc)
  {
    GrowLast(batches, o, enc);
    var n := |batches| - 1;
    var grown := batches[n := batches[n] + [o]];
    assert grown[n][0] == batches[n][0];
  }

  ghost predicate Packed(collector: string, done: seq<Outcome>, batches: seq<seq<Outcome>>, used: nat, enc: Encoding) {
    && Flatten(batches) == Limited(collector, done, enc)
    && Greedy(batches, enc)
    && (batches != [] ==> used == BatchSize(batches[|batches| - 1], enc))
  }

  lemma LimitedNext(collector: string, done: seq<Outcome>, o: Outcome, enc: Encoding)
    ensures Limited(collector, done + [o], enc) == Limited(collector, done, enc) + [WithinLimit(collector, o, enc)]
  {
  }

  lemma PackedNew(
    collector: string, done: seq<Outcome>, batches: seq<seq<Outcome>>, used: nat, o: Outcome, enc: Encoding)
    requires Packed(collector, done, batches, used, enc)
    requires batches == [] || used + EncodedSize(WithinLimit(collector, o, enc), enc) > BUDGET
    ensures var next := WithinLimit(collector, o, enc);
            Packed(collector, done + [o], batches + [[next]], EncodedSize(next, enc), enc)
  {
    var next := WithinLimit(collector, o, enc);
    LimitedNext(collector, done, o, enc);
    FlattenAppend(batches, [next]);
    SingleSize(next, enc);
    GreedyNew(batches, next, enc);
  }

  lemma PackedGrow(
    collector: string, done: seq<Outcome>, batches: seq<seq<Outcome>>, used: nat, o: Outcome, enc: Encoding)
    requires Packed(collector, done, batches, used, enc) && batches != []
    requires used + EncodedSize(WithinLimit(collector, o, enc), enc) <= BUDGET
    ensures var next, n := WithinLimit(collector, o, enc), |batches| - 1;
            Packed(collector, done + [o], batches[n := batches[n] + [next]], used + EncodedSize(next, enc), enc)
  {
    var next := WithinLimit(collector, o, enc);
    LimitedNext(collector, done, o, enc);
    GrowLast(batches, next, enc);
    GreedyGrow(batches, next, enc);
  }

  /** Packs the outcomes, in order, by their own encoded sizes. */
  method Pack(collector: string, outcomes: seq<Outcome>, enc: Encoding) returns (batches: seq<seq<Outcome>>)
    ensures Flatten(batches) == Limited(collector, outcomes, enc)
    ensures Greedy(batches, enc)
  {
    batches := [];
    var used: nat := 0;
    var i := 0;
    while i < |outcomes|
      invariant 0 <= i <= |outcomes|
      invariant Packed(collector, outcomes[..i], batches, used, enc)
    {
      var outcome := WithinLimit(collector, outcomes[i], enc);
      var size := EncodedSize(outcome, enc);
      assert outcomes[..i + 1] == outcomes[..i] + [outcomes[i]];
      if used + size > BUDGET || batches == [] {
        PackedNew(collector, outcomes[..i], batches, used, outcomes[i], enc);
        batches, used := batches + [[outcome]], size;
      } else {
        PackedGrow(collector, outcomes[..i], batches, used, outcomes[i], enc);
        var n := |batches| - 1;
        batches, used := batches[n := batches[n] + [outcome]], used + size;
      }
      i := i + 1;
    }
    assert outcomes[..i] == outcomes;
  }

  // ---------------------------------------------------------------- halving

  /** Everything in some batches, with how often it occurs. */
  ghost function Bag<T>(batches: seq<seq<T>>): multiset<T> {
    if batches == [] then multiset{}
    else Bag(batches[..|batches| - 1]) + multiset(batches[|batches| - 1])
  }

  lemma {:induction false} BagFlatten(batches: seq<seq<Outcome>>)
    ensures Bag(batches) == multiset(Flatten(batches))
    decreases |batches|
  {
    if batches != [] { BagFlatten(batches[..|batches| - 1]); }
  }

  /** What is left to do: a batch of n outcomes is encoded or halved at most 2n - 1 times. */
  ghost function Work(batches: seq<seq<Outcome>>): nat {
    if batches == [] then 0
    else
      var n := |batches| - 1;
      Work(batches[..n]) + if batches[n] == [] then 1 else 2 * |batches[n]| - 1
  }

  lemma PushBatch(batches: seq<seq<Outcome>>, batch: seq<Outcome>)
    ensures Work(batches + [batch]) == Work(batches) + if batch == [] then 1 else 2 * |batch| - 1
    ensures Bag(batches + [batch]) == Bag(batches) + multiset(batch)
  {
    assert (batches + [batch])[..|batches|] == batches;
  }

  lemma SplitBatch(others: seq<seq<Outcome>>, batch: seq<Outcome>, half: nat)
    requires 0 < half < |batch|
    ensures var split := others + [batch[half..]] + [batch[..half]];
            Work(split) < Work(others + [batch]) && Bag(split) == Bag(others + [batch])
  {
    PushBatch(others, batch);
    PushBatch(others, batch[half..]);
    PushBatch(others + [batch[half..]], batch[..half]);
    assert batch == batch[..half] + batch[half..];
  }

  /** `reports` are the reports of `groups`, each of which encodes. */
  ghost predicate AreReports(collector: string, groups: seq<seq<Outcome>>, reports: seq<Report>, enc: Encoding) {
    var n := |groups| - 1;
    && |reports| == |groups|
    && (groups != [] ==>
          && AreReports(collector, groups[..n], reports[..n], enc)
          && Encodes(collector, groups[n], enc)
          && reports[n] == ReportOf(collector, groups[n]))
  }

  lemma ReportsAppend(
    collector: string, groups: seq<seq<Outcome>>, reports: seq<Report>, group: seq<Outcome>, enc: Encoding)
    requires AreReports(collector, groups, reports, enc) && Encodes(collector, group, enc)
    ensures AreReports(collector, groups + [group], reports + [ReportOf(collector, group)], enc)
  {
    assert (groups + [group])[..|groups|] == groups;
    assert (reports + [ReportOf(collector, group)])[..|groups|] == reports;
  }

  lemma {:induction false} ReportAt(
    collector: string, groups: seq<seq<Outcome>>, reports: seq<Report>, enc: Encoding, i: nat)
    requires AreReports(collector, groups, reports, enc) && i < |groups|
    ensures Encodes(collector, groups[i], enc) && reports[i] == ReportOf(collector, groups[i])
    decreases |groups|
  {
    var n := |groups| - 1;
    if i < n { ReportAt(collector, groups[..n], reports[..n], enc, i); }
  }

  predicate NoneEmpty(batches: seq<seq<Outcome>>) {
    forall i | 0 <= i < |batches| :: batches[i] != []
  }

  ghost predicate NoneFits(collector: string, dropped: seq<Outcome>, enc: Encoding) {
    forall i | 0 <= i < |dropped| :: !Encodes(collector, [dropped[i]], enc)
  }

  /** Nothing is lost on the way: what is left to do, what is reported and what was dropped. */
  ghost predicate Accounted(
    batches: seq<seq<Outcome>>, groups: seq<seq<Outcome>>, dropped: seq<Outcome>, all: multiset<Outcome>)
  {
    Bag(batches) + Bag(groups) + multiset(dropped) == all
  }

  lemma MoveOver<T>(a: multiset<T>, x: multiset<T>, b: multiset<T>, c: multiset<T>)
    ensures (a + x) + b + c == a + (b + x) + c
    ensures (a + x) + b + c == a + b + (c + x)
  {
  }

  lemma AccountReported(
    others: seq<seq<Outcome>>, batch: seq<Outcome>, groups: seq<seq<Outcome>>, dropped: seq<Outcome>,
    all: multiset<Outcome>)
    requires Accounted(others + [batch], groups, dropped, all)
    ensures Accounted(others, groups + [batch], dropped, all)
    ensures Accounted(others, groups, dropped + batch, all)
  {
    PushBatch(others, batch);
    PushBatch(groups, batch);
    MoveOver(Bag(others), multiset(batch), Bag(groups), multiset(dropped));
    assert multiset(dropped + batch) == multiset(dropped) + multiset(batch);
  }

  lemma NoneEmptySplit(others: seq<seq<Outcome>>, batch: seq<Outcome>, half: nat)
    requires NoneEmpty(others) && 0 < half < |batch|
    ensures NoneEmpty(others + [batch[half..]] + [batch[..half]])
  {
  }

  /** What holds of the worklist, the reports made from it so far and the outcomes dropped. */
  ghost predicate Halving(
    collector: string, batches: seq<seq<Outcome>>, reports: seq<Report>, groups: seq<seq<Outcome>>,
    dropped: seq<Outcome>, all: multiset<Outcome>, enc: Encoding)
  {
    && NoneEmpty(batches)
    && AreReports(collector, groups, reports, enc)
    && Accounted(batches, groups, dropped, all)
    && NoneFits(collector, dropped, enc)
  }

  lemma HalvingReported(
    collector: string, others: seq<seq<Outcome>>, batch: seq<Outcome>, reports: seq<Report>, groups: seq<seq<Outcome>>,
    dropped: seq<Outcome>, all: multiset<Outcome>, enc: Encoding)
    requires Halving(collector, others + [batch], reports, groups, dropped, all, enc)
    requires Encodes(collector, batch, enc)
    ensures Halving(collector, others, reports + [ReportOf(collector, batch)], groups + [batch], dropped, all, enc)
  {
    AccountReported(others, batch, groups, dropped, all);
    ReportsAppend(collector, groups, reports, batch, enc);
    OthersNotEmpty(others, batch);
  }

  lemma HalvingDropped(
    collector: string, others: seq<seq<Outcome>>, batch: seq<Outcome>, reports: seq<Report>, groups: seq<seq<Outcome>>,
    dropped: seq<Outcome>, all: multiset<Outcome>, enc: Encoding)
    requires Halving(collector, others + [batch], reports, groups, dropped, all, enc)
    requires !Encodes(collector, batch, enc) && |batch| == 1
    ensures Halving(collector, others, reports, groups, dropped + batch, all, enc)
  {
    AccountReported(others, batch, groups, dropped, all);
    OthersNotEmpty(others, batch);
    assert batch == [batch[0]];
  }

  lemma HalvingSplit(
    collector: string, others: seq<seq<Outcome>>, batch: seq<Outcome>, reports: seq<Report>, groups: seq<seq<Outcome>>,
    dropped: seq<Outcome>, all: multiset<Outcome>, enc: Encoding, half: nat)
    requires Halving(collector, others + [batch], reports, groups, dropped, all, enc)
    requires 0 < half < |batch|
    ensures Halving(collector, others + [batch[half..]] + [batch[..half]], reports, groups, dropped, all, enc)
  {
    OthersNotEmpty(others, batch);
    SplitBatch(others, batch, half);
    NoneEmptySplit(others, batch, half);
  }

  lemma OthersNotEmpty(others: seq<seq<Outcome>>, batch: seq<Outcome>)
    requires NoneEmpty(others + [batch])
    ensures NoneEmpty(others) && batch != []
  {
    forall i | 0 <= i < |others| ensures others[i] != [] {
      assert (others + [batch])[i] == others[i];
    }
    assert (others + [batch])[|others|] == batch;
  }

  /** Takes the batch last on the worklist: it is reported, halved, or dropped when it is a single
      outcome that does not fit. */
  method TakeBatch(collector: string, worklist: seq<seq<Outcome>>, made: seq<Report>, enc: Encoding,
                   ghost groups: seq<seq<Outcome>>, ghost dropped: seq<Outcome>, ghost all: multiset<Outcome>)
    returns (batches: seq<seq<Outcome>>, reports: seq<Report>,
             ghost groups': seq<seq<Outcome>>, ghost dropped': seq<Outcome>)
    requires worklist != [] && Halving(collector, worklist, made, groups, dropped, all, enc)
    ensures Halving(collector, batches, reports, groups', dropped', all, enc)
    ensures Work(batches) < Work(worklist)
  {
    var n := |worklist| - 1;
    var batch, others := worklist[n], worklist[..n];
    assert worklist == others + [batch];
    PushBatch(others, batch);
    batches, reports, groups', dropped' := others, made, groups, dropped;
    var report := Encode(collector, batch, enc);
    if report.Some? {
      HalvingReported(collector, others, batch, made, groups, dropped, all, enc);
      reports, groups' := made + [report.value], groups + [batch];
    } else if |batch| > 1 {
      var half := |batch| / 2;
      SplitBatch(others, batch, half);
      HalvingSplit(collector, others, batch, made, groups, dropped, all, enc, half);
      batches := others + [batch[half..]] + [batch[..half]];
    } else {
      OthersNotEmpty(others, batch);
      HalvingDropped(collector, others, batch, made, groups, dropped, all, enc);
      dropped' := dropped + batch;
    }
  }

  /** Encodes each batch, halving those that come out too large. */
  method Halve(collector: string, packed: seq<seq<Outcome>>, enc: Encoding)
    returns (reports: seq<Report>, ghost groups: seq<seq<Outcome>>, ghost dropped: seq<Outcome>)
    requires NoneEmpty(packed)
    ensures AreReports(collector, groups, reports, enc)
    ensures Bag(groups) + multiset(dropped) == Bag(packed)
    ensures NoneFits(collector, dropped, enc)
  {
    var batches := packed;
    reports, groups, dropped := [], [], [];
    while batches != []
      invariant Halving(collector, batches, reports, groups, dropped, Bag(packed), enc)
      decreases Work(batches)
    {
      batches, reports, groups, dropped := TakeBatch(collector, batches, reports, enc, groups, dropped, Bag(packed));
    }
    reports, groups := Reverse(reports, groups, collector, enc);
  }

  lemma {:induction false} ReversedBag(groups: seq<seq<Outcome>>, regrouped: seq<seq<Outcome>>)
    requires |regrouped| == |groups| && forall i | 0 <= i < |groups| :: regrouped[i] == groups[|groups| - 1 - i]
    ensures Bag(regrouped) == Bag(groups)
    decreases |groups|
  {
    if groups != [] {
      var n := |groups| - 1;
      BagFront(regrouped);
      ReversedBag(groups[..n], regrouped[1..]);
    }
  }

  lemma {:induction false} BagFront(batches: seq<seq<Outcome>>)
    requires batches != []
    ensures Bag(batches) == multiset(batches[0]) + Bag(batches[1..])
    decreases |batches|
  {
    var n := |batches| - 1;
    if n > 0 {
      BagFront(batches[..n]);
      assert batches[..n][1..] == batches[1..][..n - 1];
    } else {
      assert batches[..0] == [] && batches[1..] == [];
    }
  }

  method Reverse(reports: seq<Report>, ghost groups: seq<seq<Outcome>>, collector: string, enc: Encoding)
    returns (reversed: seq<Report>, ghost regrouped: seq<seq<Outcome>>)
    requires AreReports(collector, groups, reports, enc)
    ensures |reversed| == |reports| && forall i | 0 <= i < |reports| :: reversed[i] == reports[|reports| - 1 - i]
    ensures AreReports(collector, regrouped, reversed, enc)
    ensures Bag(regrouped) == Bag(groups)
  {
    reversed, regrouped := [], [];
    var i := |reports|;
    while i > 0
      invariant 0 <= i <= |reports| && |reversed| == |regrouped| == |reports| - i
      invariant forall j | 0 <= j < |reversed| :: reversed[j] == reports[|reports| - 1 - j]
      invariant forall j | 0 <= j < |regrouped| :: regrouped[j] == groups[|groups| - 1 - j]
      invariant AreReports(collector, regrouped, reversed, enc)
    {
      i := i - 1;
      ReportAt(collector, groups, reports, enc, i);
      ReportsAppend(collector, regrouped, reversed, groups[i], enc);
      reversed := reversed + [reports[i]];
      regrouped := regrouped + [groups[i]];
    }
    ReversedBag(groups, regrouped);
  }

  // ---------------------------------------------------------------- what the reports send

  function TargetLists(reports: seq<Report>): seq<seq<TargetStatus>> {
    seq(|reports|, i requires 0 <= i < |reports| => reports[i].targets)
  }

  function ResourceLists(reports: seq<Report>): seq<seq<string>> {
    seq(|reports|, i requires 0 <= i < |reports| => reports[i].resources)
  }

  /** Every status in some reports, and every switch, with how often. */
  ghost function StatusesSent(reports: seq<Report>): multiset<TargetStatus> {
    Bag(TargetLists(reports))
  }

  ghost function ResourcesSent(reports: seq<Report>): multiset<string> {
    Bag(ResourceLists(reports))
  }

  lemma SentLast(reports: seq<Report>, n: nat)
    requires n == |reports| - 1
    ensures StatusesSent(reports) == StatusesSent(reports[..n]) + multiset(reports[n].targets)
    ensures ResourcesSent(reports) == ResourcesSent(reports[..n]) + multiset(reports[n].resources)
  {
    assert TargetLists(reports)[..n] == TargetLists(reports[..n]);
    assert ResourceLists(reports)[..n] == ResourceLists(reports[..n]);
  }

  function StatusBag(): Outcome -> multiset<TargetStatus> {
    (o: Outcome) => multiset{StatusOf(o)}
  }

  function ResourceBag(): Outcome -> multiset<string> {
    (o: Outcome) => if o.poll.Reached? then multiset{o.poll.resource} else multiset{}
  }

  lemma BagsNext(outcomes: seq<Outcome>, n: nat)
    requires n == |outcomes| - 1
    ensures BagOf(StatusBag(), outcomes) == BagOf(StatusBag(), outcomes[..n]) + multiset{StatusOf(outcomes[n])}
    ensures BagOf(ResourceBag(), outcomes) == BagOf(ResourceBag(), outcomes[..n]) + ResourceBag()(outcomes[n])
  {
    assert outcomes == outcomes[..n] + [outcomes[n]];
    BagOfPush(StatusBag(), outcomes[..n], outcomes[n]);
    BagOfPush(ResourceBag(), outcomes[..n], outcomes[n]);
  }

  lemma StatusesNext(outcomes: seq<Outcome>, n: nat)
    requires n == |outcomes| - 1
    ensures multiset(Statuses(outcomes)) == multiset(Statuses(outcomes[..n])) + multiset{StatusOf(outcomes[n])}
  {
    assert Statuses(outcomes) == Statuses(outcomes[..n]) + [StatusOf(outcomes[n])];
  }

  lemma ResourcesNext(outcomes: seq<Outcome>, n: nat)
    requires n == |outcomes| - 1
    ensures multiset(Resources(outcomes)) == multiset(Resources(outcomes[..n])) + ResourceBag()(outcomes[n])
  {
  }

  lemma {:induction false} BagsOf(outcomes: seq<Outcome>)
    ensures multiset(Statuses(outcomes)) == BagOf(StatusBag(), outcomes)
    ensures multiset(Resources(outcomes)) == BagOf(ResourceBag(), outcomes)
    decreases |outcomes|
  {
    if outcomes != [] {
      var n := |outcomes| - 1;
      BagsOf(outcomes[..n]);
      BagsNext(outcomes, n);
      StatusesNext(outcomes, n);
      ResourcesNext(outcomes, n);
    }
  }

  lemma {:induction false} SentByGroups(
    collector: string, groups: seq<seq<Outcome>>, reports: seq<Report>, enc: Encoding)
    requires AreReports(collector, groups, reports, enc)
    ensures StatusesSent(reports) == BagOf(StatusBag(), Flatten(groups))
    ensures ResourcesSent(reports) == BagOf(ResourceBag(), Flatten(groups))
    decreases |groups|
  {
    if groups != [] {
      var n := |groups| - 1;
      SentByGroups(collector, groups[..n], reports[..n], enc);
      SentLast(reports, n);
      BagsOf(groups[n]);
      BagOfConcat(StatusBag(), Flatten(groups[..n]), groups[n]);
      BagOfConcat(ResourceBag(), Flatten(groups[..n]), groups[n]);
    }
  }

  lemma {:induction false} UnreadSendNothing(dropped: seq<Outcome>)
    requires forall i | 0 <= i < |dropped| :: dropped[i].poll.Unread?
    ensures BagOf(ResourceBag(), dropped) == multiset{}
    decreases |dropped|
  {
    if dropped != [] { UnreadSendNothing(dropped[1..]); }
  }

  /** A partition of the outcomes into groups and what was dropped sends each status and switch once. */
  lemma SentOnce(
    collector: string, groups: seq<seq<Outcome>>, reports: seq<Report>, dropped: seq<Outcome>, limited: seq<Outcome>,
    enc: Encoding)
    requires AreReports(collector, groups, reports, enc) && Bag(groups) + multiset(dropped) == multiset(limited)
    requires forall i | 0 <= i < |dropped| :: dropped[i].poll.Unread?
    ensures StatusesSent(reports) + multiset(Statuses(dropped)) == multiset(Statuses(limited))
    ensures ResourcesSent(reports) == multiset(Resources(limited))
  {
    var sent := Flatten(groups);
    BagFlatten(groups);
    SentByGroups(collector, groups, reports, enc);
    BagsOf(dropped);
    BagsOf(limited);
    UnreadSendNothing(dropped);
    assert multiset(sent + dropped) == multiset(limited);
    BagOfForgetsOrder(StatusBag(), sent + dropped, limited);
    BagOfForgetsOrder(ResourceBag(), sent + dropped, limited);
    BagOfConcat(StatusBag(), sent, dropped);
    BagOfConcat(ResourceBag(), sent, dropped);
  }

  // ---------------------------------------------------------------- each target once, and why

  lemma {:induction false} BagHas<T>(lists: seq<seq<T>>, g: nat, x: T)
    requires g < |lists| && x in lists[g]
    ensures Bag(lists)[x] >= multiset(lists[g])[x] >= 1
    decreases |lists|
  {
    var n := |lists| - 1;
    if g < n { BagHas(lists[..n], g, x); }
  }

  lemma {:induction false} BagHasTwice<T>(lists: seq<seq<T>>, g: nat, h: nat, x: T)
    requires g < h < |lists| && x in lists[g] && x in lists[h]
    ensures Bag(lists)[x] >= 2
    decreases |lists|
  {
    var n := |lists| - 1;
    if h < n { BagHasTwice(lists[..n], g, h, x); } else { BagHas(lists[..n], g, x); }
  }

  lemma {:induction false} BagFinds<T>(lists: seq<seq<T>>, x: T) returns (g: nat)
    requires x in Bag(lists)
    ensures g < |lists| && x in lists[g]
    decreases |lists|
  {
    var n := |lists| - 1;
    if x in multiset(lists[n]) {
      g := n;
    } else {
      g := BagFinds(lists[..n], x);
    }
  }

  ghost predicate DistinctAddresses(outcomes: seq<Outcome>) {
    forall i, j | 0 <= i < j < |outcomes| :: outcomes[i].address != outcomes[j].address
  }

  predicate At(reports: seq<Report>, r: nat, k: nat) {
    r < |reports| && k < |reports[r].targets|
  }

  /** The status stands at one place of one report, and its address at no other. */
  ghost predicate ReportedOnce(reports: seq<Report>, t: TargetStatus) {
    exists r: nat, k: nat ::
      && At(reports, r, k)
      && reports[r].targets[k] == t
      && forall q: nat, j: nat | At(reports, q, j) && reports[q].targets[j].address == t.address :: q == r && j == k
  }

  lemma TwicePlaced<T>(xs: seq<T>, i: nat, j: nat)
    requires i < j < |xs| && xs[i] == xs[j]
    ensures multiset(xs)[xs[i]] >= 2
  {
    assert xs == xs[..j] + [xs[j]] + xs[j + 1..];
    assert xs[i] in xs[..j];
  }

  lemma SentAt(reports: seq<Report>, r: nat, k: nat)
    requires At(reports, r, k)
    ensures reports[r].targets[k] in StatusesSent(reports)
  {
    assert TargetLists(reports)[r] == reports[r].targets;
    BagHas(TargetLists(reports), r, reports[r].targets[k]);
  }

  lemma SentTwice(reports: seq<Report>, r: nat, k: nat, q: nat, j: nat)
    requires At(reports, r, k) && At(reports, q, j) && (r != q || k != j)
    requires reports[r].targets[k] == reports[q].targets[j]
    ensures StatusesSent(reports)[reports[r].targets[k]] >= 2
  {
    var lists, t := TargetLists(reports), reports[r].targets[k];
    assert lists[r] == reports[r].targets && lists[q] == reports[q].targets;
    if r == q {
      TwicePlaced(lists[r], if k < j then k else j, if k < j then j else k);
      BagHas(lists, r, t);
    } else {
      BagHasTwice(lists, if r < q then r else q, if r < q then q else r, t);
    }
  }

  lemma {:induction false} NotAmong(outcomes: seq<Outcome>, t: TargetStatus)
    requires forall i | 0 <= i < |outcomes| :: outcomes[i].address != t.address
    ensures t !in multiset(Statuses(outcomes))
  {
    var statuses := Statuses(outcomes);
    assert forall i | 0 <= i < |statuses| :: statuses[i].address == outcomes[i].address;
  }

  lemma OnceEach(limited: seq<Outcome>, i: nat)
    requires DistinctAddresses(limited) && i < |limited|
    ensures multiset(Statuses(limited))[StatusOf(limited[i])] == 1
  {
    var t, front, back := StatusOf(limited[i]), limited[..i], limited[i + 1..];
    NotAmong(front, t);
    NotAmong(back, t);
    assert Statuses(limited) == Statuses(front) + [t] + Statuses(back);
  }

  lemma StatusFrom(reports: seq<Report>, limited: seq<Outcome>, r: nat, k: nat) returns (i: nat)
    requires StatusesSent(reports) <= multiset(Statuses(limited)) && At(reports, r, k)
    ensures i < |limited| && reports[r].targets[k] == StatusOf(limited[i])
  {
    SentAt(reports, r, k);
    var t := reports[r].targets[k];
    assert t in multiset(Statuses(limited));
    i :| 0 <= i < |Statuses(limited)| && Statuses(limited)[i] == t;
  }

  /** When every status is sent, a target whose address no other target has stands in exactly one
      report, at exactly one place. */
  lemma ExactlyOneReport(reports: seq<Report>, limited: seq<Outcome>, i: nat)
    requires StatusesSent(reports) == multiset(Statuses(limited)) && DistinctAddresses(limited) && i < |limited|
    ensures ReportedOnce(reports, StatusOf(limited[i]))
  {
    var t := StatusOf(limited[i]);
    OnceEach(limited, i);
    var r := BagFinds(TargetLists(reports), t);
    var k :| 0 <= k < |TargetLists(reports)[r]| && TargetLists(reports)[r][k] == t;
    assert At(reports, r, k) && reports[r].targets[k] == t;
    forall q: nat, j: nat | At(reports, q, j) && reports[q].targets[j].address == t.address ensures q == r && j == k {
      var m := StatusFrom(reports, limited, q, j);
      assert m == i;
      if q != r || j != k { SentTwice(reports, r, k, q, j); }
    }
  }

  /** Whether a target has to be reported as not reachable. */
  predicate Unusable(collector: string, o: Outcome, enc: Encoding) {
    o.poll.Unread? || !Encodes(collector, [o], enc)
  }

  /** A status is that of a polled target, and says unreachable exactly for the reasons it may; so
      does every other outcome of its address when addresses are distinct. */
  ghost predicate Explained(collector: string, t: TargetStatus, outcomes: seq<Outcome>, enc: Encoding) {
    && (exists i ::
          && 0 <= i < |outcomes| && outcomes[i].address == t.address
          && (!t.reachable <==> Unusable(collector, outcomes[i], enc)))
    && (DistinctAddresses(outcomes) ==>
          forall i | 0 <= i < |outcomes| && outcomes[i].address == t.address ::
            !t.reachable <==> Unusable(collector, outcomes[i], enc))
  }

  /** In reports of nothing but limited outcomes, a target is unreachable exactly when its poll failed
      or its switch alone does not fit a report. */
  lemma UnreadOnlyWithReason(
    collector: string, outcomes: seq<Outcome>, enc: Encoding, reports: seq<Report>, r: nat, k: nat)
    requires StatusesSent(reports) <= multiset(Statuses(Limited(collector, outcomes, enc))) && At(reports, r, k)
    ensures Explained(collector, reports[r].targets[k], outcomes, enc)
  {
    var t := reports[r].targets[k];
    var i := StatusFrom(reports, Limited(collector, outcomes, enc), r, k);
    assert Limited(collector, outcomes, enc)[i] == WithinLimit(collector, outcomes[i], enc);
    assert outcomes[i].address == t.address && (!t.reachable <==> Unusable(collector, outcomes[i], enc));
    if DistinctAddresses(outcomes) {
      forall j | 0 <= j < |outcomes| && outcomes[j].address == t.address
        ensures !t.reachable <==> Unusable(collector, outcomes[j], enc)
      {
        assert j == i;
      }
    }
  }

  // ---------------------------------------------------------------- nothing dropped

  /** The report of one unread target. */
  function UnreadAlone(collector: string, address: string, error: string): Report {
    Report(collector, [TargetStatus(address, false, Some(error))], [], false, false)
  }

  /** Six bytes are the most JSON takes for a character; beside the text of one unread target a report
      holds no more than the allowances made for its envelope and for the entry. */
  ghost predicate Plausible(enc: Encoding) {
    forall collector: string, address: string, error: string ::
      enc.report(UnreadAlone(collector, address, error)) <=
      REPORT_ENVELOPE_BYTES + TARGET_ENTRY_BYTES + 6 * (|collector| + |address| + |error|)
  }

  /** No report is shorter than one of a single unread target in it. */
  ghost predicate Monotone(enc: Encoding) {
    forall collector: string, batch: seq<Outcome>, i: nat | i < |batch| && batch[i].poll.Unread? ::
      enc.report(ReportOf(collector, [batch[i]])) <= enc.report(ReportOf(collector, batch))
  }

  /** What configuration checks promise of a poll: a short collector id and short addresses. */
  ghost predicate Configured(collector: string, outcomes: seq<Outcome>) {
    |collector| <= COLLECTOR_ID_MAX && forall i | 0 <= i < |outcomes| :: |outcomes[i].address| <= TARGET_ADDRESS_MAX
  }

  lemma AloneIs(collector: string, o: Outcome)
    requires o.poll.Unread?
    ensures ReportOf(collector, [o]) == UnreadAlone(collector, o.address, StatusOf(o).error.value)
    ensures |StatusOf(o).error.value| <= MAX_STRING_CHARS
  {
    assert Resources([o]) == [] && Statuses([o]) == [StatusOf(o)] && !AnyReached([o]);
  }

  lemma ShortFits(collector: string, address: string, error: string, enc: Encoding)
    requires Plausible(enc)
    requires |collector| <= COLLECTOR_ID_MAX && |address| <= TARGET_ADDRESS_MAX && |error| <= MAX_STRING_CHARS
    ensures enc.report(UnreadAlone(collector, address, error)) <= MAX_OBSERVATION_BYTES
  {
  }

  lemma UnreadFits(collector: string, o: Outcome, enc: Encoding)
    requires Plausible(enc) && o.poll.Unread? && |collector| <= COLLECTOR_ID_MAX && |o.address| <= TARGET_ADDRESS_MAX
    ensures Encodes(collector, [o], enc)
  {
    AloneIs(collector, o);
    ShortFits(collector, o.address, StatusOf(o).error.value, enc);
  }

  ghost predicate UnreadAllFit(collector: string, limited: seq<Outcome>, enc: Encoding) {
    forall i | 0 <= i < |limited| && limited[i].poll.Unread? :: Encodes(collector, [limited[i]], enc)
  }

  lemma ConfiguredFit(collector: string, outcomes: seq<Outcome>, enc: Encoding)
    requires Plausible(enc) && Configured(collector, outcomes)
    ensures UnreadAllFit(collector, Limited(collector, outcomes, enc), enc)
  {
    var limited := Limited(collector, outcomes, enc);
    forall i | 0 <= i < |limited| && limited[i].poll.Unread? ensures Encodes(collector, [limited[i]], enc) {
      assert limited[i].address == outcomes[i].address;
      UnreadFits(collector, limited[i], enc);
    }
  }

  lemma DroppedIs(
    collector: string, outcomes: seq<Outcome>, enc: Encoding, groups: seq<seq<Outcome>>, dropped: seq<Outcome>, i: nat)
    requires Bag(groups) + multiset(dropped) == multiset(Limited(collector, outcomes, enc))
    requires i < |dropped| && !Encodes(collector, [dropped[i]], enc)
    ensures dropped[i].poll.Unread? && !UnreadAllFit(collector, Limited(collector, outcomes, enc), enc)
  {
    var limited := Limited(collector, outcomes, enc);
    assert dropped[i] in multiset(dropped);
    assert dropped[i] in multiset(limited);
    var j :| 0 <= j < |limited| && limited[j] == dropped[i];
    assert limited[j] == WithinLimit(collector, outcomes[j], enc);
  }

  lemma KeptFits(
    collector: string, limited: seq<Outcome>, enc: Encoding, groups: seq<seq<Outcome>>, reports: seq<Report>)
    requires Monotone(enc) && AreReports(collector, groups, reports, enc) && Bag(groups) == multiset(limited)
    ensures UnreadAllFit(collector, limited, enc)
  {
    forall i | 0 <= i < |limited| && limited[i].poll.Unread? ensures Encodes(collector, [limited[i]], enc) {
      assert limited[i] in multiset(limited);
      var g := BagFinds(groups, limited[i]);
      var k :| 0 <= k < |groups[g]| && groups[g][k] == limited[i];
      ReportAt(collector, groups, reports, enc, g);
      assert enc.report(ReportOf(collector, [groups[g][k]])) <= enc.report(ReportOf(collector, groups[g]));
    }
  }

  // ---------------------------------------------------------------- the reports of a poll

  /** A switch too large for a report of its own is reported as unread, with that as its error. */
  lemma TooLargeIsSaid(collector: string, outcomes: seq<Outcome>, enc: Encoding, i: nat)
    requires i < |outcomes| && outcomes[i].poll.Reached?
    requires enc.report(ReportOf(collector, [outcomes[i]])) > 256_000
    ensures StatusOf(Limited(collector, outcomes, enc)[i]) ==
            TargetStatus(outcomes[i].address, false, Some("the switch's report exceeds 256000 bytes"))
  {
    assert |TOO_LARGE| == 40;
  }

  predicate FitsAlone(collector: string, o: Outcome, enc: Encoding) {
    enc.report(ReportOf(collector, [o])) <= 256_000
  }

  /** A switch that fits a report alone is sent. */
  lemma FittingSent(collector: string, outcomes: seq<Outcome>, enc: Encoding, reports: seq<Report>)
    requires ResourcesSent(reports) == multiset(Resources(Limited(collector, outcomes, enc)))
    ensures forall i | 0 <= i < |outcomes| && outcomes[i].poll.Reached? && FitsAlone(collector, outcomes[i], enc) ::
              outcomes[i].poll.resource in ResourcesSent(reports)
  {
    var limited := Limited(collector, outcomes, enc);
    forall i | 0 <= i < |outcomes| && outcomes[i].poll.Reached? && FitsAlone(collector, outcomes[i], enc)
      ensures outcomes[i].poll.resource in ResourcesSent(reports)
    {
      assert limited[i] == outcomes[i];
      ResourcesTold(limited, outcomes[i].poll.resource);
    }
  }

  // ---------------------------------------------------------------- what the budget is for

  /** An encoding in which a target adds no more than its switch or error, its address and ninety-six
      bytes, to an envelope of a kibibyte. */
  ghost predicate Thrifty(enc: Encoding) {
    && (forall collector :: enc.report(ReportOf(collector, [])) <= 1_024)
    && (forall collector: string, batch: seq<Outcome>, o: Outcome ::
          enc.report(ReportOf(collector, batch + [o])) <=
          enc.report(ReportOf(collector, batch)) + |o.address| + 96
          + (match o.poll case Reached(resource, _) => enc.resource(resource) case Unread(error) => |error|))
  }

  lemma {:induction false} ThriftyBatch(collector: string, batch: seq<Outcome>, enc: Encoding)
    requires Thrifty(enc)
    ensures enc.report(ReportOf(collector, batch)) <= 1_024 + BatchSize(batch, enc)
    decreases |batch|
  {
    if batch != [] {
      var n := |batch| - 1;
      ThriftyBatch(collector, batch[..n], enc);
      assert batch == batch[..n] + [batch[n]];
    }
  }

  /** Under such an encoding no packed batch of several targets is ever too large. */
  lemma NothingToHalve(collector: string, batches: seq<seq<Outcome>>, enc: Encoding, i: nat)
    requires Thrifty(enc) && Greedy(batches, enc) && i < |batches| && |batches[i]| > 1
    ensures Encodes(collector, batches[i], enc)
  {
    ThriftyBatch(collector, batches[i], enc);
  }

  // ---------------------------------------------------------------- all reports

  /** The reports of a poll. Each limited outcome is in exactly one of them, except an unread one
      that does not fit a report even alone, which no configured poll has. */
  method Reports(collector: string, outcomes: seq<Outcome>, enc: Encoding)
    returns (reports: seq<Report>, ghost groups: seq<seq<Outcome>>, ghost dropped: seq<Outcome>)
    ensures AreReports(collector, groups, reports, enc)
    ensures Bag(groups) + multiset(dropped) == multiset(Limited(collector, outcomes, enc))
    // what each report says of its group, its sections included
    ensures |groups| == |reports| && forall i | 0 <= i < |reports| :: Told(collector, groups[i], reports[i])
    // what is sent: every report within the limit, every status once but those dropped, every switch once
    ensures forall i | 0 <= i < |reports| :: enc.report(reports[i]) <= 256_000
    ensures StatusesSent(reports) + multiset(Statuses(dropped)) == multiset(Statuses(Limited(collector, outcomes, enc)))
    ensures ResourcesSent(reports) == multiset(Resources(Limited(collector, outcomes, enc)))
    ensures forall i | 0 <= i < |outcomes| && outcomes[i].poll.Reached? && FitsAlone(collector, outcomes[i], enc) ::
              outcomes[i].poll.resource in ResourcesSent(reports)
    // who is unreachable
    ensures forall r: nat, k: nat | At(reports, r, k) :: Explained(collector, reports[r].targets[k], outcomes, enc)
    // what is dropped, and when nothing is
    ensures forall i | 0 <= i < |dropped| :: dropped[i].poll.Unread? && !Encodes(collector, [dropped[i]], enc)
    ensures UnreadAllFit(collector, Limited(collector, outcomes, enc), enc) ==> dropped == []
    ensures Monotone(enc) && dropped == [] ==> UnreadAllFit(collector, Limited(collector, outcomes, enc), enc)
    ensures Plausible(enc) && Configured(collector, outcomes) ==> dropped == []
    // so each target stands in exactly one report
    ensures DistinctAddresses(outcomes) && dropped == [] ==>
              forall i | 0 <= i < |outcomes| :: ReportedOnce(reports, StatusOf(Limited(collector, outcomes, enc)[i]))
  {
    var batches := Pack(collector, outcomes, enc);
    BagFlatten(batches);
    reports, groups, dropped := Halve(collector, batches, enc);
    ghost var limited := Limited(collector, outcomes, enc);
    forall i | 0 <= i < |dropped| ensures dropped[i].poll.Unread? && !UnreadAllFit(collector, limited, enc) {
      DroppedIs(collector, outcomes, enc, groups, dropped, i);
    }
    SentOnce(collector, groups, reports, dropped, limited, enc);
    ReportsWithin(collector, groups, reports, enc);
    forall i | 0 <= i < |reports| ensures Told(collector, groups[i], reports[i]) {
      ReportAt(collector, groups, reports, enc, i);
      ReportTells(collector, groups[i]);
    }
    FittingSent(collector, outcomes, enc, reports);
    AllExplained(collector, outcomes, enc, reports);
    if dropped != [] { assert !UnreadAllFit(collector, limited, enc); }
    if Monotone(enc) && dropped == [] { KeptFits(collector, limited, enc, groups, reports); }
    if Plausible(enc) && Configured(collector, outcomes) { ConfiguredFit(collector, outcomes, enc); }
    if DistinctAddresses(outcomes) && dropped == [] { AllReportedOnce(collector, outcomes, enc, reports); }
  }

  lemma ReportsWithin(collector: string, groups: seq<seq<Outcome>>, reports: seq<Report>, enc: Encoding)
    requires AreReports(collector, groups, reports, enc)
    ensures forall i | 0 <= i < |reports| :: enc.report(reports[i]) <= MAX_OBSERVATION_BYTES
  {
    forall i | 0 <= i < |reports| ensures enc.report(reports[i]) <= MAX_OBSERVATION_BYTES {
      ReportAt(collector, groups, reports, enc, i);
    }
  }

  lemma AllExplained(collector: string, outcomes: seq<Outcome>, enc: Encoding, reports: seq<Report>)
    requires StatusesSent(reports) <= multiset(Statuses(Limited(collector, outcomes, enc)))
    ensures forall r: nat, k: nat | At(reports, r, k) :: Explained(collector, reports[r].targets[k], outcomes, enc)
  {
    forall r: nat, k: nat | At(reports, r, k) ensures Explained(collector, reports[r].targets[k], outcomes, enc) {
      UnreadOnlyWithReason(collector, outcomes, enc, reports, r, k);
    }
  }

  lemma AllReportedOnce(collector: string, outcomes: seq<Outcome>, enc: Encoding, reports: seq<Report>)
    requires DistinctAddresses(outcomes)
    requires StatusesSent(reports) == multiset(Statuses(Limited(collector, outcomes, enc)))
    ensures forall i | 0 <= i < |outcomes| :: ReportedOnce(reports, StatusOf(Limited(collector, outcomes, enc)[i]))
  {
    var limited := Limited(collector, outcomes, enc);
    assert forall i | 0 <= i < |outcomes| :: limited[i].address == outcomes[i].address;
    forall i | 0 <= i < |outcomes| ensures ReportedOnce(reports, StatusOf(limited[i])) {
      ExactlyOneReport(reports, limited, i);
    }
  }
}
