/** Sequences of queued entries: sorting, ageing, removal, and the tally of departures. */
module EntryLists {
  import opened Options

  /** One queued payload. Its file name carries the number, the second it was queued and an id. */
  datatype Entry = Entry(sequence: nat, queuedAt: nat, id: string, body: seq<bv8>)

  const NANOS := 1_000_000_000

  /** Delivery order: by number, and no entry twice. */
  ghost predicate Sorted(dir: seq<Entry>) {
    forall i, j | 0 <= i < j < |dir| :: dir[i].sequence <= dir[j].sequence && dir[i] != dir[j]
  }

  function TotalBytes(dir: seq<Entry>): nat {
    if dir == [] then 0 else |dir[0].body| + TotalBytes(dir[1..])
  }

  /** The bytes of nothing, and of one entry; with `TotalBytesAppend` those of any directory. */
  lemma TotalBytesOne(e: Entry)
    ensures TotalBytes([]) == 0 && TotalBytes([e]) == |e.body|
  {
    assert [e][1..] == [];
  }

  lemma {:induction false} TotalBytesAppend(a: seq<Entry>, b: seq<Entry>)
    ensures TotalBytes(a + b) == TotalBytes(a) + TotalBytes(b)
    decreases |a|
  {
    if a == [] {
      assert a + b == b;
    } else {
      assert (a + b)[1..] == a[1..] + b;
      TotalBytesAppend(a[1..], b);
    }
  }

  // ---------------------------------------------------------------- age

  /** Queued more than `maxAge` nanoseconds before `now`; never, if `now` is before the queueing. */
  predicate Old(e: Entry, now: int, maxAge: nat) {
    now - e.queuedAt * NANOS > maxAge
  }

  /** The entries past the age limit, and those that are not, each in order. */
  function Aged(dir: seq<Entry>, now: int, maxAge: nat): seq<Entry> {
    if dir == [] then []
    else (if Old(dir[0], now, maxAge) then [dir[0]] else []) + Aged(dir[1..], now, maxAge)
  }

  function Current(dir: seq<Entry>, now: int, maxAge: nat): seq<Entry> {
    if dir == [] then []
    else (if Old(dir[0], now, maxAge) then [] else [dir[0]]) + Current(dir[1..], now, maxAge)
  }

  lemma {:induction false} AgedIn(dir: seq<Entry>, now: int, maxAge: nat)
    requires Sorted(dir)
    ensures forall e :: e in Aged(dir, now, maxAge) <==> e in dir && Old(e, now, maxAge)
    ensures Sorted(Aged(dir, now, maxAge))
  {
    if dir != [] {
      AgedIn(dir[1..], now, maxAge);
      assert dir == [dir[0]] + dir[1..];
      var rest := Aged(dir[1..], now, maxAge);
      forall i | 0 <= i < |rest| ensures dir[0].sequence <= rest[i].sequence && dir[0] != rest[i] {
        assert rest[i] in dir[1..];
      }
    }
  }

  /** What is not too old was queued at most `maxAge` nanoseconds before `now`, or after it. */
  lemma {:induction false} NotTooOld(dir: seq<Entry>, now: int, maxAge: nat)
    ensures forall e :: e in Current(dir, now, maxAge) <==> e in dir && now - e.queuedAt * 1_000_000_000 <= maxAge
  {
    if dir != [] {
      NotTooOld(dir[1..], now, maxAge);
      assert dir == [dir[0]] + dir[1..];
    }
  }

  lemma {:induction false} TooOld(dir: seq<Entry>, now: int, maxAge: nat)
    ensures forall e :: e in Aged(dir, now, maxAge) <==> e in dir && now - e.queuedAt * 1_000_000_000 > maxAge
  {
    if dir != [] {
      TooOld(dir[1..], now, maxAge);
      assert dir == [dir[0]] + dir[1..];
    }
  }

  // ---------------------------------------------------------------- removal

  function Without(dir: seq<Entry>, gone: set<Entry>): seq<Entry> {
    if dir == [] then []
    else (if dir[0] in gone then [] else [dir[0]]) + Without(dir[1..], gone)
  }

  lemma {:induction false} WithoutNone(dir: seq<Entry>)
    ensures Without(dir, {}) == dir
  {
    if dir != [] { WithoutNone(dir[1..]); }
  }

  lemma {:induction false} InWithout(dir: seq<Entry>, gone: set<Entry>, e: Entry)
    ensures e in Without(dir, gone) <==> e in dir && e !in gone
  {
    if dir != [] {
      InWithout(dir[1..], gone, e);
      assert dir == [dir[0]] + dir[1..];
    }
  }

  lemma {:induction false} WithoutTwice(dir: seq<Entry>, gone: set<Entry>, e: Entry)
    ensures Without(Without(dir, gone), {e}) == Without(dir, gone + {e})
  {
    if dir != [] {
      var rest := Without(dir[1..], gone);
      WithoutTwice(dir[1..], gone, e);
      if dir[0] in gone {
        assert Without(dir, gone) == rest;
      } else {
        assert Without(dir, gone)[1..] == rest;
      }
    }
  }

  ghost function AsSet(s: seq<Entry>): set<Entry> {
    set e | e in s
  }

  lemma AsSetNext(s: seq<Entry>, i: nat)
    requires i < |s|
    ensures AsSet(s[..i + 1]) == AsSet(s[..i]) + {s[i]}
    ensures Sorted(s) ==> s[i] !in s[..i]
  {
    assert s[..i + 1] == s[..i] + [s[i]];
  }

  lemma WithoutAged(dir: seq<Entry>, now: int, maxAge: nat)
    ensures Without(dir, AsSet(Aged(dir, now, maxAge))) == Current(dir, now, maxAge)
  {
    AgedMembers(dir, now, maxAge);
    WithoutOld(dir, AsSet(Aged(dir, now, maxAge)), now, maxAge);
  }

  lemma {:induction false} AgedMembers(dir: seq<Entry>, now: int, maxAge: nat)
    ensures forall e :: e in Aged(dir, now, maxAge) <==> e in dir && Old(e, now, maxAge)
  {
    if dir != [] {
      AgedMembers(dir[1..], now, maxAge);
      assert dir == [dir[0]] + dir[1..];
    }
  }

  lemma {:induction false} WithoutOld(dir: seq<Entry>, gone: set<Entry>, now: int, maxAge: nat)
    requires forall e | e in dir :: e in gone <==> Old(e, now, maxAge)
    ensures Without(dir, gone) == Current(dir, now, maxAge)
  {
    if dir != [] { WithoutOld(dir[1..], gone, now, maxAge); }
  }

  /** Removing one entry of a sorted directory takes out exactly that position. */
  lemma {:induction false} WithoutAt(dir: seq<Entry>, k: nat)
    requires Sorted(dir) && k < |dir|
    ensures Without(dir, {dir[k]}) == dir[..k] + dir[k + 1..]
  {
    if k == 0 {
      WithoutMissing(dir[1..], dir[0]);
    } else {
      assert dir[1..][k - 1] == dir[k];
      WithoutAt(dir[1..], k - 1);
      assert dir[..k] == [dir[0]] + dir[1..][..k - 1];
      assert dir[1..][k - 1 + 1..] == dir[k + 1..];
    }
  }

  lemma {:induction false} WithoutMissing(dir: seq<Entry>, e: Entry)
    requires e !in dir
    ensures Without(dir, {e}) == dir
  {
    if dir != [] { WithoutMissing(dir[1..], e); }
  }

  lemma SplicedSorted(dir: seq<Entry>, k: nat)
    requires Sorted(dir) && k < |dir|
    ensures Sorted(dir[..k] + dir[k + 1..])
  {
    var after := dir[..k] + dir[k + 1..];
    forall i, j | 0 <= i < j < |after|
      ensures after[i].sequence <= after[j].sequence && after[i] != after[j]
    {
      var p, q := if i < k then i else i + 1, if j < k then j else j + 1;
      assert after[i] == dir[p] && after[j] == dir[q] && p < q;
    }
  }

  lemma SplicedMultiset(dir: seq<Entry>, k: nat)
    requires k < |dir|
    ensures multiset(dir) == multiset(dir[..k] + dir[k + 1..]) + multiset{dir[k]}
  {
    var a, b, e := dir[..k], dir[k + 1..], dir[k];
    calc {
      multiset(dir);
      { assert dir == a + [e] + b; }
      multiset(a + [e] + b);
      multiset(a) + multiset([e]) + multiset(b);
      multiset(a + b) + multiset{e};
    }
  }

  // ---------------------------------------------------------------- departures

  datatype Reason = Accept | DroppedForSpace | Expired | Rejected | Unreadable

  datatype Departure = Departure(entry: Entry, reason: Reason)

  datatype Counters = Counters(
    droppedForSpace: nat, expired: nat, rejected: nat, unreadable: nat, droppedRange: Option<(nat, nat)>)

  const NO_COUNTERS := Counters(0, 0, 0, 0, None)

  function Entries(departed: seq<Departure>): seq<Entry> {
    seq(|departed|, i requires 0 <= i < |departed| => departed[i].entry)
  }

  lemma EntriesAppend(departed: seq<Departure>, d: Departure)
    ensures Entries(departed + [d]) == Entries(departed) + [d.entry]
  {
  }

  function Widened(range: Option<(nat, nat)>, at: nat): Option<(nat, nat)> {
    match range
    case None => Some((at, at))
    case Some((lo, hi)) => Some((if at < lo then at else lo, if at > hi then at else hi))
  }

  function Noted(c: Counters, d: Departure): Counters {
    match d.reason
    case Accept => c
    case DroppedForSpace =>
      c.(droppedForSpace := c.droppedForSpace + 1, droppedRange := Widened(c.droppedRange, d.entry.queuedAt))
    case Expired => c.(expired := c.expired + 1, droppedRange := Widened(c.droppedRange, d.entry.queuedAt))
    case Rejected => c.(rejected := c.rejected + 1)
    case Unreadable => c.(unreadable := c.unreadable + 1)
  }

  function Reasons(departed: seq<Departure>): seq<Reason> {
    seq(|departed|, i requires 0 <= i < |departed| => departed[i].reason)
  }

  /** How many departures had a reason. */
  ghost function Count(departed: seq<Departure>, reason: Reason): nat {
    multiset(Reasons(departed))[reason]
  }

  predicate Lost(d: Departure) {
    d.reason.DroppedForSpace? || d.reason.Expired?
  }

  /** `range` spans exactly the queue times of the lost entries: both its ends occur among them. */
  ghost predicate IsRange(departed: seq<Departure>, range: Option<(nat, nat)>) {
    match range
    case None => forall d | d in departed :: !Lost(d)
    case Some((lo, hi)) =>
      && (forall d | d in departed && Lost(d) :: lo <= d.entry.queuedAt <= hi)
      && (exists d :: d in departed && Lost(d) && d.entry.queuedAt == lo)
      && (exists d :: d in departed && Lost(d) && d.entry.queuedAt == hi)
  }

  /** The counters say exactly what left and why. */
  ghost predicate Counted(departed: seq<Departure>, c: Counters) {
    && c.droppedForSpace == Count(departed, DroppedForSpace)
    && c.expired == Count(departed, Expired)
    && c.rejected == Count(departed, Rejected)
    && c.unreadable == Count(departed, Unreadable)
    && IsRange(departed, c.droppedRange)
  }

  lemma CountAppend(departed: seq<Departure>, d: Departure, reason: Reason)
    ensures Count(departed + [d], reason) == Count(departed, reason) + if d.reason == reason then 1 else 0
  {
    assert Reasons(departed + [d]) == Reasons(departed) + [d.reason];
  }

  lemma RangeAppend(departed: seq<Departure>, range: Option<(nat, nat)>, d: Departure)
    requires IsRange(departed, range)
    ensures IsRange(departed + [d], if Lost(d) then Widened(range, d.entry.queuedAt) else range)
  {
    var more := departed + [d];
    assert d in more;
    assert forall x | x in departed :: x in more;
    assert forall x | x in more :: x in departed || x == d;
    if range.Some? {
      var (lo, hi) := range.value;
      var first :| first in departed && Lost(first) && first.entry.queuedAt == lo;
      var last :| last in departed && Lost(last) && last.entry.queuedAt == hi;
      assert first in more && last in more;
    }
  }

  lemma CountDeparture(departed: seq<Departure>, c: Counters, d: Departure)
    requires Counted(departed, c)
    ensures Counted(departed + [d], Noted(c, d))
  {
    CountAppend(departed, d, DroppedForSpace);
    CountAppend(departed, d, Expired);
    CountAppend(departed, d, Rejected);
    CountAppend(departed, d, Unreadable);
    RangeAppend(departed, c.droppedRange, d);
  }

  /** Everything that left since `before` left for `reason`. */
  ghost predicate LeftFor(before: seq<Departure>, after: seq<Departure>, reason: Reason) {
    before <= after && forall i | |before| <= i < |after| :: after[i].reason == reason
  }

  /** Everything that left since `before` was dropped for its age or for space. */
  ghost predicate LeftForRoom(before: seq<Departure>, after: seq<Departure>) {
    before <= after && forall i | |before| <= i < |after| :: Lost(after[i])
  }

  // ---------------------------------------------------------------- history

  /** What an entry's file name says. */
  function NameOf(e: Entry): (nat, nat, string) {
    (e.sequence, e.queuedAt, e.id)
  }

  /** Each entry arrives once, and no two under one name. */
  ghost predicate Distinct(arrived: multiset<Entry>) {
    && (forall e | e in arrived :: arrived[e] == 1)
    && (forall a, b | a in arrived && b in arrived && NameOf(a) == NameOf(b) :: a == b)
  }

  ghost predicate DistinctIds(arrived: multiset<Entry>) {
    forall a, b | a in arrived && b in arrived && a.id == b.id :: a == b
  }

  ghost predicate NonDecreasing(taken: seq<Entry>) {
    var n := |taken|;
    n < 2 || (taken[n - 2].sequence <= taken[n - 1].sequence && NonDecreasing(taken[..n - 1]))
  }

  /** An entry taken again was taken with nothing else in between. */
  ghost predicate Repeats(taken: seq<Entry>) {
    var n := |taken|;
    n < 2 || (Repeats(taken[..n - 1]) && (taken[n - 1] in taken[..n - 1] ==> taken[n - 1] == taken[n - 2]))
  }

  lemma {:induction false} NonDecreasingPairs(taken: seq<Entry>, i: nat, j: nat)
    requires NonDecreasing(taken) && i <= j < |taken|
    ensures taken[i].sequence <= taken[j].sequence
    decreases |taken|
  {
    if i < j {
      NonDecreasingPairs(taken[..|taken| - 1], i, j - 1 + if j == |taken| - 1 then 0 else 1);
    }
  }

  lemma {:induction false} RepeatsPairs(taken: seq<Entry>, i: nat, j: nat, k: nat)
    requires Repeats(taken) && i <= j <= k < |taken| && taken[i] == taken[k]
    ensures taken[j] == taken[i]
    decreases |taken|
  {
    var n := |taken|;
    if i < k {
      var before := taken[..n - 1];
      if k < n - 1 {
        RepeatsPairs(before, i, j, k);
      } else if j < k {
        assert before[i] == taken[n - 1];
        RepeatsPairs(before, i, j, n - 2);
      }
    }
  }
}
