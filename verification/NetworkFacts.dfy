/** Network facts from two kernel dumps (agent/src/collectors/network_facts.rs): joining the dumps
    into a normalized sample, and publishing a sample only when two in a row agree.
 */
module NetworkFacts {
  import opened Options
  import opened Ordering

  /** A dump or sample; a race that the kernel or the join detected is worth another attempt. */
  datatype Io<+T> = Got(value: T) | Interrupted | Failed

  const MAX_ATTEMPTS: nat := 5
  const MAX_INTERFACES: nat := 4096
  const MAX_ADDRESSES: nat := 16384

  datatype Ip = V4(bits: nat) | V6(bits: nat)

  datatype Family = Ipv4 | Ipv6

  datatype Address = Address(ip: Ip, prefix: nat, family: Family)

  datatype Interface = Interface(
    name: string, index: nat, mac: Option<string>, mtu: Option<nat>,
    up: bool, running: bool, loopback: bool, addresses: seq<Address>)

  datatype RawInterface = RawInterface(
    name: string, index: nat, mac: Option<string>, mtu: nat, up: bool, running: bool, loopback: bool)

  datatype RawAddress = RawAddress(index: nat, address: Address)

  // ---------------------------------------------------------------- order of records, field by field

  function AddressKey(a: Address): seq<int> {
    [if a.ip.V4? then 0 else 1, a.ip.bits, a.prefix, if a.family.Ipv4? then 0 else 1]
  }

  predicate AddressLeq(a: Address, b: Address) {
    SeqLeq(IntLeq, AddressKey(a), AddressKey(b))
  }

  lemma AddressKeyInjective(a: Address, b: Address)
    requires AddressKey(a) == AddressKey(b)
    ensures a == b
  {
    assert AddressKey(a)[0] == AddressKey(b)[0] && AddressKey(a)[1] == AddressKey(b)[1];
    assert AddressKey(a)[2] == AddressKey(b)[2] && AddressKey(a)[3] == AddressKey(b)[3];
  }

  lemma AddressOrder()
    ensures TotalOrder(AddressLeq)
  {
    SeqOrder(IntLeq);
    var lex := (a: seq<int>, b: seq<int>) => SeqLeq(IntLeq, a, b);
    forall a, b | AddressKey(a) == AddressKey(b) ensures a == b {
      AddressKeyInjective(a, b);
    }
    KeyOrder(lex, AddressKey);
    SameOrder((a: Address, b: Address) => lex(AddressKey(a), AddressKey(b)), AddressLeq);
  }

  function Bit(b: bool): int {
    if b then 1 else 0
  }

  /** A missing value comes before any value. */
  function AsSeq<T>(o: Option<T>): seq<T> {
    if o.Some? then [o.value] else []
  }

  type InterfaceKeys = (string, (int, (seq<string>, (seq<int>, seq<Address>))))

  function InterfaceKey(i: Interface): InterfaceKeys {
    (i.name, (i.index, (AsSeq(i.mac),
      (AsSeq(i.mtu) + [-1, Bit(i.up), Bit(i.running), Bit(i.loopback)], i.addresses))))
  }

  lemma InterfaceKeyInjective(i: Interface, j: Interface)
    requires InterfaceKey(i) == InterfaceKey(j)
    ensures i == j
  {
    var x, y := InterfaceKey(i).1.1.1.0, InterfaceKey(j).1.1.1.0;
    assert |x| == 4 + |AsSeq(i.mtu)| && |y| == 4 + |AsSeq(j.mtu)|;
    assert i.mtu.Some? ==> x[0] == i.mtu.value;
    assert j.mtu.Some? ==> y[0] == j.mtu.value;
    var k := |x|;
    assert x[k - 3] == Bit(i.up) && y[k - 3] == Bit(j.up);
    assert x[k - 2] == Bit(i.running) && y[k - 2] == Bit(j.running);
    assert x[k - 1] == Bit(i.loopback) && y[k - 1] == Bit(j.loopback);
    assert i.mac.Some? ==> AsSeq(i.mac)[0] == i.mac.value;
    assert j.mac.Some? ==> AsSeq(j.mac)[0] == j.mac.value;
  }

  predicate AddressesLeq(a: seq<Address>, b: seq<Address>) {
    SeqLeq(AddressLeq, a, b)
  }

  predicate StringsLeq(a: seq<string>, b: seq<string>) {
    SeqLeq(StringLeq, a, b)
  }

  predicate IntsLeq(a: seq<int>, b: seq<int>) {
    SeqLeq(IntLeq, a, b)
  }

  predicate TailLeq(a: (seq<int>, seq<Address>), b: (seq<int>, seq<Address>)) {
    PairLeq(IntsLeq, AddressesLeq, a, b)
  }

  predicate MacLeq(a: (seq<string>, (seq<int>, seq<Address>)), b: (seq<string>, (seq<int>, seq<Address>))) {
    PairLeq(StringsLeq, TailLeq, a, b)
  }

  predicate IndexLeq(
    a: (int, (seq<string>, (seq<int>, seq<Address>))), b: (int, (seq<string>, (seq<int>, seq<Address>))))
  {
    PairLeq(IntLeq, MacLeq, a, b)
  }

  predicate KeysLeq(a: InterfaceKeys, b: InterfaceKeys) {
    PairLeq(StringLeq, IndexLeq, a, b)
  }

  /** By name, then index, hardware address, mtu, flags and addresses. */
  predicate InterfaceLeq(a: Interface, b: Interface) {
    KeysLeq(InterfaceKey(a), InterfaceKey(b))
  }

  lemma SameOrder<T(!new)>(p: (T, T) -> bool, q: (T, T) -> bool)
    requires TotalOrder(p) && forall x, y :: q(x, y) == p(x, y)
    ensures TotalOrder(q)
  {
  }

  lemma PartOrders()
    ensures TotalOrder(TailLeq) && TotalOrder(StringsLeq)
  {
    AddressOrder();
    SeqOrder(AddressLeq);
    SameOrder((a: seq<Address>, b: seq<Address>) => SeqLeq(AddressLeq, a, b), AddressesLeq);
    SeqOrder(IntLeq);
    SameOrder((a: seq<int>, b: seq<int>) => SeqLeq(IntLeq, a, b), IntsLeq);
    PairOrder(IntsLeq, AddressesLeq);
    SameOrder((a: (seq<int>, seq<Address>), b: (seq<int>, seq<Address>)) => PairLeq(IntsLeq, AddressesLeq, a, b),
              TailLeq);
    StringOrder();
    SeqOrder(StringLeq);
    SameOrder((a: seq<string>, b: seq<string>) => SeqLeq(StringLeq, a, b), StringsLeq);
  }

  lemma KeysOrder()
    ensures TotalOrder(KeysLeq)
  {
    PartOrders();
    PairOrder(StringsLeq, TailLeq);
    SameOrder((a, b) => PairLeq(StringsLeq, TailLeq, a, b), MacLeq);
    PairOrder(IntLeq, MacLeq);
    SameOrder((a, b) => PairLeq(IntLeq, MacLeq, a, b), IndexLeq);
    StringOrder();
    PairOrder(StringLeq, IndexLeq);
    SameOrder((a, b) => PairLeq(StringLeq, IndexLeq, a, b), KeysLeq);
  }

  lemma InterfaceOrder()
    ensures TotalOrder(InterfaceLeq)
  {
    KeysOrder();
    forall i, j | InterfaceKey(i) == InterfaceKey(j) ensures i == j { InterfaceKeyInjective(i, j); }
    KeyOrder(KeysLeq, InterfaceKey);
    SameOrder((a, b) => KeysLeq(InterfaceKey(a), InterfaceKey(b)), InterfaceLeq);
  }

  // ---------------------------------------------------------------- joining two dumps

  const NO_MAC := "00:00:00:00:00:00"

  function Build(raw: RawInterface, addresses: seq<Address>): Interface {
    Interface(
      raw.name, raw.index,
      if raw.mac == Some(NO_MAC) then None else raw.mac,
      if raw.mtu == 0 then None else Some(raw.mtu),
      raw.up, raw.running, raw.loopback, addresses)
  }

  /** The addresses dumped for an index, in dump order. */
  function AddressesOf(dump: seq<RawAddress>, index: nat): seq<Address> {
    if dump == [] then []
    else
      var n := |dump| - 1;
      AddressesOf(dump[..n], index) + if dump[n].index == index then [dump[n].address] else []
  }

  function Indices(interfaces: seq<RawInterface>): set<nat> {
    set i | 0 <= i < |interfaces| :: interfaces[i].index
  }

  function AddressIndices(dump: seq<RawAddress>): set<nat> {
    set i | 0 <= i < |dump| :: dump[i].index
  }

  /** The first interface of an index takes its addresses. */
  function Claimed(interfaces: seq<RawInterface>, j: nat, dump: seq<RawAddress>): seq<Address>
    requires j < |interfaces|
  {
    if interfaces[j].index in Indices(interfaces[..j]) then [] else AddressesOf(dump, interfaces[j].index)
  }

  function JoinedAt(interfaces: seq<RawInterface>, dump: seq<RawAddress>, j: nat): Interface
    requires j < |interfaces|
  {
    Build(interfaces[j], Sort(AddressLeq, Claimed(interfaces, j, dump)))
  }

  function Joined(interfaces: seq<RawInterface>, dump: seq<RawAddress>): seq<Interface> {
    seq(|interfaces|, j requires 0 <= j < |interfaces| => JoinedAt(interfaces, dump, j))
  }

  /** One sample: the two dumps joined and normalized. An address of an unknown interface means the
      interface went away between the dumps. */
  function SampleOf(interfaces: Io<seq<RawInterface>>, dump: Io<seq<RawAddress>>): Io<seq<Interface>> {
    match interfaces
    case Interrupted => Interrupted
    case Failed => Failed
    case Got(raw) =>
      if |raw| > MAX_INTERFACES then Failed
      else match dump
           case Interrupted => Interrupted
           case Failed => Failed
           case Got(addresses) =>
             if |addresses| > MAX_ADDRESSES then Failed
             else if !(AddressIndices(addresses) <= Indices(raw)) then Interrupted
             else Got(Sort(InterfaceLeq, Joined(raw, addresses)))
  }

  method Group(dump: seq<RawAddress>) returns (groups: map<nat, seq<Address>>)
    ensures groups.Keys == AddressIndices(dump)
    ensures forall x | x in groups :: groups[x] == AddressesOf(dump, x)
  {
    groups := map[];
    var k := 0;
    while k < |dump|
      invariant 0 <= k <= |dump|
      invariant groups.Keys == AddressIndices(dump[..k])
      invariant forall x | x in groups :: groups[x] == AddressesOf(dump[..k], x)
    {
      var a := dump[k];
      NextAddress(dump, k);
      var entry := if a.index in groups then groups[a.index] else [];
      if a.index !in groups {
        NoAddresses(dump[..k], a.index);
      }
      groups := groups[a.index := entry + [a.address]];
      k := k + 1;
    }
    assert dump[..k] == dump;
  }

  lemma NextAddress(dump: seq<RawAddress>, k: nat)
    requires k < |dump|
    ensures AddressIndices(dump[..k + 1]) == AddressIndices(dump[..k]) + {dump[k].index}
    ensures forall x :: AddressesOf(dump[..k + 1], x) ==
                        AddressesOf(dump[..k], x) + if dump[k].index == x then [dump[k].address] else []
  {
    var a, b := dump[..k + 1], dump[..k];
    assert a[..k] == b;
    assert forall i | 0 <= i < k :: a[i] == b[i];
    assert a[k] == dump[k];
  }

  lemma {:induction false} NoAddresses(dump: seq<RawAddress>, index: nat)
    requires index !in AddressIndices(dump)
    ensures AddressesOf(dump, index) == []
    decreases |dump|
  {
    if dump != [] {
      var n := |dump| - 1;
      assert dump[n].index in AddressIndices(dump);
      assert forall i | 0 <= i < n :: dump[..n][i] == dump[i];
      NoAddresses(dump[..n], index);
    }
  }

  lemma NextIndex(interfaces: seq<RawInterface>, k: nat)
    requires k < |interfaces|
    ensures Indices(interfaces[..k + 1]) == Indices(interfaces[..k]) + {interfaces[k].index}
  {
    var a, b := interfaces[..k + 1], interfaces[..k];
    assert forall i | 0 <= i < k :: a[i] == b[i];
    assert a[k] == interfaces[k];
  }

  /** Takes each interface's addresses out of the groups; what is left belongs to none. */
  method Snapshot(interfaces: Io<seq<RawInterface>>, dump: Io<seq<RawAddress>>) returns (sample: Io<seq<Interface>>)
    ensures sample == SampleOf(interfaces, dump)
  {
    match interfaces {
      case Interrupted => return Interrupted;
      case Failed => return Failed;
      case Got(raw) =>
        if |raw| > MAX_INTERFACES {
          return Failed;
        }
        match dump {
          case Interrupted => return Interrupted;
          case Failed => return Failed;
          case Got(addresses) =>
            if |addresses| > MAX_ADDRESSES {
              return Failed;
            }
            var result, orphans := Join(raw, addresses);
            return if orphans then Interrupted else Got(Sort(InterfaceLeq, result));
        }
    }
  }

  /** The groups not claimed by the first `k` interfaces. */
  ghost predicate Unclaimed(groups: map<nat, seq<Address>>, raw: seq<RawInterface>, k: nat, dump: seq<RawAddress>)
    requires k <= |raw|
  {
    && groups.Keys == AddressIndices(dump) - Indices(raw[..k])
    && forall x | x in groups :: groups[x] == AddressesOf(dump, x)
  }

  lemma ClaimNext(groups: map<nat, seq<Address>>, raw: seq<RawInterface>, k: nat, dump: seq<RawAddress>)
    requires k < |raw| && Unclaimed(groups, raw, k, dump)
    ensures Unclaimed(groups - {raw[k].index}, raw, k + 1, dump)
    ensures var addresses := if raw[k].index in groups then groups[raw[k].index] else [];
            Build(raw[k], Sort(AddressLeq, addresses)) == JoinedAt(raw, dump, k)
  {
    var index := raw[k].index;
    NextIndex(raw, k);
    if index !in AddressIndices(dump) { NoAddresses(dump, index); }
  }

  lemma AllClaimed(groups: map<nat, seq<Address>>, raw: seq<RawInterface>, dump: seq<RawAddress>)
    requires Unclaimed(groups, raw, |raw|, dump)
    ensures groups.Keys == {} <==> AddressIndices(dump) <= Indices(raw)
  {
    assert raw[..|raw|] == raw;
    assert forall x | x in AddressIndices(dump) :: x in Indices(raw) || x in groups.Keys;
  }

  lemma NoneClaimed(groups: map<nat, seq<Address>>, raw: seq<RawInterface>, dump: seq<RawAddress>)
    requires groups.Keys == AddressIndices(dump) && forall x | x in groups :: groups[x] == AddressesOf(dump, x)
    ensures Unclaimed(groups, raw, 0, dump)
  {
    assert Indices(raw[..0]) == {};
  }

  method Join(raw: seq<RawInterface>, dump: seq<RawAddress>) returns (result: seq<Interface>, orphans: bool)
    ensures result == Joined(raw, dump)
    ensures orphans <==> !(AddressIndices(dump) <= Indices(raw))
  {
    var groups := Group(dump);
    result := [];
    var k := 0;
    NoneClaimed(groups, raw, dump);
    while k < |raw|
      invariant 0 <= k <= |raw|
      invariant result == Joined(raw, dump)[..k]
      invariant Unclaimed(groups, raw, k, dump)
    {
      ClaimNext(groups, raw, k, dump);
      var index := raw[k].index;
      var addresses := if index in groups then groups[index] else [];
      var joined := Build(raw[k], Sort(AddressLeq, addresses));
      JoinedNext(raw, dump, k);
      groups := groups - {index};
      result := result + [joined];
      k := k + 1;
    }
    AllClaimed(groups, raw, dump);
    JoinedWhole(raw, dump);
    orphans := groups.Keys != {};
  }

  lemma JoinedWhole(raw: seq<RawInterface>, dump: seq<RawAddress>)
    ensures Joined(raw, dump)[..|raw|] == Joined(raw, dump)
  {
  }

  lemma JoinedNext(raw: seq<RawInterface>, dump: seq<RawAddress>, k: nat)
    requires k < |raw|
    ensures Joined(raw, dump)[..k + 1] == Joined(raw, dump)[..k] + [JoinedAt(raw, dump, k)]
  {
  }

  // ---------------------------------------------------------------- nothing lost, nothing moved

  /** The addresses of an interface, each with the index it belongs to. */
  ghost function Owned(i: Interface): multiset<RawAddress> {
    BagOf(Tag(i.index), i.addresses)
  }

  /** The dumped addresses whose index is among `indices`. */
  ghost function Within(dump: seq<RawAddress>, indices: set<nat>): multiset<RawAddress> {
    if dump == [] then multiset{}
    else
      var n := |dump| - 1;
      Within(dump[..n], indices) + if dump[n].index in indices then multiset{dump[n]} else multiset{}
  }

  /** An address with the index it belongs to. */
  function Tag(index: nat): Address -> multiset<RawAddress> {
    (a: Address) => multiset{RawAddress(index, a)}
  }

  lemma Regroup<T>(a: multiset<T>, b: multiset<T>, c: multiset<T>)
    ensures (a + b) + c == (a + c) + b && (a + b) + c == a + (b + c)
  {
  }

  /** The addresses of `index`, tagged again. */
  ghost function TaggedOf(dump: seq<RawAddress>, index: nat): multiset<RawAddress> {
    BagOf(Tag(index), AddressesOf(dump, index))
  }

  lemma TaggedNext(dump: seq<RawAddress>, index: nat)
    requires dump != []
    ensures var n := |dump| - 1;
            TaggedOf(dump, index) ==
            TaggedOf(dump[..n], index) + if dump[n].index == index then multiset{dump[n]} else multiset{}
  {
    var n := |dump| - 1;
    if dump[n].index == index {
      BagOfPush(Tag(index), AddressesOf(dump[..n], index), dump[n].address);
    } else {
      assert AddressesOf(dump, index) == AddressesOf(dump[..n], index);
    }
  }

  lemma WithinMoreNext(dump: seq<RawAddress>, n: nat, indices: set<nat>, index: nat)
    requires n == |dump| - 1 && index !in indices
    requires Within(dump[..n], indices + {index}) == Within(dump[..n], indices) + TaggedOf(dump[..n], index)
    ensures Within(dump, indices + {index}) == Within(dump, indices) + TaggedOf(dump, index)
  {
    TaggedNext(dump, index);
    Regroup(Within(dump[..n], indices), TaggedOf(dump[..n], index), multiset{dump[n]});
  }

  lemma {:induction false} WithinMore(dump: seq<RawAddress>, indices: set<nat>, index: nat)
    requires index !in indices
    ensures Within(dump, indices + {index}) == Within(dump, indices) + TaggedOf(dump, index)
    decreases |dump|
  {
    if dump != [] {
      WithinMore(dump[..|dump| - 1], indices, index);
      WithinMoreNext(dump, |dump| - 1, indices, index);
    }
  }

  lemma {:induction false} WithinAll(dump: seq<RawAddress>, indices: set<nat>)
    requires AddressIndices(dump) <= indices
    ensures Within(dump, indices) == multiset(dump)
    decreases |dump|
  {
    if dump != [] {
      var n := |dump| - 1;
      assert forall i | 0 <= i < n :: dump[..n][i] == dump[i];
      assert forall i | 0 <= i < |dump| :: dump[i].index in AddressIndices(dump);
      WithinAll(dump[..n], indices);
      assert dump == dump[..n] + [dump[n]];
    }
  }

  lemma {:induction false} WithinNone(dump: seq<RawAddress>)
    ensures Within(dump, {}) == multiset{}
    decreases |dump|
  {
    if dump != [] { WithinNone(dump[..|dump| - 1]); }
  }

  lemma OwnedBySorting(raw: RawInterface, addresses: seq<Address>)
    ensures Owned(Build(raw, Sort(AddressLeq, addresses))) == BagOf(Tag(raw.index), addresses)
  {
    AddressOrder();
    SortSorts(AddressLeq, addresses);
    BagOfForgetsOrder(Tag(raw.index), Sort(AddressLeq, addresses), addresses);
  }

  /** An interface takes the addresses of its index, unless one before it did. */
  lemma ClaimedOwns(raw: seq<RawInterface>, dump: seq<RawAddress>, k: nat)
    requires k < |raw|
    ensures Within(dump, Indices(raw[..k + 1])) == Within(dump, Indices(raw[..k])) + Owned(Joined(raw, dump)[k])
  {
    var index := raw[k].index;
    NextIndex(raw, k);
    OwnedBySorting(raw[k], Claimed(raw, k, dump));
    if index in Indices(raw[..k]) {
      assert Indices(raw[..k]) + {index} == Indices(raw[..k]);
    } else {
      WithinMore(dump, Indices(raw[..k]), index);
    }
  }

  lemma OwnedNext(interfaces: seq<Interface>, k: nat)
    requires k < |interfaces|
    ensures BagOf(Owned, interfaces[..k + 1]) == BagOf(Owned, interfaces[..k]) + Owned(interfaces[k])
  {
    assert interfaces[..k + 1] == interfaces[..k] + [interfaces[k]];
    BagOfPush(Owned, interfaces[..k], interfaces[k]);
  }

  lemma NothingOwned(raw: seq<RawInterface>, dump: seq<RawAddress>)
    ensures BagOf(Owned, Joined(raw, dump)[..0]) == Within(dump, Indices(raw[..0]))
  {
    WithinNone(dump);
    assert Indices(raw[..0]) == {};
  }

  lemma JoinedOwnsNext(raw: seq<RawInterface>, dump: seq<RawAddress>, k: nat)
    requires k < |raw| && BagOf(Owned, Joined(raw, dump)[..k]) == Within(dump, Indices(raw[..k]))
    ensures BagOf(Owned, Joined(raw, dump)[..k + 1]) == Within(dump, Indices(raw[..k + 1]))
  {
    ClaimedOwns(raw, dump, k);
    OwnedNext(Joined(raw, dump), k);
  }

  lemma {:induction false} JoinedOwns(raw: seq<RawInterface>, dump: seq<RawAddress>, k: nat)
    requires k <= |raw|
    ensures BagOf(Owned, Joined(raw, dump)[..k]) == Within(dump, Indices(raw[..k]))
    decreases k
  {
    if k == 0 {
      NothingOwned(raw, dump);
    } else {
      JoinedOwns(raw, dump, k - 1);
      JoinedOwnsNext(raw, dump, k - 1);
    }
  }

  /** A sample keeps every dumped address exactly once, on the interface of its index. */
  lemma EveryAddressKept(raw: seq<RawInterface>, dump: seq<RawAddress>)
    requires SampleOf(Got(raw), Got(dump)).Got?
    ensures BagOf(Owned, SampleOf(Got(raw), Got(dump)).value) == multiset(dump)
  {
    var joined := Joined(raw, dump);
    assert joined[..|raw|] == joined && raw[..|raw|] == raw;
    JoinedOwns(raw, dump, |raw|);
    WithinAll(dump, Indices(raw));
    InterfaceOrder();
    SortSorts(InterfaceLeq, joined);
    BagOfForgetsOrder(Owned, Sort(InterfaceLeq, joined), joined);
  }

  /** An interface of a sample says what its record in the dump says; a hardware address of zeros and an
      mtu of zero count as missing. */
  ghost predicate Describes(i: Interface, raw: RawInterface) {
    && i.name == raw.name && i.index == raw.index
    && (i.mac.Some? <==> raw.mac.Some? && raw.mac.value != "00:00:00:00:00:00")
    && (i.mac.Some? ==> i.mac.value == raw.mac.value)
    && (i.mtu.Some? <==> raw.mtu > 0)
    && (i.mtu.Some? ==> i.mtu.value == raw.mtu)
    && (i.up <==> raw.up) && (i.running <==> raw.running) && (i.loopback <==> raw.loopback)
  }

  lemma LeqFirst(x: seq<int>, y: seq<int>)
    requires x != [] && y != []
    ensures SeqLeq(IntLeq, x, y) <==> if x[0] == y[0] then SeqLeq(IntLeq, x[1..], y[1..]) else x[0] <= y[0]
  {
  }

  /** Addresses are ordered by kind, fourth version first, then by bits, prefix and family. */
  lemma AddressOrderIs(a: Address, b: Address)
    ensures AddressLeq(a, b) <==>
            if a.ip.V4? != b.ip.V4? then a.ip.V4?
            else if a.ip.bits != b.ip.bits then a.ip.bits < b.ip.bits
            else if a.prefix != b.prefix then a.prefix < b.prefix
            else a.family.Ipv4? || b.family.Ipv6?
  {
    var x, y := AddressKey(a), AddressKey(b);
    LeqFirst(x, y);
    LeqFirst(x[1..], y[1..]);
    LeqFirst(x[1..][1..], y[1..][1..]);
    LeqFirst(x[1..][1..][1..], y[1..][1..][1..]);
  }

  /** Two dumps give a sample exactly when they are within the limits and every address has its
      interface. Only an address without one is worth another attempt. */
  lemma SampledExactly(raw: seq<RawInterface>, dump: seq<RawAddress>)
    ensures SampleOf(Got(raw), Got(dump)).Failed? <==> |raw| > 4096 || |dump| > 16384
    ensures SampleOf(Got(raw), Got(dump)).Interrupted? <==>
            && |raw| <= 4096 && |dump| <= 16384
            && exists k :: 0 <= k < |dump| && forall j | 0 <= j < |raw| :: raw[j].index != dump[k].index
  {
    if !(AddressIndices(dump) <= Indices(raw)) {
      var x :| x in AddressIndices(dump) && x !in Indices(raw);
      var k :| 0 <= k < |dump| && dump[k].index == x;
      assert forall j | 0 <= j < |raw| :: raw[j].index in Indices(raw);
    } else {
      forall k | 0 <= k < |dump| ensures exists j :: 0 <= j < |raw| && raw[j].index == dump[k].index {
        assert dump[k].index in AddressIndices(dump);
      }
    }
  }

  /** The first interface of an index has all its addresses, and any other with that index none. */
  lemma FirstTakesAddresses(raw: seq<RawInterface>, dump: seq<RawAddress>, j: nat)
    requires j < |raw|
    ensures var first := forall i | 0 <= i < j :: raw[i].index != raw[j].index;
            multiset(Joined(raw, dump)[j].addresses) ==
            if first then multiset(AddressesOf(dump, raw[j].index)) else multiset{}
  {
    AddressOrder();
    SortSorts(AddressLeq, Claimed(raw, j, dump));
    if i :| 0 <= i < j && raw[i].index == raw[j].index {
      assert raw[..j][i].index in Indices(raw[..j]);
    }
    if raw[j].index in Indices(raw[..j]) {
      var i :| 0 <= i < j && raw[..j][i].index == raw[j].index;
      assert raw[i].index == raw[j].index;
    }
  }

  lemma Permuted<T>(a: seq<T>, b: seq<T>, i: nat) returns (j: nat)
    requires multiset(a) == multiset(b) && i < |a|
    ensures j < |b| && b[j] == a[i]
  {
    assert a[i] in multiset(b);
    j :| 0 <= j < |b| && b[j] == a[i];
  }

  ghost predicate DescribesOne(i: Interface, raw: seq<RawInterface>) {
    exists j :: 0 <= j < |raw| && Describes(i, raw[j])
  }

  ghost predicate IsDescribed(r: RawInterface, sample: seq<Interface>) {
    exists k :: 0 <= k < |sample| && Describes(sample[k], r)
  }

  predicate NameThenIndex(a: Interface, b: Interface) {
    if a.name == b.name then a.index <= b.index else StringLeq(a.name, b.name)
  }

  lemma ByNameThenIndex(a: Interface, b: Interface)
    requires InterfaceLeq(a, b)
    ensures NameThenIndex(a, b)
  {
  }

  lemma SampleIsJoined(raw: seq<RawInterface>, dump: seq<RawAddress>)
    requires SampleOf(Got(raw), Got(dump)).Got?
    ensures var sample := SampleOf(Got(raw), Got(dump)).value;
            multiset(sample) == multiset(Joined(raw, dump)) && Sorted(InterfaceLeq, sample)
    ensures forall j | 0 <= j < |raw| :: Describes(Joined(raw, dump)[j], raw[j])
  {
    InterfaceOrder();
    SortSorts(InterfaceLeq, Joined(raw, dump));
  }

  lemma AllDescribed(raw: seq<RawInterface>, joined: seq<Interface>, sample: seq<Interface>)
    requires |joined| == |raw| && multiset(sample) == multiset(joined)
    requires forall j | 0 <= j < |raw| :: Describes(joined[j], raw[j])
    ensures |sample| == |raw|
    ensures forall k | 0 <= k < |sample| :: DescribesOne(sample[k], raw)
    ensures forall j | 0 <= j < |raw| :: IsDescribed(raw[j], sample)
  {
    assert |multiset(sample)| == |multiset(joined)|;
    forall k | 0 <= k < |sample| ensures DescribesOne(sample[k], raw) {
      var j := Permuted(sample, joined, k);
      assert Describes(sample[k], raw[j]);
    }
    forall j | 0 <= j < |raw| ensures IsDescribed(raw[j], sample) {
      var k := Permuted(joined, sample, j);
      assert Describes(sample[k], raw[j]);
    }
  }

  /** A sample has an interface for each record and no other, by name and then by index. */
  lemma SampleDescribes(raw: seq<RawInterface>, dump: seq<RawAddress>)
    requires SampleOf(Got(raw), Got(dump)).Got?
    ensures var sample := SampleOf(Got(raw), Got(dump)).value;
            && |sample| == |raw|
            && (forall k | 0 <= k < |sample| :: DescribesOne(sample[k], raw))
            && (forall j | 0 <= j < |raw| :: IsDescribed(raw[j], sample))
            && forall a, b | 0 <= a < b < |sample| :: NameThenIndex(sample[a], sample[b])
  {
    var sample := SampleOf(Got(raw), Got(dump)).value;
    SampleIsJoined(raw, dump);
    AllDescribed(raw, Joined(raw, dump), sample);
    forall a, b | 0 <= a < b < |sample| ensures NameThenIndex(sample[a], sample[b]) {
      ByNameThenIndex(sample[a], sample[b]);
    }
  }

  // ---------------------------------------------------------------- two samples in a row

  datatype Stable = Published(sample: seq<Interface>) | Unavailable | Unstable(raced: bool)

  predicate Agree(samples: nat -> Io<seq<Interface>>, k: nat) {
    samples(k).Got? && samples(k + 1) == samples(k)
  }

  /** Samples up to five times. What is published is two samples in a row that are the same, with
      nothing between them; a detected race starts over and any other failure ends it. */
  method StableSnapshot(samples: nat -> Io<seq<Interface>>) returns (end: Stable, used: nat)
    ensures 1 <= used <= 5
    ensures end.Published? <==> used >= 2 && Agree(samples, used - 2)
    ensures end.Published? ==> samples(used - 1) == Got(end.sample)
    ensures end.Unavailable? <==> samples(used - 1).Failed?
    ensures forall k | 0 <= k < used - 2 :: !Agree(samples, k)
    ensures forall k | 0 <= k < used - 1 :: !samples(k).Failed?
    ensures end.Unstable? ==>
              used == 5 && (end.raced <==> exists k :: 0 <= k < used && samples(k).Interrupted?)
  {
    var previous: Option<seq<Interface>> := None;
    var raced := false;
    used := 0;
    while used < MAX_ATTEMPTS
      invariant 0 <= used <= MAX_ATTEMPTS
      invariant previous == if used > 0 && samples(used - 1).Got? then Some(samples(used - 1).value) else None
      invariant forall k | 0 <= k < used - 1 :: !Agree(samples, k)
      invariant forall k | 0 <= k < used :: !samples(k).Failed?
      invariant raced <==> exists k :: 0 <= k < used && samples(k).Interrupted?
    {
      var sample := samples(used);
      used := used + 1;
      match sample {
        case Got(current) =>
          if previous == Some(current) {
            return Published(current), used;
          }
          previous := Some(current);
        case Interrupted =>
          previous := None;
          raced := true;
          assert samples(used - 1).Interrupted?;
        case Failed =>
          return Unavailable, used;
      }
    }
    end := Unstable(raced);
  }
}
