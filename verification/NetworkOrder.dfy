/** What the order of the two kernel dumps changes in a sample (agent/src/collectors/network_facts.rs):
    nothing, unless two interfaces that look different share an index that has addresses.
 */
module NetworkOrder {
  import opened Options
  import opened Ordering
  import opened NetworkFacts

  // ---------------------------------------------------------------- what does not depend on order

  lemma {:induction false} AddressesBag(dump: seq<RawAddress>, index: nat)
    ensures multiset(AddressesOf(dump, index)) ==
            BagOf((r: RawAddress) => if r.index == index then multiset{r.address} else multiset{}, dump)
    decreases |dump|
  {
    var pick := (r: RawAddress) => if r.index == index then multiset{r.address} else multiset{};
    if dump != [] {
      var n := |dump| - 1;
      AddressesBag(dump[..n], index);
      assert dump == dump[..n] + [dump[n]];
      BagOfConcat(pick, dump[..n], [dump[n]]);
      assert [dump[n]][1..] == [];
      assert BagOf(pick, [dump[n]]) == pick(dump[n]);
    }
  }

  lemma SortedForgetsOrder(dump: seq<RawAddress>, other: seq<RawAddress>, index: nat)
    requires multiset(dump) == multiset(other)
    ensures Sort(AddressLeq, AddressesOf(dump, index)) == Sort(AddressLeq, AddressesOf(other, index))
  {
    AddressesBag(dump, index);
    AddressesBag(other, index);
    BagOfForgetsOrder((r: RawAddress) => if r.index == index then multiset{r.address} else multiset{}, dump, other);
    AddressOrder();
    SortForgetsOrder(AddressLeq, AddressesOf(dump, index), AddressesOf(other, index));
  }

  lemma IndicesForgetOrder(raw: seq<RawInterface>, other: seq<RawInterface>)
    requires multiset(raw) == multiset(other)
    ensures Indices(raw) == Indices(other)
  {
    forall i | 0 <= i < |raw| ensures raw[i].index in Indices(other) {
      assert raw[i] in multiset(other);
      var j :| 0 <= j < |other| && other[j] == raw[i];
    }
    forall i | 0 <= i < |other| ensures other[i].index in Indices(raw) {
      assert other[i] in multiset(raw);
      var j :| 0 <= j < |raw| && raw[j] == other[i];
    }
  }

  lemma AddressIndicesForgetOrder(dump: seq<RawAddress>, other: seq<RawAddress>)
    requires multiset(dump) == multiset(other)
    ensures AddressIndices(dump) == AddressIndices(other)
  {
    forall i | 0 <= i < |dump| ensures dump[i].index in AddressIndices(other) {
      assert dump[i] in multiset(other);
      var j :| 0 <= j < |other| && other[j] == dump[i];
    }
    forall i | 0 <= i < |other| ensures other[i].index in AddressIndices(dump) {
      assert other[i] in multiset(dump);
      var j :| 0 <= j < |dump| && dump[j] == other[i];
    }
  }

  lemma PushBag<T>(xs: seq<T>, x: T)
    ensures multiset(xs + [x]) == multiset(xs) + multiset{x}
  {
  }

  // ---------------------------------------------------------------- interfaces that look alike

  /** Interfaces that share an index with addresses differ in nothing a sample shows. */
  ghost predicate Lookalike(raw: seq<RawInterface>, dump: seq<RawAddress>) {
    forall i, j | 0 <= i < |raw| && 0 <= j < |raw|
               && raw[i].index == raw[j].index && raw[i].index in AddressIndices(dump) ::
      Build(raw[i], []) == Build(raw[j], [])
  }

  /** `look` gives what an interface of an index with addresses looks like without them. */
  ghost predicate Looks(look: nat -> Interface, raw: seq<RawInterface>, dump: seq<RawAddress>) {
    forall i | 0 <= i < |raw| && raw[i].index in AddressIndices(dump) :: Build(raw[i], []) == look(raw[i].index)
  }

  ghost function LookOf(raw: seq<RawInterface>, index: nat): Interface {
    if index in Indices(raw) then
      var i :| 0 <= i < |raw| && raw[i].index == index;
      Build(raw[i], [])
    else Interface("", index, None, None, false, false, false, [])
  }

  lemma LookExists(raw: seq<RawInterface>, dump: seq<RawAddress>)
    requires Lookalike(raw, dump)
    ensures Looks((index: nat) => LookOf(raw, index), raw, dump)
  {
  }

  lemma LooksForgetsOrder(
    look: nat -> Interface, raw: seq<RawInterface>, other: seq<RawInterface>, dump: seq<RawAddress>,
    dump': seq<RawAddress>)
    requires Looks(look, raw, dump) && multiset(raw) == multiset(other) && multiset(dump) == multiset(dump')
    ensures Looks(look, other, dump')
  {
    AddressIndicesForgetOrder(dump, dump');
    forall i | 0 <= i < |other| && other[i].index in AddressIndices(dump')
      ensures Build(other[i], []) == look(other[i].index)
    {
      assert other[i] in multiset(raw);
      var j :| 0 <= j < |raw| && raw[j] == other[i];
    }
  }

  // ---------------------------------------------------------------- who takes the addresses

  /** The indices with addresses, in the order their first interfaces come. */
  ghost function Takers(raw: seq<RawInterface>, dump: seq<RawAddress>, k: nat): seq<nat>
    requires k <= |raw|
  {
    if k == 0 then []
    else Takers(raw, dump, k - 1) + if Takes(raw, dump, k - 1) then [raw[k - 1].index] else []
  }

  predicate Takes(raw: seq<RawInterface>, dump: seq<RawAddress>, k: nat)
    requires k < |raw|
  {
    raw[k].index in AddressIndices(dump) && raw[k].index !in Indices(raw[..k])
  }

  lemma TakersNext(raw: seq<RawInterface>, dump: seq<RawAddress>, k: nat)
    requires k < |raw| && multiset(Takers(raw, dump, k)) == multiset(Indices(raw[..k]) * AddressIndices(dump))
    ensures multiset(Takers(raw, dump, k + 1)) == multiset(Indices(raw[..k + 1]) * AddressIndices(dump))
  {
    var index, before := raw[k].index, Indices(raw[..k]) * AddressIndices(dump);
    NextIndex(raw, k);
    if Takes(raw, dump, k) {
      assert Indices(raw[..k + 1]) * AddressIndices(dump) == before + {index};
      PushBag(Takers(raw, dump, k), index);
      assert index !in before && multiset(before + {index}) == multiset(before) + multiset{index};
    } else {
      assert Indices(raw[..k + 1]) * AddressIndices(dump) == before;
    }
  }

  lemma {:induction false} TakersAre(raw: seq<RawInterface>, dump: seq<RawAddress>, k: nat)
    requires k <= |raw|
    ensures multiset(Takers(raw, dump, k)) == multiset(Indices(raw[..k]) * AddressIndices(dump))
    decreases k
  {
    if k == 0 {
      assert Indices(raw[..0]) == {};
    } else {
      TakersAre(raw, dump, k - 1);
      TakersNext(raw, dump, k - 1);
    }
  }

  function BareBag(): RawInterface -> multiset<Interface> {
    (r: RawInterface) => multiset{Build(r, [])}
  }

  function LookBag(look: nat -> Interface): nat -> multiset<Interface> {
    (index: nat) => multiset{look(index)}
  }

  function Dressed(look: Interface, dump: seq<RawAddress>, index: nat): Interface {
    look.(addresses := Sort(AddressLeq, AddressesOf(dump, index)))
  }

  function DressedBag(look: nat -> Interface, dump: seq<RawAddress>): nat -> multiset<Interface> {
    (index: nat) => multiset{Dressed(look(index), dump, index)}
  }

  /** The first interface of an index with addresses shows them; any other shows none. */
  lemma JoinedShows(raw: seq<RawInterface>, dump: seq<RawAddress>, k: nat)
    requires k < |raw|
    ensures JoinedAt(raw, dump, k) ==
            if Takes(raw, dump, k) then Dressed(Build(raw[k], []), dump, raw[k].index) else Build(raw[k], [])
  {
    if raw[k].index !in AddressIndices(dump) { NoAddresses(dump, raw[k].index); }
  }

  /** The first `k` interfaces of a sample are those of the dump, with each taker dressed. */
  ghost predicate Balance(look: nat -> Interface, raw: seq<RawInterface>, dump: seq<RawAddress>, k: nat)
    requires k <= |raw|
  {
    multiset(Joined(raw, dump)[..k]) + BagOf(LookBag(look), Takers(raw, dump, k)) ==
    BagOf(BareBag(), raw[..k]) + BagOf(DressedBag(look, dump), Takers(raw, dump, k))
  }

  lemma Exchange<T>(a: multiset<T>, b: multiset<T>, c: multiset<T>, d: multiset<T>, x: multiset<T>, y: multiset<T>)
    requires a + b == c + d
    ensures (a + x) + (b + y) == (c + y) + (d + x)
  {
    assert (a + x) + (b + y) == (a + b) + (x + y);
    assert (c + y) + (d + x) == (c + d) + (x + y);
  }

  lemma AddBoth<T>(a: multiset<T>, b: multiset<T>, c: multiset<T>, d: multiset<T>, x: multiset<T>)
    requires a + b == c + d
    ensures (a + x) + b == (c + x) + d
  {
    assert (a + x) + b == (a + b) + x;
    assert (c + x) + d == (c + d) + x;
  }

  lemma JoinedBag(raw: seq<RawInterface>, dump: seq<RawAddress>, k: nat, shown: Interface)
    requires k < |raw| && JoinedAt(raw, dump, k) == shown
    ensures multiset(Joined(raw, dump)[..k + 1]) == multiset(Joined(raw, dump)[..k]) + multiset{shown}
  {
    JoinedNext(raw, dump, k);
    PushBag(Joined(raw, dump)[..k], shown);
  }

  lemma BareNext(raw: seq<RawInterface>, k: nat)
    requires k < |raw|
    ensures BagOf(BareBag(), raw[..k + 1]) == BagOf(BareBag(), raw[..k]) + multiset{Build(raw[k], [])}
  {
    assert raw[..k + 1] == raw[..k] + [raw[k]];
    BagOfPush(BareBag(), raw[..k], raw[k]);
  }

  lemma BalanceTaken(look: nat -> Interface, raw: seq<RawInterface>, dump: seq<RawAddress>, k: nat)
    requires k < |raw| && Looks(look, raw, dump) && Balance(look, raw, dump, k) && Takes(raw, dump, k)
    ensures Balance(look, raw, dump, k + 1)
  {
    var index, takers := raw[k].index, Takers(raw, dump, k);
    var shown := Dressed(look(index), dump, index);
    JoinedShows(raw, dump, k);
    JoinedBag(raw, dump, k, shown);
    BareNext(raw, k);
    BagOfPush(LookBag(look), takers, index);
    BagOfPush(DressedBag(look, dump), takers, index);
    Exchange(
      multiset(Joined(raw, dump)[..k]), BagOf(LookBag(look), takers),
      BagOf(BareBag(), raw[..k]), BagOf(DressedBag(look, dump), takers), multiset{shown}, multiset{look(index)});
  }

  lemma BalancePlain(look: nat -> Interface, raw: seq<RawInterface>, dump: seq<RawAddress>, k: nat)
    requires k < |raw| && Looks(look, raw, dump) && Balance(look, raw, dump, k) && !Takes(raw, dump, k)
    ensures Balance(look, raw, dump, k + 1)
  {
    var takers, bare := Takers(raw, dump, k), Build(raw[k], []);
    JoinedShows(raw, dump, k);
    JoinedBag(raw, dump, k, bare);
    BareNext(raw, k);
    assert Takers(raw, dump, k + 1) == takers + [] == takers;
    AddBoth(
      multiset(Joined(raw, dump)[..k]), BagOf(LookBag(look), takers),
      BagOf(BareBag(), raw[..k]), BagOf(DressedBag(look, dump), takers), multiset{bare});
  }

  lemma BalanceNone(look: nat -> Interface, raw: seq<RawInterface>, dump: seq<RawAddress>)
    ensures Balance(look, raw, dump, 0)
  {
  }

  lemma BalanceNext(look: nat -> Interface, raw: seq<RawInterface>, dump: seq<RawAddress>, k: nat)
    requires k < |raw| && Looks(look, raw, dump) && Balance(look, raw, dump, k)
    ensures Balance(look, raw, dump, k + 1)
  {
    if Takes(raw, dump, k) {
      BalanceTaken(look, raw, dump, k);
    } else {
      BalancePlain(look, raw, dump, k);
    }
  }

  lemma Balanced(look: nat -> Interface, raw: seq<RawInterface>, dump: seq<RawAddress>)
    requires Looks(look, raw, dump)
    ensures Balance(look, raw, dump, |raw|)
  {
    BalanceNone(look, raw, dump);
    for k := 0 to |raw|
      invariant Balance(look, raw, dump, k)
    {
      BalanceNext(look, raw, dump, k);
    }
  }

  lemma {:induction false} DressedForgetsOrder(
    look: nat -> Interface, takers: seq<nat>, dump: seq<RawAddress>, dump': seq<RawAddress>)
    requires multiset(dump) == multiset(dump')
    ensures BagOf(DressedBag(look, dump), takers) == BagOf(DressedBag(look, dump'), takers)
    decreases |takers|
  {
    if takers != [] {
      SortedForgetsOrder(dump, dump', takers[0]);
      DressedForgetsOrder(look, takers[1..], dump, dump');
    }
  }

  lemma WholeBalance(look: nat -> Interface, raw: seq<RawInterface>, dump: seq<RawAddress>)
    requires Looks(look, raw, dump)
    ensures var takers := Takers(raw, dump, |raw|);
            && multiset(takers) == multiset(Indices(raw) * AddressIndices(dump))
            && multiset(Joined(raw, dump)) + BagOf(LookBag(look), takers) ==
               BagOf(BareBag(), raw) + BagOf(DressedBag(look, dump), takers)
  {
    Balanced(look, raw, dump);
    TakersAre(raw, dump, |raw|);
    JoinedWhole(raw, dump);
    assert raw[..|raw|] == raw;
  }

  lemma Cancel<T>(a: multiset<T>, b: multiset<T>, c: multiset<T>)
    requires a + c == b + c
    ensures a == b
  {
    forall t ensures a[t] == b[t] {
      assert (a + c)[t] == (b + c)[t];
    }
  }

  lemma JoinedForgetsOrder(
    raw: seq<RawInterface>, raw': seq<RawInterface>, dump: seq<RawAddress>, dump': seq<RawAddress>)
    requires Lookalike(raw, dump) && multiset(raw) == multiset(raw') && multiset(dump) == multiset(dump')
    ensures multiset(Joined(raw, dump)) == multiset(Joined(raw', dump'))
  {
    var look := (index: nat) => LookOf(raw, index);
    LookExists(raw, dump);
    LooksForgetsOrder(look, raw, raw', dump, dump');
    WholeBalance(look, raw, dump);
    WholeBalance(look, raw', dump');
    IndicesForgetOrder(raw, raw');
    AddressIndicesForgetOrder(dump, dump');
    var takers, takers' := Takers(raw, dump, |raw|), Takers(raw', dump', |raw'|);
    BagOfForgetsOrder(BareBag(), raw, raw');
    BagOfForgetsOrder(LookBag(look), takers, takers');
    DressedForgetsOrder(look, takers, dump, dump');
    BagOfForgetsOrder(DressedBag(look, dump'), takers, takers');
    Cancel(multiset(Joined(raw, dump)), multiset(Joined(raw', dump')), BagOf(LookBag(look), takers));
  }

  lemma SampleForgetsOrder(
    raw: seq<RawInterface>, raw': seq<RawInterface>, dump: seq<RawAddress>, dump': seq<RawAddress>)
    requires SampleOf(Got(raw), Got(dump)).Got? ==> Lookalike(raw, dump)
    requires multiset(raw) == multiset(raw') && multiset(dump) == multiset(dump')
    ensures SampleOf(Got(raw), Got(dump)) == SampleOf(Got(raw'), Got(dump'))
  {
    IndicesForgetOrder(raw, raw');
    AddressIndicesForgetOrder(dump, dump');
    assert |raw| == |multiset(raw)| == |multiset(raw')| == |raw'|;
    assert |dump| == |multiset(dump)| == |multiset(dump')| == |dump'|;
    if SampleOf(Got(raw), Got(dump)).Got? {
      JoinedForgetsOrder(raw, raw', dump, dump');
      InterfaceOrder();
      SortForgetsOrder(InterfaceLeq, Joined(raw, dump), Joined(raw', dump'));
    }
  }

  // ---------------------------------------------------------------- interfaces that do not

  /** The interfaces with the one at `i` first. */
  function First(raw: seq<RawInterface>, i: nat): seq<RawInterface>
    requires i < |raw|
  {
    [raw[i]] + (raw[..i] + raw[i + 1..])
  }

  lemma FirstReorders(raw: seq<RawInterface>, i: nat)
    requires i < |raw|
    ensures multiset(First(raw, i)) == multiset(raw)
  {
    DropOne(raw, i);
  }

  lemma {:induction false} HasAddresses(dump: seq<RawAddress>, i: nat)
    requires i < |dump|
    ensures AddressesOf(dump, dump[i].index) != []
    decreases |dump|
  {
    if i < |dump| - 1 { HasAddresses(dump[..|dump| - 1], i); }
  }

  /** Whichever of two different interfaces comes first has the addresses of their index. */
  lemma FirstTakes(raw: seq<RawInterface>, dump: seq<RawAddress>, i: nat, j: nat)
    requires i < |raw| && j < |raw| && raw[i].index == raw[j].index && raw[i].index in AddressIndices(dump)
    requires Build(raw[i], []) != Build(raw[j], [])
    ensures Dressed(Build(raw[i], []), dump, raw[i].index) in multiset(Joined(First(raw, i), dump))
    ensures Dressed(Build(raw[i], []), dump, raw[i].index) !in multiset(Joined(First(raw, j), dump))
  {
    var index, a, b := raw[i].index, First(raw, i), First(raw, j);
    var shown := Dressed(Build(raw[i], []), dump, index);
    JoinedShows(a, dump, 0);
    assert Joined(a, dump)[0] == shown;
    assert shown.addresses != [] by {
      var n :| 0 <= n < |dump| && dump[n].index == index;
      HasAddresses(dump, n);
      AddressOrder();
      SortSorts(AddressLeq, AddressesOf(dump, index));
      assert |multiset(shown.addresses)| == |AddressesOf(dump, index)|;
    }
    forall k | 0 <= k < |b| ensures Joined(b, dump)[k] != shown {
      JoinedShows(b, dump, k);
      if k > 0 && b[k].index == index {
        assert b[..k][0].index == index;
      }
    }
  }

  lemma OrderMatters(raw: seq<RawInterface>, dump: seq<RawAddress>) returns (other: seq<RawInterface>)
    requires SampleOf(Got(raw), Got(dump)).Got? && !Lookalike(raw, dump)
    ensures multiset(other) == multiset(raw) && SampleOf(Got(other), Got(dump)) != SampleOf(Got(raw), Got(dump))
  {
    var i, j :| 0 <= i < |raw| && 0 <= j < |raw| && raw[i].index == raw[j].index &&
                raw[i].index in AddressIndices(dump) && Build(raw[i], []) != Build(raw[j], []);
    var a, b := First(raw, i), First(raw, j);
    FirstReorders(raw, i);
    FirstReorders(raw, j);
    FirstTakes(raw, dump, i, j);
    InterfaceOrder();
    SortSorts(InterfaceLeq, Joined(a, dump));
    SortSorts(InterfaceLeq, Joined(b, dump));
    IndicesForgetOrder(raw, a);
    IndicesForgetOrder(raw, b);
    other := if SampleOf(Got(a), Got(dump)) != SampleOf(Got(raw), Got(dump)) then a else b;
  }

  /** A sample is the same for every order of both dumps exactly when it fails anyway or no two
      interfaces that look different share an index with addresses. */
  lemma OrderFree(raw: seq<RawInterface>, dump: seq<RawAddress>)
    ensures (forall raw', dump' | multiset(raw') == multiset(raw) && multiset(dump') == multiset(dump) ::
               SampleOf(Got(raw'), Got(dump')) == SampleOf(Got(raw), Got(dump)))
            <==> (SampleOf(Got(raw), Got(dump)).Got? ==> Lookalike(raw, dump))
  {
    if SampleOf(Got(raw), Got(dump)).Got? ==> Lookalike(raw, dump) {
      forall raw', dump' | multiset(raw') == multiset(raw) && multiset(dump') == multiset(dump)
        ensures SampleOf(Got(raw'), Got(dump')) == SampleOf(Got(raw), Got(dump))
      {
        SampleForgetsOrder(raw, raw', dump, dump');
      }
    } else {
      var other := OrderMatters(raw, dump);
    }
  }

  /** Interfaces of distinct indices, as the kernel numbers them, are free of order. */
  lemma DistinctIndicesAlike(raw: seq<RawInterface>, dump: seq<RawAddress>)
    requires forall i, j | 0 <= i < j < |raw| :: raw[i].index != raw[j].index
    ensures Lookalike(raw, dump)
  {
    forall i, j | 0 <= i < |raw| && 0 <= j < |raw| && raw[i].index == raw[j].index
      ensures Build(raw[i], []) == Build(raw[j], [])
    {
      assert i == j;
    }
  }
}
