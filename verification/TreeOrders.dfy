/** The order of any number of updates (agent/src/gnmi/tree.rs): when no two different ones lead to the
    same place, every order of them folds into the same tree, up to the order of list entries.
 */
module TreeOrders {
  import opened Options
  import opened Ordering
  import opened Tree
  import opened TreeGroups

  /** Paths that part somewhere: at differently named members, or at entries of one list told apart by
      the same keys. */
  predicate Apart(p: seq<Elem>, q: seq<Elem>)
    decreases |p|
  {
    p != [] && q != [] && (Diverge(p[0], q[0]) || (p[0] == q[0] && Apart(p[1..], q[1..])))
  }

  ghost predicate AllApart(writes: seq<Write>) {
    forall a, b | a in writes && b in writes && a != b :: Apart(a.path, b.path)
  }

  /** No write overwrites a list key on its way. */
  ghost predicate AllKeep(writes: seq<Write>) {
    forall w | w in writes :: KeepsKeys(w.path, w.value)
  }

  ghost predicate AllWithin(writes: seq<Write>, n: nat) {
    forall w | w in writes :: |w.path| <= n
  }

  /** What the induction asks of a run of writes. */
  ghost predicate Orderly(writes: seq<Write>, n: nat) {
    AllApart(writes) && AllKeep(writes) && AllWithin(writes, n)
  }

  lemma SameBag<T>(xs: seq<T>, ys: seq<T>, x: T)
    requires multiset(xs) == multiset(ys)
    ensures |xs| == |ys| && (x in xs <==> x in ys)
  {
    assert |multiset(xs)| == |multiset(ys)|;
    assert x in xs <==> x in multiset(xs);
    assert x in ys <==> x in multiset(ys);
  }

  /** Nothing but copies of one write has only one order. */
  lemma OneOrder<T>(xs: seq<T>, ys: seq<T>)
    requires multiset(xs) == multiset(ys) && forall a, b | a in xs && b in xs :: a == b
    ensures xs == ys
  {
    if xs == [] {
      assert |multiset(ys)| == 0;
    } else {
      SameBag(xs, ys, xs[0]);
      forall i | 0 <= i < |ys| ensures xs[i] == ys[i] {
        SameBag(xs, ys, ys[i]);
        assert ys[i] in ys && xs[i] in xs;
      }
    }
  }

  // ---------------------------------------------------------------- parts of reordered writes

  function FocusBag(name: string): Write -> multiset<Write> {
    (w: Write) => multiset(FocusOne(w, name))
  }

  lemma {:induction false} FocusIs(writes: seq<Write>, name: string)
    ensures multiset(Focus(writes, name)) == BagOf(FocusBag(name), writes)
    decreases |writes|
  {
    if writes != [] { FocusIs(writes[1..], name); }
  }

  lemma FocusReordered(writes: seq<Write>, other: seq<Write>, name: string)
    requires multiset(writes) == multiset(other)
    ensures multiset(Focus(writes, name)) == multiset(Focus(other, name))
  {
    FocusIs(writes, name);
    FocusIs(other, name);
    BagOfForgetsOrder(FocusBag(name), writes, other);
  }

  lemma {:induction false} FocusIn(writes: seq<Write>, name: string, w: Write)
    requires Pathed(writes)
    ensures w in Focus(writes, name) <==> w in writes && w.path[0].name == name
    decreases |writes|
  {
    if writes != [] {
      var rest := writes[1..];
      assert forall i | 0 <= i < |rest| :: rest[i] == writes[i + 1];
      FocusIn(rest, name, w);
      assert writes == [writes[0]] + rest;
    }
  }

  /** The tails of those writes that `pick` selects. */
  function PickBag(pick: Write -> bool): Write -> multiset<Write> {
    (w: Write) => if w.path != [] && pick(w) then multiset{Tail(w)} else multiset{}
  }

  function Finds(entries: seq<Json>, i: nat): Write -> bool {
    (w: Write) => w.path != [] && FirstMatch(entries, KeysOf(w)) == i
  }

  function Names(keys: Keys): Write -> bool {
    (w: Write) => w.path != [] && KeysOf(w) == keys
  }

  function Every(): Write -> bool {
    (w: Write) => true
  }

  lemma PickPush(pick: Write -> bool, writes: seq<Write>, n: nat)
    requires n == |writes| - 1 && writes[n].path != []
    ensures BagOf(PickBag(pick), writes) ==
            BagOf(PickBag(pick), writes[..n]) + if pick(writes[n]) then multiset{Tail(writes[n])} else multiset{}
  {
    assert writes == writes[..n] + [writes[n]];
    BagOfPush(PickBag(pick), writes[..n], writes[n]);
  }

  lemma {:induction false} HitsAre(entries: seq<Json>, writes: seq<Write>, i: nat)
    requires Pathed(writes)
    ensures multiset(Hits(entries, writes, i)) == BagOf(PickBag(Finds(entries, i)), writes)
    decreases |writes|
  {
    if writes != [] {
      HitsAre(entries, writes[..|writes| - 1], i);
      PickPush(Finds(entries, i), writes, |writes| - 1);
    }
  }

  lemma {:induction false} GroupIs(writes: seq<Write>, keys: Keys)
    requires Pathed(writes)
    ensures multiset(Group(writes, keys)) == BagOf(PickBag(Names(keys)), writes)
    decreases |writes|
  {
    if writes != [] {
      GroupIs(writes[..|writes| - 1], keys);
      PickPush(Names(keys), writes, |writes| - 1);
    }
  }

  lemma {:induction false} TailsAre(writes: seq<Write>)
    requires Pathed(writes)
    ensures multiset(Tails(writes)) == BagOf(PickBag(Every()), writes)
    decreases |writes|
  {
    if writes != [] {
      var n := |writes| - 1;
      TailsAre(writes[..n]);
      PickPush(Every(), writes, n);
      assert Tails(writes) == Tails(writes[..n]) + [Tail(writes[n])];
    }
  }

  lemma {:induction false} Picked(pick: Write -> bool, writes: seq<Write>, x: Write) returns (w: Write)
    requires x in BagOf(PickBag(pick), writes)
    ensures w in writes && w.path != [] && pick(w) && x == Tail(w)
    decreases |writes|
  {
    if x in PickBag(pick)(writes[0]) {
      w := writes[0];
    } else {
      w := Picked(pick, writes[1..], x);
    }
  }

  /** Picked writes that all start alike are orderly below their first element. */
  lemma PickedOrderly(pick: Write -> bool, writes: seq<Write>, tails: seq<Write>, n: nat)
    requires n > 0 && Orderly(writes, n) && multiset(tails) == BagOf(PickBag(pick), writes)
    requires forall a, b | a in writes && b in writes && a.path != [] && b.path != [] && pick(a) && pick(b) ::
             a.path[0] == b.path[0]
    ensures Orderly(tails, n - 1)
  {
    forall x, y | x in tails && y in tails && x != y ensures Apart(x.path, y.path) {
      assert x in multiset(tails) && y in multiset(tails);
      var a := Picked(pick, writes, x);
      var b := Picked(pick, writes, y);
      assert Apart(a.path, b.path) && a.path[0] == b.path[0];
      NotDiverging(a.path[0]);
    }
    forall x | x in tails ensures KeepsKeys(x.path, x.value) && |x.path| <= n - 1 {
      assert x in multiset(tails);
      var a := Picked(pick, writes, x);
    }
  }

  lemma NotDiverging(e: Elem)
    ensures !Diverge(e, e)
  {
  }

  // ---------------------------------------------------------------- lists built in another order

  lemma {:induction false} NewKeysIn(entries: seq<Json>, writes: seq<Write>, keys: Keys)
    requires Pathed(writes)
    ensures keys in NewKeys(entries, writes) <==>
            FirstMatch(entries, keys) == |entries| && exists w :: w in writes && KeysOf(w) == keys
    decreases |writes|
  {
    if writes != [] {
      var n := |writes| - 1;
      NewKeysIn(entries, writes[..n], keys);
      assert writes == writes[..n] + [writes[n]];
      assert forall w :: w in writes <==> w in writes[..n] || w == writes[n];
    }
  }

  lemma NewKeysReordered(entries: seq<Json>, writes: seq<Write>, other: seq<Write>, keys: Keys)
    requires Pathed(writes) && Pathed(other) && multiset(writes) == multiset(other)
    ensures keys in NewKeys(entries, writes) <==> keys in NewKeys(entries, other)
  {
    NewKeysIn(entries, writes, keys);
    NewKeysIn(entries, other, keys);
    forall w ensures w in writes <==> w in other { SameBag(writes, other, w); }
  }

  ghost predicate Distinct<T(!new)>(xs: seq<T>) {
    forall i, j | 0 <= i < j < |xs| :: xs[i] != xs[j]
  }

  lemma {:induction false} CountOnce<T(!new)>(xs: seq<T>, x: T)
    requires Distinct(xs)
    ensures multiset(xs)[x] == if x in xs then 1 else 0
    decreases |xs|
  {
    if xs != [] {
      var n := |xs| - 1;
      assert xs == xs[..n] + [xs[n]];
      CountOnce(xs[..n], x);
    }
  }

  lemma SameMembersSameLength<T(!new)>(xs: seq<T>, ys: seq<T>)
    requires Distinct(xs) && Distinct(ys) && forall x :: x in xs <==> x in ys
    ensures |xs| == |ys|
  {
    forall x ensures multiset(xs)[x] == multiset(ys)[x] {
      CountOnce(xs, x);
      CountOnce(ys, x);
    }
    assert multiset(xs) == multiset(ys);
    assert |multiset(xs)| == |multiset(ys)|;
  }

  /** Where the entry built in place `i` stands when the new keys come as `other`. */
  function Placed(n: nat, added: seq<Keys>, other: seq<Keys>, i: nat): nat
    requires i < n + |added|
  {
    if i < n then i else n + IndexOf(other, added[i - n])
  }

  function Placing(n: nat, added: seq<Keys>, other: seq<Keys>): seq<nat> {
    seq(n + |added|, i requires 0 <= i < n + |added| => Placed(n, added, other, i))
  }

  lemma PlacingPermutes(n: nat, added: seq<Keys>, other: seq<Keys>)
    requires Distinct(added) && Distinct(other) && forall x :: x in added <==> x in other
    ensures |added| == |other| && IsPermutation(Placing(n, added, other), n + |added|)
  {
    SameMembersSameLength(added, other);
    var perm := Placing(n, added, other);
    forall i | 0 <= i < n + |added| ensures perm[i] < n + |added| && (i >= n ==> other[perm[i] - n] == added[i - n]) {
      if i >= n { assert added[i - n] in added; }
    }
  }

  ghost predicate AgreeFirst(n: nat, xs: seq<Json>, ys: seq<Json>) {
    n <= |xs| && n <= |ys| && forall i | 0 <= i < n :: SameUpToOrder(xs[i], ys[i])
  }

  /** After the first `n` places, entries of the same keys agree. */
  ghost predicate AgreeByKeys(n: nat, added: seq<Keys>, other: seq<Keys>, xs: seq<Json>, ys: seq<Json>) {
    && |xs| == n + |added| && |ys| == n + |other|
    && forall j | 0 <= j < |added| && added[j] in other :: SameUpToOrder(xs[n + j], ys[n + IndexOf(other, added[j])])
  }

  lemma SameByKeys(n: nat, added: seq<Keys>, other: seq<Keys>, xs: seq<Json>, ys: seq<Json>)
    requires Distinct(added) && Distinct(other) && (forall x :: x in added <==> x in other)
    requires AgreeFirst(n, xs, ys) && AgreeByKeys(n, added, other, xs, ys)
    ensures SameUpToOrder(Array(xs), Array(ys))
  {
    PlacingPermutes(n, added, other);
    var perm := Placing(n, added, other);
    forall i | 0 <= i < |xs| ensures SameUpToOrder(xs[i], ys[perm[i]]) {
      if i >= n { assert added[i - n] in added; }
    }
    PermutedItems(xs, ys, perm);
  }

  lemma MadeAgree(entries: seq<Json>, writes: seq<Write>, other: seq<Write>, j: nat, k: nat)
    requires Pathed(writes) && Pathed(other) && j < |NewKeys(entries, writes)| && k < |NewKeys(entries, other)|
    requires NewKeys(entries, writes)[j] == NewKeys(entries, other)[k]
    requires SameUpToOrder(MadeEntry(writes, NewKeys(entries, writes)[j]),
                           MadeEntry(other, NewKeys(entries, writes)[j]))
    ensures SameUpToOrder(Built(entries, writes)[|entries| + j], Built(entries, other)[|entries| + k])
  {
    BuiltMade(entries, writes, j);
    BuiltMade(entries, other, k);
  }

  lemma OldAgree(entries: seq<Json>, writes: seq<Write>, other: seq<Write>, i: nat)
    requires Pathed(writes) && Pathed(other) && i < |entries|
    requires SameUpToOrder(OldEntry(entries, writes, i), OldEntry(entries, other, i))
    ensures SameUpToOrder(Built(entries, writes)[i], Built(entries, other)[i])
  {
    BuiltAt(entries, writes, i);
    BuiltAt(entries, other, i);
  }

  lemma NewKeysAgree(entries: seq<Json>, writes: seq<Write>, other: seq<Write>, names: set<string>)
    requires Entrywise(writes, names) && Entrywise(other, names) && multiset(writes) == multiset(other)
    ensures Distinct(NewKeys(entries, writes)) && Distinct(NewKeys(entries, other))
    ensures forall x :: x in NewKeys(entries, writes) <==> x in NewKeys(entries, other)
  {
    NewKeysAre(entries, writes, names);
    NewKeysAre(entries, other, names);
    forall x ensures x in NewKeys(entries, writes) <==> x in NewKeys(entries, other) {
      NewKeysReordered(entries, writes, other, x);
    }
  }

  lemma PermutedItems(xs: seq<Json>, ys: seq<Json>, perm: seq<nat>)
    requires |xs| == |ys| && IsPermutation(perm, |xs|) && forall i | 0 <= i < |xs| :: SameUpToOrder(xs[i], ys[perm[i]])
    ensures SameUpToOrder(Array(xs), Array(ys))
  {
    assert forall i | 0 <= i < |xs| :: SameUpToOrder(xs[i], Array(ys).items[perm[i]]);
  }

  // ---------------------------------------------------------------- writes through one member

  /** Writes through one member that are apart are all unkeyed there, or all told apart by one set of
      keys, unless they are one write. */
  lemma OneShape(writes: seq<Write>, name: string, a: Write, b: Write)
    requires AllApart(writes) && Through(writes, name) && a in writes && b in writes && a != b
    ensures a.path != [] && b.path != []
    ensures !a.path[0].Keyed() ==> a.path[0] == b.path[0] == Elem(name, map[])
    ensures a.path[0].Keyed() ==> b.path[0].Keyed() && KeysOf(a).Keys == KeysOf(b).Keys
  {
    assert Apart(a.path, b.path);
    assert exists i :: 0 <= i < |writes| && writes[i] == a;
    assert exists i :: 0 <= i < |writes| && writes[i] == b;
    if !a.path[0].Keyed() { assert a.path[0] == Elem(name, map[]); }
  }

  lemma InBoth(writes: seq<Write>, other: seq<Write>)
    requires multiset(writes) == multiset(other)
    ensures forall w :: w in writes <==> w in other
  {
    forall w ensures w in writes <==> w in other { SameBag(writes, other, w); }
  }

  lemma ShapeUnkeyed(writes: seq<Write>, name: string, a: Write)
    requires AllApart(writes) && Through(writes, name) && a in writes && !a.path[0].Keyed()
    ensures forall w | w in writes :: w.path != [] && w.path[0] == Elem(name, map[])
  {
    forall w | w in writes ensures w.path != [] && w.path[0] == Elem(name, map[]) {
      if w != a { OneShape(writes, name, a, w); }
    }
  }

  lemma ShapeKeyed(writes: seq<Write>, name: string, a: Write)
    requires AllApart(writes) && AllKeep(writes) && Through(writes, name) && a in writes && a.path[0].Keyed()
    ensures forall w | w in writes ::
              w.path != [] && w.path[0].name == name && KeysOf(w).Keys == KeysOf(a).Keys
              && Survives(KeysOf(w), w.path[1..], w.value)
  {
    forall w | w in writes
      ensures w.path != [] && w.path[0].name == name && KeysOf(w).Keys == KeysOf(a).Keys
              && Survives(KeysOf(w), w.path[1..], w.value)
    {
      if w != a { OneShape(writes, name, a, w); }
      assert KeepsKeys(w.path, w.value) && w.path[0].Keyed();
    }
  }

  lemma EntrywiseIf(writes: seq<Write>, names: set<string>)
    requires names != {} && forall w | w in writes ::
               w.path != [] && KeysOf(w).Keys == names && Survives(KeysOf(w), w.path[1..], w.value)
    ensures Entrywise(writes, names)
  {
  }

  lemma KeyedNames(a: Write)
    requires a.path != [] && a.path[0].Keyed()
    ensures KeysOf(a).Keys != {}
  {
    var k :| k in a.path[0].keys;
    assert k in a.path[0].keys.Keys;
  }

  lemma UnkeyedIs(node: Json, writes: seq<Write>, name: string)
    requires writes != [] && Unkeyed(writes, name)
    ensures Find(Fold(node, [], writes), name) == Some(Fold(Member(node, name), [], Tails(writes)))
  {
    FoldUnkeyed(node, name, writes);
  }

  lemma KeyedIs(node: Json, writes: seq<Write>, name: string, names: set<string>)
    requires writes != [] && Through(writes, name) && Entrywise(writes, names)
    ensures Find(Fold(node, [], writes), name) == Some(Array(Built(Items(Member(node, name)), writes)))
  {
    FoldKeyed(node, name, writes);
    ListFoldBuilds(Items(Member(node, name)), writes, names);
  }

  lemma TailsReordered(writes: seq<Write>, other: seq<Write>, name: string, n: nat)
    requires n > 0 && Orderly(writes, n) && multiset(writes) == multiset(other)
    requires Unkeyed(writes, name) && Unkeyed(other, name)
    ensures Orderly(Tails(writes), n - 1) && multiset(Tails(writes)) == multiset(Tails(other))
  {
    TailsAre(writes);
    TailsAre(other);
    BagOfForgetsOrder(PickBag(Every()), writes, other);
    PickedOrderly(Every(), writes, Tails(writes), n);
  }

  /** Writes through an unkeyed member, in another order. */
  lemma {:induction false} UnkeyedReordered(node: Json, writes: seq<Write>, other: seq<Write>, name: string, n: nat)
    requires n > 0 && Orderly(writes, n) && multiset(writes) == multiset(other) && writes != []
    requires Unkeyed(writes, name) && Unkeyed(other, name)
    ensures SameFound(Find(Fold(node, [], writes), name), Find(Fold(node, [], other), name))
    decreases n, 0
  {
    SameBag(writes, other, writes[0]);
    UnkeyedIs(node, writes, name);
    UnkeyedIs(node, other, name);
    TailsReordered(writes, other, name, n);
    Reordered(Member(node, name), Tails(writes), Tails(other), n - 1);
  }

  lemma {:induction false} OldReordered(
    entries: seq<Json>, writes: seq<Write>, other: seq<Write>, names: set<string>, name: string, i: nat, n: nat)
    requires n > 0 && Orderly(writes, n) && multiset(writes) == multiset(other) && Through(writes, name)
    requires Entrywise(writes, names) && Entrywise(other, names) && i < |entries|
    ensures SameUpToOrder(OldEntry(entries, writes, i), OldEntry(entries, other, i))
    decreases n, 0
  {
    var pick := Finds(entries, i);
    HitsAre(entries, writes, i);
    HitsAre(entries, other, i);
    BagOfForgetsOrder(PickBag(pick), writes, other);
    forall a, b | a in writes && b in writes && a.path != [] && b.path != [] && pick(a) && pick(b)
      ensures a.path[0] == b.path[0]
    {
      OneKeyEach(entries[i], KeysOf(a), KeysOf(b));
    }
    PickedOrderly(pick, writes, Hits(entries, writes, i), n);
    Reordered(entries[i], Hits(entries, writes, i), Hits(entries, other, i), n - 1);
  }

  lemma {:induction false} MadeReordered(
    writes: seq<Write>, other: seq<Write>, names: set<string>, name: string, keys: Keys, n: nat)
    requires n > 0 && Orderly(writes, n) && multiset(writes) == multiset(other) && Through(writes, name)
    requires Entrywise(writes, names) && Entrywise(other, names)
    ensures SameUpToOrder(MadeEntry(writes, keys), MadeEntry(other, keys))
    decreases n, 0
  {
    var pick := Names(keys);
    GroupIs(writes, keys);
    GroupIs(other, keys);
    BagOfForgetsOrder(PickBag(pick), writes, other);
    forall a, b | a in writes && b in writes && a.path != [] && b.path != [] && pick(a) && pick(b)
      ensures a.path[0] == b.path[0]
    {
      assert a.path[0].name == b.path[0].name == name && a.path[0].keys == b.path[0].keys;
    }
    PickedOrderly(pick, writes, Group(writes, keys), n);
    Reordered(NewEntry(keys), Group(writes, keys), Group(other, keys), n - 1);
  }

  lemma {:induction false} OldsReordered(
    entries: seq<Json>, writes: seq<Write>, other: seq<Write>, names: set<string>, name: string, n: nat)
    requires n > 0 && Orderly(writes, n) && multiset(writes) == multiset(other) && Through(writes, name)
    requires Entrywise(writes, names) && Entrywise(other, names)
    ensures AgreeFirst(|entries|, Built(entries, writes), Built(entries, other))
    decreases n, 1
  {
    var xs, ys := Built(entries, writes), Built(entries, other);
    forall i | 0 <= i < |entries| ensures SameUpToOrder(xs[i], ys[i]) {
      OldReordered(entries, writes, other, names, name, i, n);
      OldAgree(entries, writes, other, i);
    }
  }

  lemma {:induction false} MadesReordered(
    entries: seq<Json>, writes: seq<Write>, other: seq<Write>, names: set<string>, name: string, n: nat)
    requires n > 0 && Orderly(writes, n) && multiset(writes) == multiset(other) && Through(writes, name)
    requires Entrywise(writes, names) && Entrywise(other, names)
    ensures AgreeByKeys(|entries|, NewKeys(entries, writes), NewKeys(entries, other),
                        Built(entries, writes), Built(entries, other))
    decreases n, 1
  {
    var m, added, others := |entries|, NewKeys(entries, writes), NewKeys(entries, other);
    var xs, ys := Built(entries, writes), Built(entries, other);
    forall j | 0 <= j < |added| && added[j] in others
      ensures SameUpToOrder(xs[m + j], ys[m + IndexOf(others, added[j])])
    {
      MadeReordered(writes, other, names, name, added[j], n);
      MadeAgree(entries, writes, other, j, IndexOf(others, added[j]));
    }
  }

  /** Writes to the entries of one list, in another order. */
  lemma {:induction false} KeyedReordered(
    node: Json, writes: seq<Write>, other: seq<Write>, name: string, names: set<string>, n: nat)
    requires n > 0 && Orderly(writes, n) && multiset(writes) == multiset(other) && writes != []
    requires Through(writes, name) && Through(other, name) && Entrywise(writes, names) && Entrywise(other, names)
    ensures SameFound(Find(Fold(node, [], writes), name), Find(Fold(node, [], other), name))
    decreases n, 3
  {
    SameBag(writes, other, writes[0]);
    KeyedIs(node, writes, name, names);
    KeyedIs(node, other, name, names);
    ListReordered(Items(Member(node, name)), writes, other, name, names, n);
  }

  lemma {:induction false} ListReordered(
    entries: seq<Json>, writes: seq<Write>, other: seq<Write>, name: string, names: set<string>, n: nat)
    requires n > 0 && Orderly(writes, n) && multiset(writes) == multiset(other)
    requires Through(writes, name) && Entrywise(writes, names) && Entrywise(other, names)
    ensures SameUpToOrder(Array(Built(entries, writes)), Array(Built(entries, other)))
    decreases n, 2
  {
    NewKeysAgree(entries, writes, other, names);
    OldsReordered(entries, writes, other, names, name, n);
    MadesReordered(entries, writes, other, names, name, n);
    SameByKeys(|entries|, NewKeys(entries, writes), NewKeys(entries, other),
               Built(entries, writes), Built(entries, other));
  }

  ghost predicate SameFound(a: Option<Json>, b: Option<Json>) {
    (a.Some? <==> b.Some?) && (a.Some? ==> SameUpToOrder(a.value, b.value))
  }

  lemma SameFoundReflexive(a: Option<Json>)
    ensures SameFound(a, a)
  {
    if a.Some? { SameReflexive(a.value); }
  }

  /** Writes through one member, in another order. */
  lemma {:induction false} ThroughReordered(node: Json, writes: seq<Write>, other: seq<Write>, name: string, n: nat)
    requires n > 0 && Orderly(writes, n) && multiset(writes) == multiset(other)
    requires Through(writes, name) && Through(other, name)
    ensures SameFound(Find(Fold(node, [], writes), name), Find(Fold(node, [], other), name))
    decreases n, 4
  {
    if forall a, b | a in writes && b in writes :: a == b {
      OneOrder(writes, other);
      SameFoundReflexive(Find(Fold(node, [], writes), name));
    } else {
      var a :| a in writes;
      InBoth(writes, other);
      if !a.path[0].Keyed() {
        ShapeUnkeyed(writes, name, a);
        UnkeyedReordered(node, writes, other, name, n);
      } else {
        ShapeKeyed(writes, name, a);
        KeyedNames(a);
        EntrywiseIf(writes, KeysOf(a).Keys);
        EntrywiseIf(other, KeysOf(a).Keys);
        KeyedReordered(node, writes, other, name, KeysOf(a).Keys, n);
      }
    }
  }

  lemma FocusOrderly(writes: seq<Write>, name: string, n: nat)
    requires Pathed(writes) && Orderly(writes, n)
    ensures Orderly(Focus(writes, name), n)
  {
    forall w ensures w in Focus(writes, name) ==> w in writes { FocusIn(writes, name, w); }
  }

  lemma SameByMember(a: Json, b: Json)
    requires a.Object? && b.Object? && forall k :: SameFound(Find(a, k), Find(b, k))
    ensures SameUpToOrder(a, b)
  {
    forall k ensures k in a.members <==> k in b.members {
      assert SameFound(Find(a, k), Find(b, k));
    }
    assert a.members.Keys == b.members.Keys;
    forall k | k in a.members ensures SameUpToOrder(a.members[k], b.members[k]) {
      assert SameFound(Find(a, k), Find(b, k));
    }
  }

  /** Writes of which no two different ones lead to the same place fold alike in every order. */
  lemma {:induction false} Reordered(node: Json, writes: seq<Write>, other: seq<Write>, n: nat)
    requires Orderly(writes, n) && multiset(writes) == multiset(other)
    ensures SameUpToOrder(Fold(node, [], writes), Fold(node, [], other))
    decreases n, 5
  {
    if forall a, b | a in writes && b in writes :: a == b {
      OneOrder(writes, other);
      SameReflexive(Fold(node, [], writes));
    } else {
      var a, b :| a in writes && b in writes && a != b;
      InBoth(writes, other);
      SameBag(writes, other, a);
      AllPathed(writes, a, b);
      assert n > 0 by { assert |a.path| <= n && Apart(a.path, b.path); }
      forall k ensures SameFound(Find(Fold(node, [], writes), k), Find(Fold(node, [], other), k)) {
        FocusFold(node, writes, k);
        FocusFold(node, other, k);
        FocusReordered(writes, other, k);
        FocusOrderly(writes, k, n);
        ThroughReordered(node, Focus(writes, k), Focus(other, k), k, n);
      }
      FocusFold(node, writes, "");
      FocusFold(node, other, "");
      SameByMember(Fold(node, [], writes), Fold(node, [], other));
    }
  }

  lemma AllPathed(writes: seq<Write>, a: Write, b: Write)
    requires AllApart(writes) && a in writes && b in writes && a != b
    ensures forall w | w in writes :: w.path != []
  {
    forall w | w in writes ensures w.path != [] {
      assert if w != a then Apart(w.path, a.path) else Apart(w.path, b.path);
    }
  }

  lemma {:induction false} SomeLength(writes: seq<Write>) returns (n: nat)
    ensures AllWithin(writes, n)
    decreases |writes|
  {
    if writes == [] {
      n := 0;
    } else {
      var m := SomeLength(writes[1..]);
      n := if |writes[0].path| > m then |writes[0].path| else m;
      assert writes == [writes[0]] + writes[1..];
    }
  }

  /** Any number of updates, of which no two different ones lead to the same place and none overwrites
      a list key on its way, fold into the same tree in every order, onto every tree, up to the order
      of list entries. */
  lemma AnyOrder(node: Json, writes: seq<Write>, other: seq<Write>)
    requires AllApart(writes) && AllKeep(writes) && multiset(writes) == multiset(other)
    ensures SameUpToOrder(Fold(node, [], writes), Fold(node, [], other))
  {
    var n := SomeLength(writes);
    Reordered(node, writes, other, n);
  }

  // ---------------------------------------------------------------- same up to order is an equivalence

  lemma {:induction false} ImageSize(perm: seq<nat>, n: nat, k: nat)
    requires IsPermutation(perm, n) && k <= n
    ensures |set i | 0 <= i < k :: perm[i]| == k
    decreases k
  {
    var image := set i | 0 <= i < k :: perm[i];
    if k == 0 {
      assert image == {};
    } else {
      ImageSize(perm, n, k - 1);
      var before := set i | 0 <= i < k - 1 :: perm[i];
      assert perm[k - 1] !in before;
      assert image == before + {perm[k - 1]};
    }
  }

  /** The places of a list of length `n`. */
  function Below(n: nat): (r: set<nat>)
    ensures |r| == n && forall x: nat :: x in r <==> x < n
  {
    if n == 0 then {} else Below(n - 1) + {n - 1}
  }

  lemma SubsetOfSameSize<T>(a: set<T>, b: set<T>)
    requires a <= b && |a| == |b|
    ensures a == b
  {
    assert |b - a| == |b| - |a|;
  }

  /** A permutation reaches every place. */
  lemma Reaches(perm: seq<nat>, n: nat, x: nat) returns (i: nat)
    requires IsPermutation(perm, n) && x < n
    ensures i < n && perm[i] == x
  {
    var image := set i | 0 <= i < n :: perm[i];
    ImageSize(perm, n, n);
    SubsetOfSameSize(image, Below(n));
    assert x in image;
    i :| 0 <= i < n && perm[i] == x;
  }

  lemma Inverse(perm: seq<nat>, n: nat) returns (back: seq<nat>)
    requires IsPermutation(perm, n)
    ensures IsPermutation(back, n) && forall x | 0 <= x < n :: perm[back[x]] == x
  {
    back := [];
    for x := 0 to n
      invariant |back| == x && forall y | 0 <= y < x :: back[y] < n && perm[back[y]] == y
    {
      var i := Reaches(perm, n, x);
      back := back + [i];
    }
  }

  lemma {:induction false} SameSymmetric(a: Json, b: Json)
    requires SameUpToOrder(a, b)
    ensures SameUpToOrder(b, a)
    decreases a
  {
    match a
    case Array(xs) =>
      var perm: seq<nat> :|
        IsPermutation(perm, |xs|) && forall i | 0 <= i < |xs| :: SameUpToOrder(xs[i], b.items[perm[i]]);
      var back := Inverse(perm, |xs|);
      forall x | 0 <= x < |xs| ensures SameUpToOrder(b.items[x], xs[back[x]]) {
        SameSymmetric(xs[back[x]], b.items[perm[back[x]]]);
      }
      PermutedItems(b.items, xs, back);
    case Object(m) =>
      forall k | k in m ensures SameUpToOrder(b.members[k], m[k]) { SameSymmetric(m[k], b.members[k]); }
    case _ =>
  }

  lemma Composed(first: seq<nat>, second: seq<nat>, n: nat) returns (both: seq<nat>)
    requires IsPermutation(first, n) && IsPermutation(second, n)
    ensures IsPermutation(both, n) && forall i | 0 <= i < n :: both[i] == second[first[i]]
  {
    both := seq(n, i requires 0 <= i < n => second[first[i]]);
    forall i, j | 0 <= i < j < n ensures both[i] != both[j] {
      assert first[i] != first[j];
      assert if first[i] < first[j] then second[first[i]] != second[first[j]] else second[first[j]] != second[first[i]];
    }
  }

  lemma {:induction false} SameTransitive(a: Json, b: Json, c: Json)
    requires SameUpToOrder(a, b) && SameUpToOrder(b, c)
    ensures SameUpToOrder(a, c)
    decreases a
  {
    match a
    case Array(xs) =>
      var ys := b.items;
      var first: seq<nat> :|
        IsPermutation(first, |xs|) && forall i | 0 <= i < |xs| :: SameUpToOrder(xs[i], ys[first[i]]);
      var second: seq<nat> :|
        IsPermutation(second, |ys|) && forall i | 0 <= i < |ys| :: SameUpToOrder(ys[i], c.items[second[i]]);
      var both := Composed(first, second, |xs|);
      forall i | 0 <= i < |xs| ensures SameUpToOrder(xs[i], c.items[both[i]]) {
        SameTransitive(xs[i], ys[first[i]], c.items[second[first[i]]]);
      }
      PermutedItems(xs, c.items, both);
    case Object(m) =>
      forall k | k in m ensures SameUpToOrder(m[k], c.members[k]) { SameTransitive(m[k], b.members[k], c.members[k]); }
    case _ =>
  }
}
