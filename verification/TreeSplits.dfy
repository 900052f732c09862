/** Answers cut up below list entries too (agent/src/gnmi/tree.rs): a value with lists in it may arrive
    whole, entry by entry, leaf by leaf, or in any mixture, the parts of different entries interleaved.
    All of them fold into the same tree, up to the order of list entries, exactly when no entry is
    listed yet and no key is left to its path but a string.
 */
module TreeSplits {
  import opened Options
  import opened Tree
  import opened TreeGroups
  import opened TreeOrders

  // ---------------------------------------------------------------- splits

  /** A write that carries something of an object: below one of its members, or some of its members. */
  predicate Carries(w: Write, value: Json)
    requires value.Object?
  {
    if w.path != [] then w.path[0].name in value.members
    else w.value.Object? && w.value.members.Keys <= value.members.Keys
  }

  /** `ids` names the entries `xs` by one set of keys, and `parts` are writes to all of them. */
  ghost predicate Identifies(ids: seq<Keys>, names: set<string>, parts: seq<Write>, xs: seq<Json>)
    requires Pathed(parts)
  {
    && names != {}
    && |ids| == |xs|
    && Distinct(ids)
    && (forall i | 0 <= i < |ids| :: ids[i].Keys == names && KeysMatch(xs[i], ids[i]) && Group(parts, ids[i]) != [])
    && (forall j | 0 <= j < |parts| :: KeysOf(parts[j]) in ids)
  }

  /** `writes` carries every leaf of `value`, cut up and ordered in any way. Entries of a list may be
      addressed by their keys; what such a path has `made` need not be sent again. */
  ghost predicate Splits(writes: seq<Write>, value: Json, made: Keys)
    decreases value, 0
  {
    || writes == [Write([], value)]
    || (&& value.Object?
        && writes != []
        && (forall i | 0 <= i < |writes| :: Carries(writes[i], value))
        && (forall k | k in value.members :: SplitsMember(Focus(writes, k), k, value.members[k], made)))
  }

  ghost predicate SplitsMember(parts: seq<Write>, name: string, value: Json, made: Keys)
    requires Through(parts, name)
    decreases value, 1
  {
    || (parts == [] && name in made && KeyMatches(value, made[name]))
    || (parts != [] && Unkeyed(parts, name) && Splits(Tails(parts), value, map[]))
    || (parts != [] && value.Array? && SplitsList(parts, value))
  }

  ghost predicate SplitsList(parts: seq<Write>, value: Json)
    requires Pathed(parts) && value.Array?
    decreases value, 0
  {
    exists ids: seq<Keys>, names: set<string> ::
      && Identifies(ids, names, parts, value.items)
      && forall i | 0 <= i < |ids| :: Splits(Group(parts, ids[i]), value.items[i], ids[i])
  }

  /** None of the entries that `parts` address is in the list. */
  ghost predicate NoneListed(entries: seq<Json>, parts: seq<Write>)
    requires Pathed(parts)
  {
    forall j | 0 <= j < |parts| :: FirstMatch(entries, KeysOf(parts[j])) == |entries|
  }

  /** No list entry that `writes` addresses below `node` is there already. */
  ghost predicate NotListed(node: Json, writes: seq<Write>, value: Json)
    decreases value, 0
  {
    || writes == [Write([], value)]
    || (value.Object? ==>
          forall k | k in value.members :: NotListedIn(Member(node, k), Focus(writes, k), k, value.members[k]))
  }

  ghost predicate NotListedIn(child: Json, parts: seq<Write>, name: string, value: Json)
    requires Through(parts, name)
    decreases value, 1
  {
    if parts == [] then true
    else if Unkeyed(parts, name) then NotListed(child, Tails(parts), value)
    else NoneListed(Items(child), parts)
  }

  /** Every list key that `writes` leaves to the path is a string, as a path would make it. */
  ghost predicate LeftAsText(writes: seq<Write>, value: Json, made: Keys)
    decreases value, 0
  {
    || writes == [Write([], value)]
    || (value.Object? ==> forall k | k in value.members :: LeftAsTextIn(Focus(writes, k), k, value.members[k], made))
  }

  ghost predicate LeftAsTextIn(parts: seq<Write>, name: string, value: Json, made: Keys)
    requires Through(parts, name)
    decreases value, 1
  {
    if parts == [] then name in made ==> value == Str(made[name])
    else if Unkeyed(parts, name) then LeftAsText(Tails(parts), value, map[])
    else value.Array? ==> LeftAsTextEach(parts, value)
  }

  ghost predicate LeftAsTextEach(parts: seq<Write>, value: Json)
    requires Pathed(parts) && value.Array?
    decreases value, 0
  {
    forall i, j | 0 <= i < |value.items| && 0 <= j < |parts| && KeysMatch(value.items[i], KeysOf(parts[j])) ::
      LeftAsText(Group(parts, KeysOf(parts[j])), value.items[i], KeysOf(parts[j]))
  }

  // ---------------------------------------------------------------- the parts keep list keys

  lemma {:induction false} FocusHas(writes: seq<Write>, i: nat, name: string)
    requires i < |writes|
    ensures forall w | w in FocusOne(writes[i], name) :: w in Focus(writes, name)
    decreases |writes|
  {
    if i > 0 {
      FocusHas(writes[1..], i - 1, name);
    }
  }

  lemma ScalarWhole(writes: seq<Write>, value: Json, made: Keys)
    requires Splits(writes, value, made) && !value.Object?
    ensures writes == [Write([], value)]
  {
  }

  lemma OnlyPart(parts: seq<Write>, name: string, value: Json, part: Write)
    requires Unkeyed(parts, name) && Tails(parts) == [Write([], value)] && part in parts
    ensures part == Write([Elem(name, map[])], value)
  {
    assert |parts| == 1 && parts[0] == part;
    assert Tails(parts)[0] == Tail(part);
    assert part.path == [part.path[0]] + Tail(part).path;
  }

  lemma ScalarMember(parts: seq<Write>, name: string, value: Json, made: Keys, part: Write)
    requires Through(parts, name) && SplitsMember(parts, name, value, made) && part in parts
    requires !value.Object? && !value.Array?
    ensures part == Write([Elem(name, map[])], value)
  {
    ScalarWhole(Tails(parts), value, map[]);
    OnlyPart(parts, name, value, part);
  }

  /** What a split says about a member that is a scalar is that scalar, whole. */
  lemma ScalarPart(writes: seq<Write>, value: Json, made: Keys, name: string, part: Write)
    requires Splits(writes, value, made) && writes != [Write([], value)]
    requires name in value.members && !value.members[name].Object? && !value.members[name].Array?
    requires part in Focus(writes, name)
    ensures part == Write([Elem(name, map[])], value.members[name])
  {
    ScalarMember(Focus(writes, name), name, value.members[name], made, part);
  }

  lemma PartKeeps(keys: Keys, writes: seq<Write>, value: Json, made: Keys, i: nat)
    requires Splits(writes, value, made) && Survives(keys, [], value) && i < |writes|
    ensures Survives(keys, writes[i].path, writes[i].value)
  {
    var w := writes[i];
    if writes != [Write([], value)] {
      assert Carries(w, value);
      if w.path != [] {
        var name := w.path[0].name;
        if name in keys {
          FocusHas(writes, i, name);
          assert KeyMatches(value.members[name], keys[name]);
          assert w in FocusOne(w, name);
          ScalarPart(writes, value, made, name, w);
        }
      } else {
        forall k | k in keys && k in w.value.members ensures KeyMatches(w.value.members[k], keys[k]) {
          FocusHas(writes, i, k);
          assert KeyMatches(value.members[k], keys[k]);
          var part := Write([Elem(k, map[])], w.value.members[k]);
          assert part in FocusOne(w, k);
          ScalarPart(writes, value, made, k, part);
        }
      }
    }
  }

  lemma PartKeepsBelow(keys: Keys, rest: seq<Elem>, writes: seq<Write>, value: Json, i: nat)
    requires Splits(writes, value, map[]) && Survives(keys, rest, value) && i < |writes|
    ensures Survives(keys, rest + writes[i].path, writes[i].value)
  {
    if rest == [] {
      assert rest + writes[i].path == writes[i].path;
      PartKeeps(keys, writes, value, map[], i);
    } else if writes == [Write([], value)] {
      assert rest + writes[i].path == rest;
    } else {
      assert (rest + writes[i].path)[0] == rest[0];
    }
  }

  lemma {:induction false} GroupHas(parts: seq<Write>, j: nat)
    requires Pathed(parts) && j < |parts|
    ensures Tail(parts[j]) in Group(parts, KeysOf(parts[j]))
    decreases |parts|
  {
    var n := |parts| - 1;
    if j < n {
      assert parts[..n][j] == parts[j];
      GroupHas(parts[..n], j);
    }
  }

  lemma ListPartsKeep(ids: seq<Keys>, names: set<string>, parts: seq<Write>, xs: seq<Json>)
    requires Pathed(parts) && Identifies(ids, names, parts, xs)
    requires forall i | 0 <= i < |ids| :: Splits(Group(parts, ids[i]), xs[i], ids[i])
    ensures Entrywise(parts, names)
  {
    forall j | 0 <= j < |parts|
      ensures KeysOf(parts[j]).Keys == names && Survives(KeysOf(parts[j]), parts[j].path[1..], parts[j].value)
    {
      var i := IndexOf(ids, KeysOf(parts[j]));
      GroupHas(parts, j);
      var group := Group(parts, ids[i]);
      var m :| 0 <= m < |group| && group[m] == Tail(parts[j]);
      var k :| k in ids[i].Keys;
      assert KeysMatch(xs[i], ids[i]) && k in ids[i];
      PartKeeps(ids[i], group, xs[i], ids[i], m);
    }
  }

  // ---------------------------------------------------------------- new entries

  /** A new entry merged with a value that carries its keys is that value. */
  lemma NewEntryMerges(keys: Keys, x: Json)
    requires keys != map[] && KeysMatch(x, keys)
    ensures MergeValue(NewEntry(keys), x) == x
  {
    var k0 :| k0 in keys;
    assert x.Object?;
    forall k ensures Find(MergeValue(NewEntry(keys), x), k) == Find(x, k) {
      MergedMember(NewEntry(keys), x, k);
      if k in keys { assert KeyMatches(x.members[k], keys[k]); }
      if k in x.members { MergeOverScalar(Member(NewEntry(keys), k), x.members[k]); }
    }
    MergedMember(NewEntry(keys), x, k0);
    SameMembers(MergeValue(NewEntry(keys), x), x);
  }

  lemma {:induction false} BareNotListed(node: Json, writes: seq<Write>, value: Json)
    requires Bare(node)
    ensures NotListed(node, writes, value)
    decreases value
  {
    if value.Object? {
      forall k | k in value.members ensures NotListedIn(Member(node, k), Focus(writes, k), k, value.members[k]) {
        var parts := Focus(writes, k);
        if k in Members(node) { assert Members(node)[k].Str?; }
        assert Items(Member(node, k)) == [] && Members(Member(node, k)) == map[];
        if parts != [] && Unkeyed(parts, k) { BareNotListed(Member(node, k), Tails(parts), value.members[k]); }
      }
    }
  }

  // ---------------------------------------------------------------- every split folds alike

  /** The node has what a keyed path made. */
  ghost predicate Made(node: Json, made: Keys) {
    forall k | k in made :: Find(node, k) == Some(Str(made[k]))
  }

  lemma NoHits(entries: seq<Json>, parts: seq<Write>, i: nat)
    requires Pathed(parts) && i < |entries| && NoneListed(entries, parts)
    ensures OldEntry(entries, parts, i) == entries[i]
  {
    NoneFound(entries, parts, i);
  }

  lemma {:induction false} NoneFound(entries: seq<Json>, parts: seq<Write>, i: nat)
    requires Pathed(parts) && i < |entries| && NoneListed(entries, parts)
    ensures Hits(entries, parts, i) == []
    decreases |parts|
  {
    if parts != [] {
      var n := |parts| - 1;
      assert forall j | 0 <= j < n :: parts[..n][j] == parts[j];
      NoneFound(entries, parts[..n], i);
    }
  }

  /** When no entry is listed, the new keys are those of the split, in some order. */
  lemma AddedAre(entries: seq<Json>, ids: seq<Keys>, names: set<string>, parts: seq<Write>, xs: seq<Json>, keys: Keys)
    requires Pathed(parts) && Identifies(ids, names, parts, xs)
    requires NoneListed(entries, parts)
    ensures keys in NewKeys(entries, parts) <==> keys in ids
  {
    NewKeysIn(entries, parts, keys);
    if keys in ids {
      var w := GroupFrom(parts, ids[IndexOf(ids, keys)]);
      assert w in parts && KeysOf(w) == keys;
      var j :| 0 <= j < |parts| && parts[j] == w;
      assert FirstMatch(entries, KeysOf(parts[j])) == |entries|;
    }
    if keys in NewKeys(entries, parts) {
      var w :| w in parts && KeysOf(w) == keys;
      var j :| 0 <= j < |parts| && parts[j] == w;
      assert KeysOf(parts[j]) in ids;
    }
  }

  lemma {:induction false} GroupFrom(parts: seq<Write>, keys: Keys) returns (w: Write)
    requires Pathed(parts) && Group(parts, keys) != []
    ensures w in parts && KeysOf(w) == keys
    decreases |parts|
  {
    var n := |parts| - 1;
    if KeysOf(parts[n]) == keys {
      w := parts[n];
    } else {
      w := GroupFrom(parts[..n], keys);
    }
  }

  /** A list built from parts of unlisted entries is the list with the whole entries appended. */
  lemma ListAppends(entries: seq<Json>, ids: seq<Keys>, names: set<string>, parts: seq<Write>, xs: seq<Json>)
    requires Pathed(parts) && Identifies(ids, names, parts, xs) && Entrywise(parts, names)
    requires NoneListed(entries, parts)
    requires forall i | 0 <= i < |ids| :: SameUpToOrder(MadeEntry(parts, ids[i]), xs[i])
    ensures SameUpToOrder(Array(Built(entries, parts)), Array(entries + xs))
  {
    var added, built, whole := NewKeys(entries, parts), Built(entries, parts), entries + xs;
    assert Distinct(added) by { NewKeysAre(entries, parts, names); }
    forall x ensures x in added <==> x in ids { AddedAre(entries, ids, names, parts, xs, x); }
    OldsStay(entries, parts, xs);
    MadesAppend(entries, ids, parts, xs);
    SameByKeys(|entries|, added, ids, built, whole);
  }

  lemma OldsStay(entries: seq<Json>, parts: seq<Write>, xs: seq<Json>)
    requires Pathed(parts) && NoneListed(entries, parts)
    ensures AgreeFirst(|entries|, Built(entries, parts), entries + xs)
  {
    forall i | 0 <= i < |entries| ensures SameUpToOrder(Built(entries, parts)[i], (entries + xs)[i]) {
      BuiltAt(entries, parts, i);
      NoHits(entries, parts, i);
      SameReflexive(entries[i]);
    }
  }

  lemma MadesAppend(entries: seq<Json>, ids: seq<Keys>, parts: seq<Write>, xs: seq<Json>)
    requires Pathed(parts) && |ids| == |xs|
    requires forall i | 0 <= i < |ids| :: SameUpToOrder(MadeEntry(parts, ids[i]), xs[i])
    ensures AgreeByKeys(|entries|, NewKeys(entries, parts), ids, Built(entries, parts), entries + xs)
  {
    var added := NewKeys(entries, parts);
    forall j | 0 <= j < |added| && added[j] in ids
      ensures SameUpToOrder(Built(entries, parts)[|entries| + j], (entries + xs)[|entries| + IndexOf(ids, added[j])])
    {
      BuiltMade(entries, parts, j);
      var i := IndexOf(ids, added[j]);
      assert SameUpToOrder(MadeEntry(parts, ids[i]), xs[i]);
    }
  }

  lemma MergedList(child: Json, xs: seq<Json>)
    ensures MergeValue(child, Array(xs)) == Array(Items(child) + xs)
  {
    assert [] + xs == xs;
  }

  /** Trees that are the same carry the same keys. */
  lemma SameKeepsKeys(a: Json, b: Json, keys: Keys)
    requires SameUpToOrder(a, b) && keys != map[] && KeysMatch(a, keys)
    ensures KeysMatch(b, keys)
  {
    var k0 :| k0 in keys;
    assert a.Object?;
    forall k | k in keys ensures k in b.members && KeyMatches(b.members[k], keys[k]) {
      assert KeyMatches(a.members[k], keys[k]);
      assert SameUpToOrder(a.members[k], b.members[k]);
    }
  }

  lemma ShorterIfMissing<T(!new)>(xs: seq<T>, ys: seq<T>, y: T)
    requires Distinct(xs) && Distinct(ys) && (forall x | x in xs :: x in ys) && y in ys && y !in xs
    ensures |xs| < |ys|
  {
    var some, all := multiset(xs) + multiset{y}, multiset(ys);
    forall x ensures some[x] <= all[x] {
      CountOnce(xs, x);
      CountOnce(ys, x);
    }
    assert all == some + (all - some);
  }

  /** An entry that is listed already makes the list shorter than with whole entries appended. */
  lemma ListedShortens(
    entries: seq<Json>, ids: seq<Keys>, names: set<string>, parts: seq<Write>, xs: seq<Json>, j: nat)
    requires Pathed(parts) && Identifies(ids, names, parts, xs) && Entrywise(parts, names)
    requires j < |parts| && FirstMatch(entries, KeysOf(parts[j])) < |entries|
    ensures |Built(entries, parts)| < |entries + xs|
  {
    var added, keys := NewKeys(entries, parts), KeysOf(parts[j]);
    NewKeysAre(entries, parts, names);
    NewKeysIn(entries, parts, keys);
    forall x | x in added ensures x in ids {
      NewKeysIn(entries, parts, x);
      var w :| w in parts && KeysOf(w) == x;
      var m :| 0 <= m < |parts| && parts[m] == w;
      assert KeysOf(parts[m]) in ids;
    }
    ShorterIfMissing(added, ids, keys);
  }

  /** Nothing but the whole entry can stand for the entry made for its keys. */
  lemma MadeStandsFor(
    entries: seq<Json>, ids: seq<Keys>, names: set<string>, parts: seq<Write>, xs: seq<Json>, i: nat, made: Json,
    at: nat)
    requires Pathed(parts) && Identifies(ids, names, parts, xs) && i < |ids| && at < |entries + xs|
    requires FirstMatch(entries, ids[i]) == |entries|
    requires KeysMatch(made, ids[i]) && SameUpToOrder(made, (entries + xs)[at])
    ensures at == |entries| + i
  {
    var k :| k in ids[i].Keys;
    assert k in ids[i];
    SameKeepsKeys(made, (entries + xs)[at], ids[i]);
    if at >= |entries| {
      var m := at - |entries|;
      assert (entries + xs)[at] == xs[m];
      assert KeysMatch(xs[m], ids[m]) && ids[m].Keys == names;
      OneKeyEach(xs[m], ids[m], ids[i]);
    }
  }

  lemma MadeCarries(parts: seq<Write>, names: set<string>, keys: Keys)
    requires Entrywise(parts, names) && keys.Keys == names
    ensures KeysMatch(MadeEntry(parts, keys), keys)
  {
    MadeMatches(parts, names, keys, keys);
  }

  /** Each entry of a list stands somewhere in a list that is the same up to order. */
  lemma Standing(xs: seq<Json>, ys: seq<Json>, i: nat) returns (at: nat)
    requires i < |xs| && SameUpToOrder(Array(xs), Array(ys))
    ensures at < |ys| && SameUpToOrder(xs[i], ys[at])
  {
    var a, b := Array(xs), Array(ys);
    var perm: seq<nat> :| IsPermutation(perm, |a.items|) &&
                          forall k | 0 <= k < |a.items| :: SameUpToOrder(a.items[k], b.items[perm[k]]);
    at := perm[i];
    assert SameUpToOrder(a.items[i], b.items[perm[i]]);
  }

  /** Where the entry made for one of the keys is put. */
  lemma MadePlace(entries: seq<Json>, ids: seq<Keys>, names: set<string>, parts: seq<Write>, xs: seq<Json>, keys: Keys)
    returns (at: nat)
    requires Pathed(parts) && Identifies(ids, names, parts, xs) && Entrywise(parts, names) && keys in ids
    requires NoneListed(entries, parts)
    ensures at < |Built(entries, parts)| && Built(entries, parts)[at] == MadeEntry(parts, keys)
    ensures FirstMatch(entries, keys) == |entries| && KeysMatch(MadeEntry(parts, keys), keys)
  {
    AddedAre(entries, ids, names, parts, xs, keys);
    NewKeysIn(entries, parts, keys);
    var j := IndexOf(NewKeys(entries, parts), keys);
    BuiltMade(entries, parts, j);
    MadeCarries(parts, names, keys);
    at := |entries| + j;
  }

  lemma SameListEntry(entries: seq<Json>, ids: seq<Keys>, names: set<string>, parts: seq<Write>, xs: seq<Json>, i: nat)
    requires Pathed(parts) && Identifies(ids, names, parts, xs) && Entrywise(parts, names) && i < |ids|
    requires NoneListed(entries, parts) && SameUpToOrder(Array(Built(entries, parts)), Array(entries + xs))
    ensures SameUpToOrder(MadeEntry(parts, ids[i]), xs[i])
  {
    var made := MadeEntry(parts, ids[i]);
    var from := MadePlace(entries, ids, names, parts, xs, ids[i]);
    var at := Standing(Built(entries, parts), entries + xs, from);
    MadeStandsFor(entries, ids, names, parts, xs, i, made, at);
  }

  /** The list is the same with its new entries whole exactly when none was listed and each is. */
  lemma SameList(entries: seq<Json>, ids: seq<Keys>, names: set<string>, parts: seq<Write>, xs: seq<Json>)
    requires Pathed(parts) && Identifies(ids, names, parts, xs) && Entrywise(parts, names)
    ensures SameUpToOrder(Array(Built(entries, parts)), Array(entries + xs)) <==>
            NoneListed(entries, parts) && forall i | 0 <= i < |ids| :: SameUpToOrder(MadeEntry(parts, ids[i]), xs[i])
  {
    if NoneListed(entries, parts) && forall i | 0 <= i < |ids| :: SameUpToOrder(MadeEntry(parts, ids[i]), xs[i]) {
      ListAppends(entries, ids, names, parts, xs);
    }
    if SameUpToOrder(Array(Built(entries, parts)), Array(entries + xs)) {
      assert |Built(entries, parts)| == |entries + xs|;
      forall j | 0 <= j < |parts| ensures FirstMatch(entries, KeysOf(parts[j])) == |entries| {
        if FirstMatch(entries, KeysOf(parts[j])) < |entries| { ListedShortens(entries, ids, names, parts, xs, j); }
      }
      forall i | 0 <= i < |ids| ensures SameUpToOrder(MadeEntry(parts, ids[i]), xs[i]) {
        SameListEntry(entries, ids, names, parts, xs, i);
      }
    }
  }

  /** The keys of a list's entries are those its parts name. */
  lemma LeftEach(ids: seq<Keys>, names: set<string>, parts: seq<Write>, value: Json)
    requires Pathed(parts) && value.Array? && Identifies(ids, names, parts, value.items)
    ensures LeftAsTextEach(parts, value) <==>
            forall i | 0 <= i < |ids| :: LeftAsText(Group(parts, ids[i]), value.items[i], ids[i])
  {
    var xs := value.items;
    if LeftAsTextEach(parts, value) {
      forall i | 0 <= i < |ids| ensures LeftAsText(Group(parts, ids[i]), xs[i], ids[i]) {
        var w := GroupFrom(parts, ids[i]);
        var j :| 0 <= j < |parts| && parts[j] == w;
        assert KeysMatch(value.items[i], KeysOf(parts[j]));
      }
    }
    if forall i | 0 <= i < |ids| :: LeftAsText(Group(parts, ids[i]), xs[i], ids[i]) {
      forall i, j | 0 <= i < |xs| && 0 <= j < |parts| && KeysMatch(xs[i], KeysOf(parts[j]))
        ensures LeftAsText(Group(parts, KeysOf(parts[j])), xs[i], KeysOf(parts[j]))
      {
        assert KeysOf(parts[j]) in ids;
        assert KeysMatch(xs[i], ids[i]);
        OneKeyEach(xs[i], ids[i], KeysOf(parts[j]));
      }
    }
  }

  lemma {:induction false} ListSplitFolds(node: Json, parts: seq<Write>, name: string, value: Json)
    requires parts != [] && Through(parts, name) && value.Array? && SplitsList(parts, value)
    ensures SameFound(Find(Fold(node, [], parts), name), Some(MergeValue(Member(node, name), value))) <==>
            NoneListed(Items(Member(node, name)), parts) && LeftAsTextEach(parts, value)
    decreases value, 0
  {
    var ids: seq<Keys>, names: set<string> :|
      && Identifies(ids, names, parts, value.items)
      && forall i | 0 <= i < |ids| :: Splits(Group(parts, ids[i]), value.items[i], ids[i]);
    ListPartsKeep(ids, names, parts, value.items);
    forall i | 0 <= i < |ids|
      ensures SameUpToOrder(MadeEntry(parts, ids[i]), value.items[i]) <==>
              LeftAsText(Group(parts, ids[i]), value.items[i], ids[i])
    {
      EntrySplitFolds(parts, value.items, ids[i], i);
    }
    SameList(Items(Member(node, name)), ids, names, parts, value.items);
    LeftEach(ids, names, parts, value);
    KeyedIs(node, parts, name, names);
    MergedList(Member(node, name), value.items);
  }

  lemma {:induction false} EntrySplitFolds(parts: seq<Write>, xs: seq<Json>, keys: Keys, i: nat)
    requires Pathed(parts) && i < |xs| && keys.Keys != {} && KeysMatch(xs[i], keys)
    requires Splits(Group(parts, keys), xs[i], keys)
    ensures SameUpToOrder(MadeEntry(parts, keys), xs[i]) <==> LeftAsText(Group(parts, keys), xs[i], keys)
    decreases xs[i], 3
  {
    var k :| k in keys.Keys;
    assert k in keys;
    assert Bare(NewEntry(keys));
    BareNotListed(NewEntry(keys), Group(parts, keys), xs[i]);
    SplitFolds(NewEntry(keys), Group(parts, keys), xs[i], keys);
    NewEntryMerges(keys, xs[i]);
  }

  lemma {:induction false} MemberSplitFolds(node: Json, parts: seq<Write>, name: string, value: Json, made: Keys)
    requires Through(parts, name) && SplitsMember(parts, name, value, made) && Made(node, made)
    ensures SameFound(Find(Fold(node, [], parts), name), Some(MergeValue(Member(node, name), value))) <==>
            NotListedIn(Member(node, name), parts, name, value) && LeftAsTextIn(parts, name, value, made)
    decreases value, 2
  {
    if parts == [] {
      assert Find(node, name) == Some(Str(made[name]));
    } else if Unkeyed(parts, name) && Splits(Tails(parts), value, map[]) {
      UnkeyedIs(node, parts, name);
      SplitFolds(Member(node, name), Tails(parts), value, map[]);
    } else {
      ListNotUnkeyed(parts, name, value);
      ListSplitFolds(node, parts, name, value);
    }
  }

  lemma ListNotUnkeyed(parts: seq<Write>, name: string, value: Json)
    requires parts != [] && Through(parts, name) && value.Array? && SplitsList(parts, value)
    ensures !Unkeyed(parts, name)
  {
    var ids: seq<Keys>, names: set<string> :| Identifies(ids, names, parts, value.items);
    assert KeysOf(parts[0]) in ids;
    assert KeysOf(parts[0]).Keys == names;
  }

  lemma MemberSame(node: Json, writes: seq<Write>, value: Json, made: Keys, k: string)
    requires Splits(writes, value, made) && Made(node, made) && writes != [Write([], value)] && AllMemberly(writes)
    requires k !in value.members
    ensures SameFound(Find(Fold(node, [], writes), k), Find(MergeValue(node, value), k))
  {
    FocusFold(node, writes, k);
    MergedMember(node, value, k);
    Untouched(writes, value, k);
    SameFoundReflexive(Find(node, k));
  }

  /** Objects are the same exactly when their members are. */
  lemma SameMemberwise(a: Json, b: Json)
    requires a.Object? && b.Object?
    ensures SameUpToOrder(a, b) <==> forall k :: SameFound(Find(a, k), Find(b, k))
  {
    if SameUpToOrder(a, b) {
      forall k ensures SameFound(Find(a, k), Find(b, k)) {
        assert k in a.members <==> k in b.members;
      }
    }
    if forall k :: SameFound(Find(a, k), Find(b, k)) { SameByMember(a, b); }
  }

  /** A split folds like the whole value, up to the order of list entries, exactly when no entry it
      addresses is listed and every key it leaves out is a string. */
  lemma {:induction false} SplitFolds(node: Json, writes: seq<Write>, value: Json, made: Keys)
    requires Splits(writes, value, made) && Made(node, made)
    ensures SameUpToOrder(Fold(node, [], writes), MergeValue(node, value)) <==>
            NotListed(node, writes, value) && LeftAsText(writes, value, made)
    decreases value, 1
  {
    if writes == [Write([], value)] {
      assert writes == [Write([], value)] + [];
      FoldFirst(node, writes[0], []);
      SameReflexive(MergeValue(node, value));
    } else {
      assert AllMemberly(writes) by {
        forall i | 0 <= i < |writes| ensures Memberly(writes[i]) { assert Carries(writes[i], value); }
      }
      FocusFold(node, writes, "");
      MergedMember(node, value, "");
      forall k
        ensures SameFound(Find(Fold(node, [], writes), k), Find(MergeValue(node, value), k)) <==>
                (k in value.members ==>
                   && NotListedIn(Member(node, k), Focus(writes, k), k, value.members[k])
                   && LeftAsTextIn(Focus(writes, k), k, value.members[k], made))
      {
        if k in value.members {
          FocusFold(node, writes, k);
          MergedMember(node, value, k);
          MemberSplitFolds(node, Focus(writes, k), k, value.members[k], made);
        } else {
          MemberSame(node, writes, value, made, k);
        }
      }
      SameMemberwise(Fold(node, [], writes), MergeValue(node, value));
    }
  }

  lemma {:induction false} Untouched(writes: seq<Write>, value: Json, name: string)
    requires value.Object? && name !in value.members && forall i | 0 <= i < |writes| :: Carries(writes[i], value)
    ensures Focus(writes, name) == []
    decreases |writes|
  {
    if writes != [] {
      assert Carries(writes[0], value);
      assert forall i | 0 <= i < |writes[1..]| :: writes[1..][i] == writes[i + 1];
      Untouched(writes[1..], value, name);
    }
  }

  // ---------------------------------------------------------------- below a path

  lemma SplitsSomething(writes: seq<Write>, value: Json)
    requires Splits(writes, value, map[])
    ensures writes != []
  {
  }

  lemma {:induction false} InjectiveImage(places: set<nat>, perm: seq<nat>, n: nat)
    requires IsPermutation(perm, n) && forall k | k in places :: k < n
    ensures |set k | k in places :: perm[k]| == |places|
    decreases |places|
  {
    var image := set k | k in places :: perm[k];
    if places == {} {
      assert image == {};
    } else {
      var x :| x in places;
      var rest := places - {x};
      InjectiveImage(rest, perm, n);
      var less := set k | k in rest :: perm[k];
      forall k | k in rest ensures perm[k] != perm[x] {
        assert if k < x then perm[k] != perm[x] else perm[x] != perm[k];
      }
      assert image == less + {perm[x]};
    }
  }

  lemma SubsetIsSmaller<T>(a: set<T>, b: set<T>)
    requires a <= b
    ensures |a| <= |b|
  {
    assert b == a + (b - a);
  }

  /** The places of a list where something like `x` stands. */
  ghost function Like(xs: seq<Json>, x: Json): set<nat> {
    set k: nat | k < |xs| && SameUpToOrder(xs[k], x)
  }

  /** A permutation that takes one set of places into another needs as many places there. */
  lemma TakenThere(here: set<nat>, there: set<nat>, perm: seq<nat>, n: nat, i: nat)
    requires IsPermutation(perm, n) && forall k | k in here :: k < n && perm[k] in there
    requires i in here && there - {i} == here - {i}
    ensures i in there
  {
    InjectiveImage(here, perm, n);
    SubsetIsSmaller(set k | k in here :: perm[k], there);
    assert i in there || there == here - {i};
  }

  /** Lists that differ in one place are the same up to order only if they are the same there. */
  lemma OneChanged(list: seq<Json>, i: nat, x: Json, y: Json)
    requires i < |list| && SameUpToOrder(Array(list[i := x]), Array(list[i := y]))
    ensures SameUpToOrder(x, y)
  {
    var a, b := Array(list[i := x]), Array(list[i := y]);
    var perm: seq<nat> :| IsPermutation(perm, |a.items|) &&
                          forall k | 0 <= k < |a.items| :: SameUpToOrder(a.items[k], b.items[perm[k]]);
    var here, there := Like(a.items, x), Like(b.items, x);
    forall k | k in here ensures perm[k] in there {
      assert SameUpToOrder(a.items[k], b.items[perm[k]]);
      SameSymmetric(a.items[k], b.items[perm[k]]);
      SameTransitive(b.items[perm[k]], a.items[k], x);
    }
    SameReflexive(x);
    assert there - {i} == here - {i};
    TakenThere(here, there, perm, |list|, i);
    SameSymmetric(y, x);
  }

  lemma TargetChanged(node: Json, e: Elem, x: Json, y: Json)
    requires SameUpToOrder(SetTarget(node, e, x), SetTarget(node, e, y))
    ensures SameUpToOrder(x, y)
  {
    var entries := Items(Member(node, e.name));
    var listed, i := Listed(entries, e.keys), FirstMatch(entries, e.keys);
    var a, b := SetTarget(node, e, x), SetTarget(node, e, y);
    assert e.name in a.members && SameUpToOrder(a.members[e.name], b.members[e.name]);
    if e.Keyed() { OneChanged(listed, i, x, y); }
  }

  /** What it takes for a cut to fold like the whole value. */
  ghost predicate FoldsWhole(node: Json, path: seq<Elem>, writes: seq<Write>, value: Json) {
    NotListed(Reach(node, path), writes, value) && LeftAsText(writes, value, map[])
  }

  /** Whichever way a target cuts up its answer, into members, list entries or single leaves, and in
      whatever order the parts come: where the value overwrites no list key on its path, they fold into
      the tree that the whole value gives, up to the order of list entries, exactly when no entry that
      is addressed by keys was listed before and no key is left to its path but a string. */
  lemma {:induction false} HoweverItIsCut(node: Json, path: seq<Elem>, writes: seq<Write>, value: Json)
    requires Splits(writes, value, map[]) && (|writes| == 1 || KeepsKeys(path, value))
    ensures SameUpToOrder(Fold(node, path, writes), Insert(node, path, value)) <==>
            FoldsWhole(node, path, writes, value)
    decreases |path|
  {
    SplitsSomething(writes, value);
    if path == [] {
      SplitFolds(node, writes, value, map[]);
    } else {
      var e, rest := path[0], path[1..];
      assert path == [e] + rest;
      if e.Keyed() && |writes| > 1 {
        forall i | 0 <= i < |writes| - 1 ensures Survives(e.keys, rest + writes[i].path, writes[i].value) {
          PartKeepsBelow(e.keys, rest, writes, value, i);
        }
      }
      FoldBelow(node, e, rest, writes);
      InsertTarget(node, e, rest, value);
      var x, y := Fold(Target(node, e), rest, writes), Insert(Target(node, e), rest, value);
      HoweverItIsCut(Target(node, e), rest, writes, value);
      if SameUpToOrder(x, y) { SameSetTarget(node, e, x, y); }
      if SameUpToOrder(SetTarget(node, e, x), SetTarget(node, e, y)) { TargetChanged(node, e, x, y); }
    }
  }

  /** Of two answers that carry the same value, each cut up in its own way, if one folds like the whole
      value, then both fold into the same tree up to the order of list entries exactly when the other
      does too. */
  lemma AnyTwoCuts(node: Json, path: seq<Elem>, writes: seq<Write>, other: seq<Write>, value: Json)
    requires Splits(writes, value, map[]) && Splits(other, value, map[]) && KeepsKeys(path, value)
    requires FoldsWhole(node, path, writes, value)
    ensures SameUpToOrder(Fold(node, path, writes), Fold(node, path, other)) <==> FoldsWhole(node, path, other, value)
  {
    var a, b, whole := Fold(node, path, writes), Fold(node, path, other), Insert(node, path, value);
    HoweverItIsCut(node, path, writes, value);
    HoweverItIsCut(node, path, other, value);
    if SameUpToOrder(b, whole) {
      SameSymmetric(b, whole);
      SameTransitive(a, whole, b);
    }
    if SameUpToOrder(a, b) {
      SameSymmetric(a, b);
      SameTransitive(b, a, whole);
    }
  }

  // ---------------------------------------------------------------- the splits without lists among them

  lemma {:induction false} FocusProjects(writes: seq<Write>, value: Json, name: string)
    requires value.Object? && forall i | 0 <= i < |writes| :: Divides(writes[i], value)
    ensures Unkeyed(Focus(writes, name), name) && Tails(Focus(writes, name)) == Project(writes, name)
    decreases |writes|
  {
    if writes != [] {
      var w, rest := writes[0], writes[1..];
      assert Divides(w, value);
      assert forall i | 0 <= i < |rest| :: rest[i] == writes[i + 1];
      FocusProjects(rest, value, name);
      var one := FocusOne(w, name);
      if one != [] {
        assert one == [one[0]];
        if w.path == [] { assert one[0].path[1..] == []; }
        assert Part(w, name) == [Tail(one[0])];
      }
      assert Tails(one + Focus(rest, name)) == Part(w, name) + Tails(Focus(rest, name));
    }
  }

  /** A split into members alone is a split. */
  lemma {:induction false} PlainSplits(writes: seq<Write>, value: Json)
    requires IsSplit(writes, value)
    ensures Splits(writes, value, map[])
    decreases value
  {
    if writes != [Write([], value)] {
      SplitNotEmpty(value);
      forall i | 0 <= i < |writes| ensures Carries(writes[i], value) { assert Divides(writes[i], value); }
      forall k | k in value.members ensures SplitsMember(Focus(writes, k), k, value.members[k], map[]) {
        FocusProjects(writes, value, k);
        SplitNotEmpty(value.members[k]);
        PlainSplits(Project(writes, k), value.members[k]);
      }
    }
  }

  // ---------------------------------------------------------------- the ways a list is sent

  lemma {:induction false} FocusAll(writes: seq<Write>, name: string)
    requires Through(writes, name)
    ensures Focus(writes, name) == writes
    decreases |writes|
  {
    if writes != [] {
      assert forall i | 0 <= i < |writes[1..]| :: writes[1..][i] == writes[i + 1];
      FocusAll(writes[1..], name);
      assert writes == [writes[0]] + writes[1..];
    }
  }

  /** Updates for the entries of a list, in any order and interleaved, are a split of the object that
      holds the list when those for each entry are a split of the entry. */
  lemma Interleaved(writes: seq<Write>, list: string, ids: seq<Keys>, names: set<string>, xs: seq<Json>)
    requires writes != [] && Through(writes, list) && Identifies(ids, names, writes, xs)
    requires forall i | 0 <= i < |ids| :: Splits(Group(writes, ids[i]), xs[i], ids[i])
    ensures Splits(writes, Object(map[list := Array(xs)]), map[])
  {
    FocusAll(writes, list);
    var whole := Object(map[list := Array(xs)]);
    assert SplitsList(writes, Array(xs));
    assert forall i | 0 <= i < |writes| :: Carries(writes[i], whole);
    forall k | k in whole.members ensures SplitsMember(Focus(writes, k), k, whole.members[k], map[]) {
      assert k == list;
    }
  }

  function EntryUpdates(list: string, ids: seq<Keys>, xs: seq<Json>): seq<Write>
    requires |ids| == |xs|
  {
    seq(|ids|, i requires 0 <= i < |ids| => Write([Elem(list, ids[i])], xs[i]))
  }

  lemma {:induction false} NoUpdate(list: string, ids: seq<Keys>, xs: seq<Json>, keys: Keys)
    requires |ids| == |xs| && keys !in ids
    ensures Group(EntryUpdates(list, ids, xs), keys) == []
    decreases |ids|
  {
    if ids != [] {
      var n := |ids| - 1;
      assert EntryUpdates(list, ids, xs)[..n] == EntryUpdates(list, ids[..n], xs[..n]);
      NoUpdate(list, ids[..n], xs[..n], keys);
      assert ids[n] in ids;
    }
  }

  lemma {:induction false} OneUpdateEach(list: string, ids: seq<Keys>, xs: seq<Json>, i: nat)
    requires |ids| == |xs| && Distinct(ids) && i < |ids|
    ensures Group(EntryUpdates(list, ids, xs), ids[i]) == [Write([], xs[i])]
    decreases |ids|
  {
    var n := |ids| - 1;
    var writes := EntryUpdates(list, ids, xs);
    assert writes[..n] == EntryUpdates(list, ids[..n], xs[..n]);
    if i == n {
      assert ids[n] !in ids[..n];
      NoUpdate(list, ids[..n], xs[..n], ids[n]);
      assert Tail(writes[n]) == Write([], xs[n]);
    } else {
      assert ids[..n][i] == ids[i] && xs[..n][i] == xs[i];
      OneUpdateEach(list, ids[..n], xs[..n], i);
      assert KeysOf(writes[n]) != ids[i];
    }
  }

  /** A list sent with one update per entry is a split of the object that holds it. */
  lemma EntryByEntry(list: string, ids: seq<Keys>, names: set<string>, xs: seq<Json>)
    requires xs != [] && |ids| == |xs| && Distinct(ids) && names != {}
    requires forall i | 0 <= i < |ids| :: ids[i].Keys == names && KeysMatch(xs[i], ids[i])
    ensures Splits(EntryUpdates(list, ids, xs), Object(map[list := Array(xs)]), map[])
  {
    var writes := EntryUpdates(list, ids, xs);
    forall i | 0 <= i < |ids| ensures Group(writes, ids[i]) == [Write([], xs[i])] {
      OneUpdateEach(list, ids, xs, i);
    }
    Interleaved(writes, list, ids, names, xs);
  }

  lemma WholeLeaf(name: string, value: Json, made: Keys)
    ensures SplitsMember([Write([Elem(name, map[])], value)], name, value, made)
  {
    var w := Write([Elem(name, map[])], value);
    assert w.path[1..] == [];
    assert Tails([w])[0] == Write([], value);
    assert Tails([w]) == [Write([], value)] && Splits(Tails([w]), value, map[]);
  }

  lemma MoreMade(writes: seq<Write>, value: Json, made: Keys)
    requires Splits(writes, value, map[])
    ensures Splits(writes, value, made)
  {
    if writes != [Write([], value)] {
      forall k | k in value.members ensures SplitsMember(Focus(writes, k), k, value.members[k], made) {
        assert SplitsMember(Focus(writes, k), k, value.members[k], map[]);
      }
    }
  }

  /** An entry sent whole but for some of its keys. */
  lemma WholeButKeys(x: Json, keys: Keys, left: set<string>)
    requires x.Object? && KeysMatch(x, keys) && left <= keys.Keys
    ensures Splits([Write([], Object(x.members - left))], x, keys)
  {
    var rest := Object(x.members - left);
    var w := Write([], rest);
    if left == {} {
      assert rest == x;
    } else {
      assert [w][1..] == [] && Carries(w, x);
      forall k | k in x.members ensures SplitsMember(Focus([w], k), k, x.members[k], keys) {
        assert Focus([w], k) == FocusOne(w, k) + [];
        if k in rest.members { WholeLeaf(k, x.members[k], keys); }
      }
    }
  }

  /** What is a split of an entry without some of the keys its path names is a split of the entry. */
  lemma KeysLeftOut(writes: seq<Write>, x: Json, keys: Keys, left: set<string>)
    requires x.Object? && KeysMatch(x, keys) && left <= keys.Keys
    requires Splits(writes, Object(x.members - left), keys)
    ensures Splits(writes, x, keys)
  {
    var rest := Object(x.members - left);
    if writes == [Write([], rest)] {
      WholeButKeys(x, keys, left);
    } else {
      forall i | 0 <= i < |writes| ensures Carries(writes[i], x) { assert Carries(writes[i], rest); }
      forall k | k in x.members ensures SplitsMember(Focus(writes, k), k, x.members[k], keys) {
        if k in left {
          Untouched(writes, rest, k);
        } else {
          assert k in rest.members && SplitsMember(Focus(writes, k), k, rest.members[k], keys);
        }
      }
    }
  }

  /** The leaves of an entry, cut up by members in any way and without any of the keys its path names,
      are a split of the entry. They make exactly that entry if and only if the keys are strings. */
  lemma LeavesOfEntry(writes: seq<Write>, x: Json, keys: Keys, left: set<string>)
    requires x.Object? && KeysMatch(x, keys) && left <= keys.Keys && IsSplit(writes, Object(x.members - left))
    ensures Splits(writes, x, keys)
    ensures Fold(NewEntry(keys), [], writes) == x <==> forall k | k in left :: x.members[k] == Str(keys[k])
  {
    var made, rest := NewEntry(keys), Object(x.members - left);
    PlainSplits(writes, rest);
    MoreMade(writes, rest, keys);
    KeysLeftOut(writes, x, keys, left);
    SplitAtNode(made, writes, rest);
    var after := Fold(made, [], writes);
    forall k ensures Find(after, k) == if k in left then Some(Str(keys[k])) else Find(x, k) {
      MergedMember(made, rest, k);
      if k in rest.members { MergeOverScalar(Member(made, k), rest.members[k]); }
    }
    assert after == MergeValue(made, rest) && after.Object?;
    if forall k | k in left :: x.members[k] == Str(keys[k]) {
      assert forall k :: Find(after, k) == Find(x, k);
      SameFinds(after, x);
    }
    if after == x {
      forall k | k in left ensures x.members[k] == Str(keys[k]) { assert Find(after, k) == Find(x, k); }
    }
  }

  lemma SameFinds(a: Json, b: Json)
    requires a.Object? && b.Object? && forall k :: Find(a, k) == Find(b, k)
    ensures a == b
  {
    forall k ensures k in a.members <==> k in b.members { assert Find(a, k) == Find(b, k); }
    forall k | k in a.members ensures a.members[k] == b.members[k] { assert Find(a, k) == Find(b, k); }
    assert a.members == b.members;
  }

  lemma OneLeaf(name: string, v: Json)
    ensures IsSplit([Write([Elem(name, map[])], v)], Object(map[name := v]))
  {
    var w, value := Write([Elem(name, map[])], v), Object(map[name := v]);
    assert w.path[1..] == [] && [w][1..] == [];
    assert Project([w], name) == [Write([], v)];
    assert value.members != map[] by { assert name in value.members; }
    assert Divides(w, value);
    forall k | k in value.members ensures IsSplit(Project([w], k), value.members[k]) {
      assert k == name;
    }
  }

  /** What is not left as text in its only entry is not left as text in the list. */
  lemma NotAsText(w: Write, list: string, keys: Keys, x: Json)
    requires w.path != [] && w.path[0] == Elem(list, keys) && keys != map[] && KeysMatch(x, keys)
    requires !LeftAsText(Group([w], keys), x, keys)
    ensures !LeftAsText([w], Object(map[list := Array([x])]), map[])
  {
    var items := Array([x]);
    var whole := Object(map[list := items]);
    FocusAll([w], list);
    assert !Unkeyed([w], list) by { assert [w][0].path[0].keys == keys; }
    assert !LeftAsTextEach([w], items) by { assert KeysMatch(items.items[0], KeysOf([w][0])); }
    assert list in whole.members && whole.members[list] == items;
    assert !LeftAsTextIn(Focus([w], list), list, whole.members[list], map[]);
    assert [w] != [Write([], whole)];
  }

  lemma OneInGroup(w: Write, part: Write)
    requires w.path != [] && w.path[1..] == part.path && w.value == part.value
    ensures Group([w], KeysOf(w)) == [part]
  {
    assert [w][..0] == [] && [w][1..] == [] && Tail(w) == part;
  }

  lemma NumberIsNotText(key: string, id: string, leaf: string, v: Json)
    requires key != leaf
    ensures var x, part := Object(map[key := Number(id), leaf := v]), Write([Elem(leaf, map[])], v);
            Splits([part], x, map[key := id]) && !LeftAsText([part], x, map[key := id])
  {
    var x, keys, part := Object(map[key := Number(id), leaf := v]), map[key := id], Write([Elem(leaf, map[])], v);
    OneLeaf(leaf, v);
    assert x.members - {key} == map[leaf := v];
    LeavesOfEntry([part], x, keys, {key});
    assert key in x.members && FocusOne(part, key) == [] && [part][1..] == [];
    assert Focus([part], key) == [];
  }

  /** A list entry with a number for its key, sent as one leaf below its keyed path, folds into another
      tree than the list sent whole, which keeps the number. */
  lemma NumericKeyLeftOut(list: string, key: string, id: string, leaf: string, v: Json)
    requires key != leaf
    ensures var x := Object(map[key := Number(id), leaf := v]);
            var whole := Object(map[list := Array([x])]);
            var writes := [Write([Elem(list, map[key := id]), Elem(leaf, map[])], v)];
            Splits(writes, whole, map[]) && !SameUpToOrder(Fold(Null, [], writes), MergeValue(Null, whole))
  {
    var x, keys := Object(map[key := Number(id), leaf := v]), map[key := id];
    var whole, w := Object(map[list := Array([x])]), Write([Elem(list, keys), Elem(leaf, map[])], v);
    var part := Write([Elem(leaf, map[])], v);
    OneInGroup(w, part);
    NumberIsNotText(key, id, leaf, v);
    assert keys != map[] by { assert key in keys; }
    Interleaved([w], list, [keys], {key}, [x]);
    NotAsText(w, list, keys, x);
    SplitFolds(Null, [w], whole, map[]);
  }
}
