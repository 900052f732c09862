/** Taking a run of updates apart (agent/src/gnmi/tree.rs): each member of a node, and each entry of a
    list, is what the updates that concern it make of it, in their order.
 */
module TreeGroups {
  import opened Tree

  function Tail(w: Write): Write
    requires w.path != []
  {
    Write(w.path[1..], w.value)
  }

  ghost predicate Pathed(writes: seq<Write>) {
    forall i | 0 <= i < |writes| :: writes[i].path != []
  }

  lemma {:induction false} FoldPush(node: Json, writes: seq<Write>, w: Write)
    ensures Fold(node, [], writes + [w]) == Insert(Fold(node, [], writes), w.path, w.value)
    decreases |writes|
  {
    if writes == [] {
      assert writes + [w] == [w] + [];
      FoldFirst(node, w, []);
    } else {
      var first, rest := writes[0], writes[1..];
      assert writes + [w] == [first] + (rest + [w]) && writes == [first] + rest;
      FoldFirst(node, first, rest + [w]);
      FoldFirst(node, first, rest);
      FoldPush(Insert(node, first.path, first.value), rest, w);
    }
  }

  // ---------------------------------------------------------------- by member

  /** A write that says something about members: below one of them, or an object holding some. */
  predicate Memberly(w: Write) {
    w.path != [] || w.value.Object?
  }

  ghost predicate AllMemberly(writes: seq<Write>) {
    forall i | 0 <= i < |writes| :: Memberly(writes[i])
  }

  /** What a write says about one member, as a write through that member. */
  function FocusOne(w: Write, name: string): seq<Write> {
    if w.path != [] then if w.path[0].name == name then [w] else []
    else if name in Members(w.value) then [Write([Elem(name, map[])], w.value.members[name])]
    else []
  }

  function Focus(writes: seq<Write>, name: string): (r: seq<Write>)
    ensures Through(r, name)
  {
    if writes == [] then [] else FocusOne(writes[0], name) + Focus(writes[1..], name)
  }

  /** Every write leads through the member `name`. */
  predicate Through(writes: seq<Write>, name: string) {
    forall i | 0 <= i < |writes| :: writes[i].path != [] && writes[i].path[0].name == name
  }

  lemma InsertElsewhere(node: Json, w: Write, name: string)
    requires Memberly(w)
    ensures Insert(node, w.path, w.value).Object?
    ensures FocusOne(w, name) == [] ==> Find(Insert(node, w.path, w.value), name) == Find(node, name)
    ensures FocusOne(w, name) != [] ==>
              var v := FocusOne(w, name)[0];
              Find(Insert(node, w.path, w.value), name) == Find(Insert(node, v.path, v.value), name)
  {
    if w.path == [] {
      MergedMember(node, w.value, name);
      if name in w.value.members {
        var e := Elem(name, map[]);
        assert [e][1..] == [];
        InsertAtMember(node, [e], w.value.members[name]);
      }
    } else {
      InsertAtMember(node, w.path, w.value);
    }
  }

  /** A write through a member reads nothing but that member. */
  lemma InsertThrough(a: Json, b: Json, w: Write)
    requires w.path != [] && Find(a, w.path[0].name) == Find(b, w.path[0].name)
    ensures Find(Insert(a, w.path, w.value), w.path[0].name) == Find(Insert(b, w.path, w.value), w.path[0].name)
  {
    var e, rest := w.path[0], w.path[1..];
    assert w.path == [e] + rest;
    InsertTarget(a, e, rest, w.value);
    InsertTarget(b, e, rest, w.value);
    assert Member(a, e.name) == Member(b, e.name);
    SameChild(a, b, e, Insert(Target(a, e), rest, w.value));
  }

  lemma {:induction false} FoldThrough(a: Json, b: Json, writes: seq<Write>, name: string)
    requires Through(writes, name) && Find(a, name) == Find(b, name)
    ensures Find(Fold(a, [], writes), name) == Find(Fold(b, [], writes), name)
    decreases |writes|
  {
    if writes != [] {
      var w, rest := writes[0], writes[1..];
      assert writes == [w] + rest;
      FoldFirst(a, w, rest);
      FoldFirst(b, w, rest);
      InsertThrough(a, b, w);
      assert forall i | 0 <= i < |rest| :: rest[i] == writes[i + 1];
      FoldThrough(Insert(a, w.path, w.value), Insert(b, w.path, w.value), rest, name);
    }
  }

  lemma FocusFirst(node: Json, w: Write, rest: seq<Write>, name: string)
    requires Memberly(w) && Through(rest, name)
    ensures Find(Fold(Insert(node, w.path, w.value), [], rest), name) ==
            Find(Fold(node, [], FocusOne(w, name) + rest), name)
  {
    InsertElsewhere(node, w, name);
    var one := FocusOne(w, name);
    if one == [] {
      assert one + rest == rest;
      FoldThrough(Insert(node, w.path, w.value), node, rest, name);
    } else {
      assert one == [one[0]];
      FoldFirst(node, one[0], rest);
      FoldThrough(Insert(node, w.path, w.value), Insert(node, one[0].path, one[0].value), rest, name);
    }
  }

  /** A member of a folded node is what the writes through it make of it. */
  lemma {:induction false} FocusFold(node: Json, writes: seq<Write>, name: string)
    requires AllMemberly(writes)
    ensures writes != [] ==> Fold(node, [], writes).Object?
    ensures Find(Fold(node, [], writes), name) == Find(Fold(node, [], Focus(writes, name)), name)
    decreases |writes|
  {
    if writes != [] {
      var w, rest := writes[0], writes[1..];
      var next := Insert(node, w.path, w.value);
      assert writes == [w] + rest;
      FoldFirst(node, w, rest);
      assert forall i | 0 <= i < |rest| :: rest[i] == writes[i + 1];
      FocusFold(next, rest, name);
      FocusFirst(node, w, Focus(rest, name), name);
      InsertElsewhere(node, w, name);
    }
  }

  // ---------------------------------------------------------------- below an unkeyed element

  function Tails(writes: seq<Write>): seq<Write>
    requires forall i | 0 <= i < |writes| :: writes[i].path != []
  {
    seq(|writes|, i requires 0 <= i < |writes| => Tail(writes[i]))
  }

  predicate Unkeyed(writes: seq<Write>, name: string) {
    forall i | 0 <= i < |writes| :: writes[i].path != [] && writes[i].path[0] == Elem(name, map[])
  }

  lemma {:induction false} FoldShift(node: Json, e: Elem, writes: seq<Write>)
    requires forall i | 0 <= i < |writes| :: writes[i].path != [] && writes[i].path[0] == e
    ensures Fold(node, [], writes) == Fold(node, [e], Tails(writes))
    decreases |writes|
  {
    if writes != [] {
      var w, rest := writes[0], writes[1..];
      assert writes == [w] + rest && Tails(writes)[1..] == Tails(rest);
      FoldFirst(node, w, rest);
      assert [e] + Tail(w).path == w.path;
      assert forall i | 0 <= i < |rest| :: rest[i] == writes[i + 1];
      FoldShift(Insert(node, w.path, w.value), e, rest);
    }
  }

  /** Writes through an unkeyed member fold into that member. */
  lemma FoldUnkeyed(node: Json, name: string, writes: seq<Write>)
    requires writes != [] && Unkeyed(writes, name)
    ensures Fold(node, [], writes) == SetMember(node, name, Fold(Member(node, name), [], Tails(writes)))
  {
    var e := Elem(name, map[]);
    FoldShift(node, e, writes);
    assert [e] + [] == [e];
    FoldBelow(node, e, [], Tails(writes));
  }

  // ---------------------------------------------------------------- by entry of a list

  type Keys = map<string, string>

  function KeysOf(w: Write): Keys
    requires w.path != []
  {
    w.path[0].keys
  }

  /** Writes to entries of one list, all told apart by the same keys, each leaving its entry's alone. */
  ghost predicate Entrywise(writes: seq<Write>, names: set<string>) {
    names != {} && forall i | 0 <= i < |writes| ::
      && writes[i].path != []
      && KeysOf(writes[i]).Keys == names
      && Survives(KeysOf(writes[i]), writes[i].path[1..], writes[i].value)
  }

  /** The entry a write finds in a list, or makes. */
  function EntryFor(entries: seq<Json>, keys: Keys): Json {
    Listed(entries, keys)[FirstMatch(entries, keys)]
  }

  function ListFold(entries: seq<Json>, writes: seq<Write>): seq<Json>
    requires forall i | 0 <= i < |writes| :: writes[i].path != []
    decreases |writes|
  {
    if writes == [] then entries
    else
      var n := |writes| - 1;
      var before, keys := ListFold(entries, writes[..n]), KeysOf(writes[n]);
      Put(before, keys, Insert(EntryFor(before, keys), writes[n].path[1..], writes[n].value))
  }

  lemma KeyedOne(node: Json, w: Write, name: string)
    requires w.path != [] && w.path[0].name == name && w.path[0].Keyed()
    ensures var entries := Items(Member(node, name));
            Insert(node, w.path, w.value) ==
            SetMember(node, name,
                      Array(Put(entries, KeysOf(w), Insert(EntryFor(entries, KeysOf(w)), w.path[1..], w.value))))
  {
    assert w.path == [w.path[0]] + w.path[1..];
    InsertTarget(node, w.path[0], w.path[1..], w.value);
  }

  lemma SetTwice(node: Json, name: string, xs: seq<Json>, ys: seq<Json>)
    ensures SetMember(SetMember(node, name, Array(xs)), name, Array(ys)) == SetMember(node, name, Array(ys))
    ensures Items(Member(SetMember(node, name, Array(xs)), name)) == xs
  {
    SetMemberTwice(node, name, Array(xs), Array(ys));
  }

  /** Writes to entries of one list change nothing but that list. */
  lemma {:induction false} FoldKeyed(node: Json, name: string, writes: seq<Write>)
    requires writes != [] && Through(writes, name) && forall i | 0 <= i < |writes| :: writes[i].path[0].Keyed()
    ensures Fold(node, [], writes) == SetMember(node, name, Array(ListFold(Items(Member(node, name)), writes)))
    decreases |writes|
  {
    var n := |writes| - 1;
    var before, w := writes[..n], writes[n];
    assert writes == before + [w];
    FoldPush(node, before, w);
    if before == [] {
      assert Fold(node, [], before) == node;
      KeyedOne(node, w, name);
    } else {
      FoldKeyed(node, name, before);
      var list := ListFold(Items(Member(node, name)), before);
      SetTwice(node, name, list, ListFold(Items(Member(node, name)), writes));
      KeyedOne(SetMember(node, name, Array(list)), w, name);
    }
  }

  // ---------------------------------------------------------------- the entries a list ends up with

  /** The keys that no entry carries, in the order the writes bring them. */
  function NewKeys(entries: seq<Json>, writes: seq<Write>): seq<Keys>
    requires forall i | 0 <= i < |writes| :: writes[i].path != []
    decreases |writes|
  {
    if writes == [] then []
    else
      var n := |writes| - 1;
      var before, keys := NewKeys(entries, writes[..n]), KeysOf(writes[n]);
      if FirstMatch(entries, keys) < |entries| || keys in before then before else before + [keys]
  }

  /** The writes for one entry, below it. */
  function Group(writes: seq<Write>, keys: Keys): seq<Write>
    requires forall i | 0 <= i < |writes| :: writes[i].path != []
    decreases |writes|
  {
    if writes == [] then []
    else
      var n := |writes| - 1;
      Group(writes[..n], keys) + if KeysOf(writes[n]) == keys then [Tail(writes[n])] else []
  }

  /** The writes that find the entry at `i`, below it. */
  function Hits(entries: seq<Json>, writes: seq<Write>, i: nat): seq<Write>
    requires forall j | 0 <= j < |writes| :: writes[j].path != []
    decreases |writes|
  {
    if writes == [] then []
    else
      var n := |writes| - 1;
      Hits(entries, writes[..n], i) + if FirstMatch(entries, KeysOf(writes[n])) == i then [Tail(writes[n])] else []
  }

  function OldEntry(entries: seq<Json>, writes: seq<Write>, i: nat): Json
    requires i < |entries| && forall j | 0 <= j < |writes| :: writes[j].path != []
  {
    Fold(entries[i], [], Hits(entries, writes, i))
  }

  function MadeEntry(writes: seq<Write>, keys: Keys): Json
    requires forall j | 0 <= j < |writes| :: writes[j].path != []
  {
    Fold(NewEntry(keys), [], Group(writes, keys))
  }

  /** Every entry that was there with what found it, then one entry for each new value of the keys. */
  function Built(entries: seq<Json>, writes: seq<Write>): seq<Json>
    requires forall j | 0 <= j < |writes| :: writes[j].path != []
  {
    seq(|entries|, i requires 0 <= i < |entries| => OldEntry(entries, writes, i))
    + seq(|NewKeys(entries, writes)|, i requires 0 <= i < |NewKeys(entries, writes)| =>
        MadeEntry(writes, NewKeys(entries, writes)[i]))
  }

  // ---------------------------------------------------------------- the fold builds exactly those

  ghost predicate AllSurvive(keys: Keys, writes: seq<Write>) {
    forall i | 0 <= i < |writes| :: Survives(keys, writes[i].path, writes[i].value)
  }

  lemma {:induction false} FoldKeeps(entry: Json, keys: Keys, writes: seq<Write>)
    requires keys != map[] && KeysMatch(entry, keys) && AllSurvive(keys, writes)
    ensures KeysMatch(Fold(entry, [], writes), keys)
    decreases |writes|
  {
    if writes != [] {
      var n := |writes| - 1;
      assert writes == writes[..n] + [writes[n]];
      FoldKeeps(entry, keys, writes[..n]);
      FoldPush(entry, writes[..n], writes[n]);
      EntrySurvives(Fold(entry, [], writes[..n]), keys, writes[n].path, writes[n].value);
    }
  }

  lemma EntrywisePrefix(writes: seq<Write>, names: set<string>, n: nat)
    requires Entrywise(writes, names) && n <= |writes|
    ensures Entrywise(writes[..n], names)
  {
    assert forall i | 0 <= i < n :: writes[..n][i] == writes[i];
  }

  lemma {:induction false} GroupSurvives(writes: seq<Write>, names: set<string>, keys: Keys)
    requires Entrywise(writes, names)
    ensures AllSurvive(keys, Group(writes, keys))
    decreases |writes|
  {
    if writes != [] {
      var n := |writes| - 1;
      EntrywisePrefix(writes, names, n);
      GroupSurvives(writes[..n], names, keys);
    }
  }

  /** All writes that find one entry name the same keys. */
  lemma {:induction false} HitsSurvive(entries: seq<Json>, writes: seq<Write>, names: set<string>, i: nat, keys: Keys)
    requires Entrywise(writes, names) && i < |entries| && KeysMatch(entries[i], keys) && keys.Keys == names
    ensures AllSurvive(keys, Hits(entries, writes, i))
    decreases |writes|
  {
    if writes != [] {
      var n := |writes| - 1;
      EntrywisePrefix(writes, names, n);
      HitsSurvive(entries, writes[..n], names, i, keys);
      if FirstMatch(entries, KeysOf(writes[n])) == i { OneKeyEach(entries[i], keys, KeysOf(writes[n])); }
    }
  }

  lemma {:induction false} HitBy(entries: seq<Json>, writes: seq<Write>, names: set<string>, i: nat)
    returns (keys: Keys)
    requires Entrywise(writes, names) && i < |entries| && Hits(entries, writes, i) != []
    ensures keys.Keys == names && KeysMatch(entries[i], keys)
    decreases |writes|
  {
    var n := |writes| - 1;
    if FirstMatch(entries, KeysOf(writes[n])) == i {
      keys := KeysOf(writes[n]);
    } else {
      EntrywisePrefix(writes, names, n);
      keys := HitBy(entries, writes[..n], names, i);
    }
  }

  /** An entry that was there carries afterwards the keys it carried before, and no others. */
  lemma OldMatches(entries: seq<Json>, writes: seq<Write>, names: set<string>, i: nat, keys: Keys)
    requires Entrywise(writes, names) && i < |entries| && keys.Keys == names
    ensures KeysMatch(OldEntry(entries, writes, i), keys) <==> KeysMatch(entries[i], keys)
  {
    if KeysMatch(entries[i], keys) {
      HitsSurvive(entries, writes, names, i, keys);
      FoldKeeps(entries[i], keys, Hits(entries, writes, i));
    } else if Hits(entries, writes, i) != [] {
      var own := HitBy(entries, writes, names, i);
      HitsSurvive(entries, writes, names, i, own);
      FoldKeeps(entries[i], own, Hits(entries, writes, i));
      if KeysMatch(OldEntry(entries, writes, i), keys) { OneKeyEach(OldEntry(entries, writes, i), keys, own); }
    }
  }

  lemma MadeMatches(writes: seq<Write>, names: set<string>, made: Keys, keys: Keys)
    requires Entrywise(writes, names) && made.Keys == keys.Keys == names
    ensures KeysMatch(MadeEntry(writes, made), keys) <==> made == keys
  {
    GroupSurvives(writes, names, made);
    FoldKeeps(NewEntry(made), made, Group(writes, made));
    if KeysMatch(MadeEntry(writes, made), keys) { OneKeyEach(MadeEntry(writes, made), made, keys); }
  }

  /** Distinct values of the keys, none of which any entry carries. */
  ghost predicate Unlisted(added: seq<Keys>, entries: seq<Json>, names: set<string>) {
    && (forall i | 0 <= i < |added| :: added[i].Keys == names && FirstMatch(entries, added[i]) == |entries|)
    && (forall i, j | 0 <= i < j < |added| :: added[i] != added[j])
  }

  lemma UnlistedPush(added: seq<Keys>, entries: seq<Json>, names: set<string>, keys: Keys)
    requires Unlisted(added, entries, names)
    requires keys !in added && keys.Keys == names && FirstMatch(entries, keys) == |entries|
    ensures Unlisted(added + [keys], entries, names)
  {
  }

  lemma {:induction false} NewKeysAre(entries: seq<Json>, writes: seq<Write>, names: set<string>)
    requires Entrywise(writes, names)
    ensures Unlisted(NewKeys(entries, writes), entries, names)
    decreases |writes|
  {
    if writes != [] {
      var n := |writes| - 1;
      EntrywisePrefix(writes, names, n);
      NewKeysAre(entries, writes[..n], names);
      var before, keys := NewKeys(entries, writes[..n]), KeysOf(writes[n]);
      if FirstMatch(entries, keys) == |entries| && keys !in before { UnlistedPush(before, entries, names, keys); }
    }
  }

  lemma FirstMatchIs(list: seq<Json>, keys: Keys, i: nat)
    requires i <= |list| && (i < |list| ==> KeysMatch(list[i], keys))
    requires forall j | 0 <= j < i :: !KeysMatch(list[j], keys)
    ensures FirstMatch(list, keys) == i
  {
  }

  /** Where a key's entry stands among what is built: where it stood, or among the new ones. */
  function Slot(entries: seq<Json>, added: seq<Keys>, keys: Keys): nat {
    var i := FirstMatch(entries, keys);
    if i < |entries| then i else |entries| + IndexOf(added, keys)
  }

  function IndexOf<T(==)>(xs: seq<T>, x: T): (i: nat)
    ensures i <= |xs| && (i < |xs| ==> xs[i] == x) && (i == |xs| <==> x !in xs)
    ensures forall j | 0 <= j < i :: xs[j] != x
  {
    if xs == [] || xs[0] == x then 0 else 1 + IndexOf(xs[1..], x)
  }

  lemma BuiltMade(entries: seq<Json>, writes: seq<Write>, j: nat)
    requires Pathed(writes) && j < |NewKeys(entries, writes)|
    ensures |entries| + j < |Built(entries, writes)|
    ensures Built(entries, writes)[|entries| + j] == MadeEntry(writes, NewKeys(entries, writes)[j])
  {
  }

  lemma BuiltAt(entries: seq<Json>, writes: seq<Write>, k: nat)
    requires (forall j | 0 <= j < |writes| :: writes[j].path != []) && k < |Built(entries, writes)|
    ensures |Built(entries, writes)| == |entries| + |NewKeys(entries, writes)|
    ensures Built(entries, writes)[k] ==
            if k < |entries| then OldEntry(entries, writes, k)
            else MadeEntry(writes, NewKeys(entries, writes)[k - |entries|])
  {
  }

  lemma BuiltMatches(entries: seq<Json>, writes: seq<Write>, names: set<string>, keys: Keys, k: nat)
    requires Entrywise(writes, names) && keys.Keys == names && k < |Built(entries, writes)|
    ensures |Built(entries, writes)| == |entries| + |NewKeys(entries, writes)|
    ensures KeysMatch(Built(entries, writes)[k], keys) <==>
            if k < |entries| then KeysMatch(entries[k], keys) else NewKeys(entries, writes)[k - |entries|] == keys
  {
    BuiltAt(entries, writes, k);
    if k < |entries| {
      OldMatches(entries, writes, names, k, keys);
    } else {
      NewKeysAre(entries, writes, names);
      MadeMatches(writes, names, NewKeys(entries, writes)[k - |entries|], keys);
    }
  }

  lemma BuiltFinds(entries: seq<Json>, writes: seq<Write>, names: set<string>, keys: Keys)
    requires Entrywise(writes, names) && keys.Keys == names
    ensures FirstMatch(Built(entries, writes), keys) == Slot(entries, NewKeys(entries, writes), keys)
  {
    var built, added := Built(entries, writes), NewKeys(entries, writes);
    var slot := Slot(entries, added, keys);
    forall k | 0 <= k < slot ensures k < |built| && !KeysMatch(built[k], keys) {
      BuiltMatches(entries, writes, names, keys, k);
      NotBefore(entries, added, keys, k);
    }
    if slot < |built| { BuiltMatches(entries, writes, names, keys, slot); }
    FirstMatchIs(built, keys, slot);
  }

  lemma NotBefore(entries: seq<Json>, added: seq<Keys>, keys: Keys, k: nat)
    requires k < Slot(entries, added, keys)
    ensures k < |entries| + |added|
    ensures if k < |entries| then !KeysMatch(entries[k], keys) else added[k - |entries|] != keys
  {
  }

  // ---------------------------------------------------------------- one more write

  lemma PutAt(list: seq<Json>, keys: Keys, entry: Json, i: nat)
    requires FirstMatch(list, keys) == i
    ensures Put(list, keys, entry) == if i < |list| then list[i := entry] else list + [entry]
    ensures EntryFor(list, keys) == if i < |list| then list[i] else NewEntry(keys)
  {
  }

  lemma {:induction false} AddedOnce(entries: seq<Json>, writes: seq<Write>, keys: Keys)
    requires forall j | 0 <= j < |writes| :: writes[j].path != []
    requires FirstMatch(entries, keys) == |entries| && keys !in NewKeys(entries, writes)
    ensures Group(writes, keys) == []
    decreases |writes|
  {
    if writes != [] { AddedOnce(entries, writes[..|writes| - 1], keys); }
  }

  lemma OldNext(entries: seq<Json>, writes: seq<Write>, w: Write, k: nat)
    requires Pathed(writes) && w.path != [] && k < |entries|
    ensures OldEntry(entries, writes + [w], k) ==
            if FirstMatch(entries, KeysOf(w)) == k then Insert(OldEntry(entries, writes, k), w.path[1..], w.value)
            else OldEntry(entries, writes, k)
  {
    var hits := Hits(entries, writes, k);
    assert (writes + [w])[..|writes|] == writes;
    assert hits + [] == hits;
    FoldPush(entries[k], hits, Tail(w));
  }

  lemma MadeNext(writes: seq<Write>, w: Write, keys: Keys)
    requires Pathed(writes) && w.path != []
    ensures MadeEntry(writes + [w], keys) ==
            if KeysOf(w) == keys then Insert(MadeEntry(writes, keys), w.path[1..], w.value) else MadeEntry(writes, keys)
  {
    var group := Group(writes, keys);
    assert (writes + [w])[..|writes|] == writes;
    assert group + [] == group;
    FoldPush(NewEntry(keys), group, Tail(w));
  }

  lemma NewKeysNext(entries: seq<Json>, writes: seq<Write>, w: Write)
    requires Pathed(writes) && w.path != []
    ensures var added := NewKeys(entries, writes);
            NewKeys(entries, writes + [w]) ==
            if FirstMatch(entries, KeysOf(w)) < |entries| || KeysOf(w) in added then added else added + [KeysOf(w)]
  {
    assert (writes + [w])[..|writes|] == writes;
  }

  /** One more write changes the entry in its slot and no other. */
  lemma BuiltNextAt(entries: seq<Json>, writes: seq<Write>, w: Write, names: set<string>, k: nat)
    requires Entrywise(writes, names) && w.path != [] && KeysOf(w).Keys == names && k < |Built(entries, writes)|
    ensures |Built(entries, writes)| <= |Built(entries, writes + [w])|
    ensures Built(entries, writes + [w])[k] ==
            if k == Slot(entries, NewKeys(entries, writes), KeysOf(w))
            then Insert(Built(entries, writes)[k], w.path[1..], w.value)
            else Built(entries, writes)[k]
  {
    var added := NewKeys(entries, writes);
    NewKeysNext(entries, writes, w);
    BuiltAt(entries, writes, k);
    BuiltAt(entries, writes + [w], k);
    NewKeysAre(entries, writes, names);
    if k < |entries| {
      OldNext(entries, writes, w, k);
    } else {
      MadeNext(writes, w, added[k - |entries|]);
      assert FirstMatch(entries, added[k - |entries|]) == |entries|;
    }
  }

  lemma BuiltLast(entries: seq<Json>, writes: seq<Write>, w: Write)
    requires Pathed(writes) && w.path != []
    ensures var built, after := Built(entries, writes), Built(entries, writes + [w]);
            var slot := Slot(entries, NewKeys(entries, writes), KeysOf(w));
            && slot <= |built|
            && |after| == |built| + (if slot == |built| then 1 else 0)
            && (slot == |built| ==> after[slot] == Insert(NewEntry(KeysOf(w)), w.path[1..], w.value))
  {
    var added := NewKeys(entries, writes);
    NewKeysNext(entries, writes, w);
    if Slot(entries, added, KeysOf(w)) == |Built(entries, writes)| {
      AddedOnce(entries, writes, KeysOf(w));
      MadeNext(writes, w, KeysOf(w));
      assert Fold(NewEntry(KeysOf(w)), [], []) == NewEntry(KeysOf(w));
    }
  }

  /** A list folded write by write ends up as built. */
  lemma {:induction false} ListFoldBuilds(entries: seq<Json>, writes: seq<Write>, names: set<string>)
    requires Entrywise(writes, names)
    ensures ListFold(entries, writes) == Built(entries, writes)
    decreases |writes|
  {
    if writes == [] {
      NothingBuilt(entries);
    } else {
      var n := |writes| - 1;
      var before, w := writes[..n], writes[n];
      assert writes == before + [w];
      EntrywisePrefix(writes, names, n);
      ListFoldBuilds(entries, before, names);
      BuiltFinds(entries, before, names, KeysOf(w));
      BuiltNext(entries, before, w, names);
    }
  }

  lemma NothingBuilt(entries: seq<Json>)
    ensures Built(entries, []) == entries
  {
    assert forall i | 0 <= i < |entries| :: Fold(entries[i], [], []) == entries[i];
  }

  lemma BuiltNext(entries: seq<Json>, writes: seq<Write>, w: Write, names: set<string>)
    requires Entrywise(writes, names) && w.path != [] && KeysOf(w).Keys == names
    requires FirstMatch(Built(entries, writes), KeysOf(w)) == Slot(entries, NewKeys(entries, writes), KeysOf(w))
    ensures var built := Built(entries, writes);
            Built(entries, writes + [w]) ==
            Put(built, KeysOf(w), Insert(EntryFor(built, KeysOf(w)), w.path[1..], w.value))
  {
    var built, after := Built(entries, writes), Built(entries, writes + [w]);
    var slot := Slot(entries, NewKeys(entries, writes), KeysOf(w));
    PutAt(built, KeysOf(w), Insert(EntryFor(built, KeysOf(w)), w.path[1..], w.value), slot);
    BuiltLast(entries, writes, w);
    forall k | 0 <= k < |built|
      ensures after[k] == if k == slot then Insert(built[k], w.path[1..], w.value) else built[k]
    {
      BuiltNextAt(entries, writes, w, names, k);
    }
  }
}
