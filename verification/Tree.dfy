/** Folding the updates of a gNMI Get answer into one JSON tree (agent/src/gnmi/tree.rs).

    The same subtree may arrive whole, in pieces of any size, or leaf by leaf. The theorems here say
    when the way an answer is split, and the order of its parts, does not change the folded tree,
    and show the answers for which it does.
 */
module Tree {
  import opened Options

  /** A JSON value. Numbers are kept as the text they print as, which is all the fold reads. */
  datatype Json =
    | Null
    | Bool(flag: bool)
    | Number(digits: string)
    | Str(text: string)
    | Array(items: seq<Json>)
    | Object(members: map<string, Json>)

  /** One step of a path: into a member or, with keys, into the entry of a list that carries them. */
  datatype Elem = Elem(name: string, keys: map<string, string>) {
    predicate Keyed() {
      keys != map[]
    }
  }

  /** A value to merge in at a path. */
  datatype Write = Write(path: seq<Elem>, value: Json)

  // ---------------------------------------------------------------- the fold

  predicate KeyMatches(value: Json, expected: string) {
    match value
    case Str(text) => text == expected
    case Number(digits) => digits == expected
    case _ => false
  }

  /** Whether a list entry carries every one of `keys`. */
  predicate KeysMatch(entry: Json, keys: map<string, string>) {
    forall k | k in keys ::
      entry.Object? && k in entry.members && KeyMatches(entry.members[k], keys[k])
  }

  function Member(node: Json, name: string): Json {
    if node.Object? && name in node.members then node.members[name] else Null
  }

  function Find(node: Json, name: string): Option<Json> {
    if node.Object? && name in node.members then Some(node.members[name]) else None
  }

  function Members(node: Json): map<string, Json> {
    if node.Object? then node.members else map[]
  }

  function SetMember(node: Json, name: string, child: Json): Json {
    Object(Members(node)[name := child])
  }

  function Items(node: Json): seq<Json> {
    if node.Array? then node.items else []
  }

  /** The entry a keyed element creates when its list has none to address. */
  function NewEntry(keys: map<string, string>): (r: Json)
    ensures KeysMatch(r, keys)
  {
    Object(map k | k in keys :: Str(keys[k]))
  }

  /** The position of the first entry carrying `keys`, or the list's length. */
  function FirstMatch(entries: seq<Json>, keys: map<string, string>): (r: nat)
    ensures r <= |entries|
    ensures r < |entries| ==> KeysMatch(entries[r], keys)
    ensures forall i | 0 <= i < r :: !KeysMatch(entries[i], keys)
  {
    if entries == [] || KeysMatch(entries[0], keys) then 0
    else 1 + FirstMatch(entries[1..], keys)
  }

  /** The entries with one that carries `keys`, added last when there was none. */
  function Listed(entries: seq<Json>, keys: map<string, string>): (r: seq<Json>)
    ensures FirstMatch(entries, keys) < |r|
    ensures KeysMatch(r[FirstMatch(entries, keys)], keys)
  {
    if FirstMatch(entries, keys) < |entries| then entries else entries + [NewEntry(keys)]
  }

  function MergeValue(node: Json, value: Json): Json
    decreases value
  {
    match value
    case Object(incoming) =>
      if node.Object? then
        Object(map k | k in node.members.Keys + incoming.Keys ::
          if k in incoming then MergeValue(Member(node, k), incoming[k]) else node.members[k])
      else value
    case Array(incoming) => if node.Array? then Array(node.items + incoming) else value
    case _ => value
  }

  function Insert(node: Json, path: seq<Elem>, value: Json): Json
    decreases |path|
  {
    if path == [] then MergeValue(node, value)
    else
      var e := path[0];
      var child := Member(node, e.name);
      if !e.Keyed() then SetMember(node, e.name, Insert(child, path[1..], value))
      else
        var i := FirstMatch(Items(child), e.keys);
        var listed := Listed(Items(child), e.keys);
        SetMember(node, e.name, Array(listed[i := Insert(listed[i], path[1..], value)]))
  }

  /** Inserting every write in turn, each below the path `at`. */
  function Fold(node: Json, at: seq<Elem>, writes: seq<Write>): Json
    decreases |writes|
  {
    if writes == [] then node
    else Fold(Insert(node, at + writes[0].path, writes[0].value), at, writes[1..])
  }

  // ---------------------------------------------------------------- keeping list keys

  /** Whether an entry addressed by `keys` still carries them after a write below it. */
  predicate Survives(keys: map<string, string>, rest: seq<Elem>, value: Json) {
    if rest == [] then
      value.Object? && forall k | k in keys && k in value.members :: KeyMatches(value.members[k], keys[k])
    else
      rest[0].name in keys ==>
        |rest| == 1 && !rest[0].Keyed() && KeyMatches(value, keys[rest[0].name])
  }

  /** Whether a write leaves the keys of every list entry on its path as they were. */
  predicate KeepsKeys(path: seq<Elem>, value: Json) {
    path != [] ==>
      && (path[0].Keyed() ==> Survives(path[0].keys, path[1..], value))
      && KeepsKeys(path[1..], value)
  }

  lemma MergeOverScalar(node: Json, value: Json)
    requires !node.Object? && !node.Array?
    ensures MergeValue(node, value) == value
  {
  }

  lemma InsertAtMember(node: Json, path: seq<Elem>, value: Json)
    requires path != []
    ensures var after := Insert(node, path, value);
            && after.Object?
            && after.members.Keys == Members(node).Keys + {path[0].name}
            && (forall k | k in Members(node) && k != path[0].name :: after.members[k] == Members(node)[k])
            && (path[0].Keyed() ==> after.members[path[0].name].Array?)
            && (!path[0].Keyed() ==>
                  after.members[path[0].name] == Insert(Member(node, path[0].name), path[1..], value))
  {
  }

  /** `Survives` is exact: it is decided by the path and the value alone, whatever the entry. */
  lemma EntrySurvives(entry: Json, keys: map<string, string>, rest: seq<Elem>, value: Json)
    requires keys != map[] && KeysMatch(entry, keys)
    ensures KeysMatch(Insert(entry, rest, value), keys) <==> Survives(keys, rest, value)
  {
    var k0 :| k0 in keys;
    assert entry.Object?;
    var after := Insert(entry, rest, value);
    if rest == [] {
      if value.Object? {
        forall k | k in keys
          ensures k in after.members
          ensures after.members[k] == if k in value.members then value.members[k] else entry.members[k]
        {
          assert KeyMatches(entry.members[k], keys[k]);
          if k in value.members { MergeOverScalar(entry.members[k], value.members[k]); }
        }
      }
    } else {
      var name := rest[0].name;
      InsertAtMember(entry, rest, value);
      if name in keys {
        assert KeyMatches(entry.members[name], keys[name]);
        if |rest| == 1 {
          assert rest[1..] == [];
          MergeOverScalar(entry.members[name], value);
        } else if !rest[0].Keyed() {
          InsertAtMember(entry.members[name], rest[1..], value);
        }
      }
    }
  }

  lemma FirstMatchAfter(entries: seq<Json>, keys: map<string, string>, entry: Json)
    requires keys != map[] && KeysMatch(entry, keys)
    ensures var i := FirstMatch(entries, keys);
            var after := Listed(entries, keys)[i := entry];
            FirstMatch(after, keys) == i && Listed(after, keys) == after
  {
    var i := FirstMatch(entries, keys);
    var after := Listed(entries, keys)[i := entry];
    assert KeysMatch(after[i], keys);
    assert forall j | 0 <= j < i :: after[j] == entries[j];
  }

  lemma SetMemberTwice(node: Json, name: string, first: Json, second: Json)
    ensures SetMember(SetMember(node, name, first), name, second) == SetMember(node, name, second)
    ensures Member(SetMember(node, name, first), name) == first
  {
  }

  /** Where a path's first element leads: the member it names or the list entry it addresses. */
  function Target(node: Json, e: Elem): Json {
    var child := Member(node, e.name);
    if e.Keyed() then Listed(Items(child), e.keys)[FirstMatch(Items(child), e.keys)] else child
  }

  /** The node with the target of `e` replaced. */
  function SetTarget(node: Json, e: Elem, target: Json): Json {
    var entries := Items(Member(node, e.name));
    SetMember(node, e.name,
      if e.Keyed() then Array(Listed(entries, e.keys)[FirstMatch(entries, e.keys) := target]) else target)
  }

  lemma InsertTarget(node: Json, e: Elem, rest: seq<Elem>, value: Json)
    ensures Insert(node, [e] + rest, value) == SetTarget(node, e, Insert(Target(node, e), rest, value))
  {
    assert ([e] + rest)[0] == e && ([e] + rest)[1..] == rest;
  }

  lemma SetTargetTwice(node: Json, e: Elem, first: Json, second: Json)
    requires e.Keyed() ==> KeysMatch(first, e.keys)
    ensures Target(SetTarget(node, e, first), e) == first
    ensures SetTarget(SetTarget(node, e, first), e, second) == SetTarget(node, e, second)
  {
    if e.Keyed() {
      var entries := Items(Member(node, e.name));
      var i, listed := FirstMatch(entries, e.keys), Listed(entries, e.keys);
      FirstMatchAfter(entries, e.keys, first);
      assert listed[i := first][i := second] == listed[i := second];
      SetMemberTwice(node, e.name, Array(listed[i := first]), Array(listed[i := second]));
    } else {
      SetMemberTwice(node, e.name, first, second);
    }
  }

  /** Writes below a common first element all reach the same node, provided each but the last
      leaves that node findable. */
  lemma {:induction false} FoldBelow(node: Json, e: Elem, at: seq<Elem>, writes: seq<Write>)
    requires writes != []
    requires e.Keyed() ==>
               forall i | 0 <= i < |writes| - 1 :: Survives(e.keys, at + writes[i].path, writes[i].value)
    ensures Fold(node, [e] + at, writes) == SetTarget(node, e, Fold(Target(node, e), at, writes))
    decreases |writes|
  {
    var w, rest := writes[0], writes[1..];
    InsertBelow(node, e, at, w);
    var next := Insert(Target(node, e), at + w.path, w.value);
    if rest != [] {
      if e.Keyed() {
        assert Survives(e.keys, at + writes[0].path, writes[0].value);
        EntrySurvives(Target(node, e), e.keys, at + w.path, w.value);
        assert forall i | 0 <= i < |rest| - 1 :: rest[i] == writes[i + 1];
      }
      FoldBelow(SetTarget(node, e, next), e, at, rest);
      SetTargetTwice(node, e, next, Fold(next, at, rest));
    }
  }

  // ---------------------------------------------------------------- splits of a value

  /** What `w` says about the member `name` of the value being split, as writes below it. */
  function Part(w: Write, name: string): seq<Write> {
    if w.path != [] then
      if w.path[0].name == name then [Write(w.path[1..], w.value)] else []
    else if name in Members(w.value) then [Write([], w.value.members[name])]
    else []
  }

  function Project(writes: seq<Write>, name: string): seq<Write> {
    if writes == [] then [] else Part(writes[0], name) + Project(writes[1..], name)
  }

  /** A write that carries part of an object's members: either something below one member, or
      an object holding some of them. */
  predicate Divides(w: Write, value: Json)
    requires value.Object?
  {
    if w.path != [] then !w.path[0].Keyed() && w.path[0].name in value.members
    else Members(w.value) != map[] && Members(w.value).Keys <= value.members.Keys
  }

  /** `writes` carries every leaf of `value` exactly once, cut up and ordered in any way. */
  ghost predicate IsSplit(writes: seq<Write>, value: Json)
    decreases value
  {
    || writes == [Write([], value)]
    || (&& value.Object?
        && value.members != map[]
        && (forall i | 0 <= i < |writes| :: Divides(writes[i], value))
        && (forall k | k in value.members :: IsSplit(Project(writes, k), value.members[k])))
  }

  lemma {:induction false} SplitNotEmpty(value: Json)
    ensures !IsSplit([], value)
    decreases value
  {
    if value.Object? && value.members != map[] {
      var k :| k in value.members;
      SplitNotEmpty(value.members[k]);
    }
  }

  lemma {:induction false} ProjectOutside(writes: seq<Write>, value: Json, name: string)
    requires value.Object? && name !in value.members
    requires forall i | 0 <= i < |writes| :: Divides(writes[i], value)
    ensures Project(writes, name) == []
    decreases |writes|
  {
    if writes != [] {
      assert Divides(writes[0], value);
      assert forall i | 0 <= i < |writes[1..]| :: writes[1..][i] == writes[i + 1];
      ProjectOutside(writes[1..], value, name);
    }
  }

  predicate MemberWise(w: Write) {
    if w.path != [] then !w.path[0].Keyed() else Members(w.value) != map[]
  }

  /** One write that touches members changes each member by its own part and no other. */
  lemma InsertMember(node: Json, w: Write, name: string)
    requires MemberWise(w)
    ensures var after, part := Insert(node, w.path, w.value), Part(w, name);
            && after.Object?
            && Find(after, name) ==
               if part == [] then Find(node, name)
               else Some(Insert(Member(node, name), part[0].path, part[0].value))
  {
    if w.path == [] && name in Members(w.value) {
      MergeOverScalar(Null, w.value.members[name]);
    }
  }

  lemma FoldFirst(node: Json, w: Write, rest: seq<Write>)
    ensures Fold(node, [], [w] + rest) == Fold(Insert(node, w.path, w.value), [], rest)
  {
    assert [] + w.path == w.path;
    assert ([w] + rest)[1..] == rest;
  }

  lemma FoldPair(node: Json, at: seq<Elem>, u: Write, w: Write)
    ensures Fold(node, at, [u, w]) == Insert(Insert(node, at + u.path, u.value), at + w.path, w.value)
  {
    assert [u, w][1..] == [w] && [w][1..] == [];
    assert Fold(Insert(node, at + u.path, u.value), at, [w]) ==
           Fold(Insert(Insert(node, at + u.path, u.value), at + w.path, w.value), at, []);
  }

  /** `after` has in `name` what `parts` make of it, starting from `node`. */
  ghost predicate BuiltFrom(node: Json, after: Json, name: string, parts: seq<Write>) {
    && after.Object?
    && Find(after, name) == if parts == [] then Find(node, name) else Some(Fold(Member(node, name), [], parts))
  }

  lemma BuiltFirst(node: Json, w: Write, after: Json, name: string, parts: seq<Write>)
    requires MemberWise(w) && BuiltFrom(Insert(node, w.path, w.value), after, name, parts)
    ensures BuiltFrom(node, after, name, Part(w, name) + parts)
  {
    var part := Part(w, name);
    InsertMember(node, w, name);
    if part == [] {
      assert part + parts == parts;
    } else {
      assert part == [part[0]];
      FoldFirst(Member(node, name), part[0], parts);
    }
  }

  /** Writes that touch members build each member from its own parts, in their order. */
  lemma {:induction false} FoldMember(node: Json, writes: seq<Write>, name: string)
    requires writes != []
    requires forall i | 0 <= i < |writes| :: MemberWise(writes[i])
    ensures BuiltFrom(node, Fold(node, [], writes), name, Project(writes, name))
    decreases |writes|
  {
    var w, rest := writes[0], writes[1..];
    var next := Insert(node, w.path, w.value);
    assert writes == [w] + rest;
    FoldFirst(node, w, rest);
    if rest == [] {
      InsertMember(node, w, name);
    } else {
      assert forall i | 0 <= i < |rest| :: rest[i] == writes[i + 1];
      FoldMember(next, rest, name);
    }
    BuiltFirst(node, w, Fold(next, [], rest), name, Project(rest, name));
  }

  lemma SameMembers(a: Json, b: Json)
    requires a.Object? && b.Object? && forall k :: Find(a, k) == Find(b, k)
    ensures a == b
  {
    assert forall k :: k in a.members <==> Find(a, k).Some?;
    assert forall k :: k in b.members <==> Find(b, k).Some?;
    assert forall k | k in a.members :: Find(a, k) == Some(a.members[k]);
    assert a.members == b.members;
  }

  /** At one node, every split of a value has the effect of merging the whole value. */
  lemma {:induction false} SplitAtNode(node: Json, writes: seq<Write>, value: Json)
    requires IsSplit(writes, value)
    ensures Fold(node, [], writes) == MergeValue(node, value)
    decreases value, 1
  {
    if writes == [Write([], value)] {
      assert writes[1..] == [];
      assert [] + writes[0].path == [];
      assert Fold(node, [], writes) == Fold(MergeValue(node, value), [], []);
    } else {
      var after, whole := Fold(node, [], writes), MergeValue(node, value);
      assert after.Object? by {
        var k :| k in value.members;
        SplitMember(node, writes, value, k);
      }
      forall k ensures Find(after, k) == Find(whole, k) {
        SplitMember(node, writes, value, k);
      }
      SameMembers(after, whole);
    }
  }

  lemma MergedMember(node: Json, value: Json, name: string)
    requires value.Object?
    ensures MergeValue(node, value).Object?
    ensures Find(MergeValue(node, value), name) ==
            if name in value.members then Some(MergeValue(Member(node, name), value.members[name]))
            else Find(node, name)
  {
    if name in value.members { MergeOverScalar(Null, value.members[name]); }
  }

  lemma {:induction false} SplitMember(node: Json, writes: seq<Write>, value: Json, name: string)
    requires IsSplit(writes, value) && writes != [Write([], value)]
    ensures Fold(node, [], writes).Object? && MergeValue(node, value).Object?
    ensures Find(Fold(node, [], writes), name) == Find(MergeValue(node, value), name)
    decreases value, 0
  {
    SplitNotEmpty(value);
    forall i | 0 <= i < |writes| ensures MemberWise(writes[i]) {
      assert Divides(writes[i], value);
    }
    FoldMember(node, writes, name);
    MergedMember(node, value, name);
    if name in value.members {
      SplitNotEmpty(value.members[name]);
      SplitAtNode(Member(node, name), Project(writes, name), value.members[name]);
    } else {
      ProjectOutside(writes, value, name);
    }
  }

  // ---------------------------------------------------------------- whatever the split

  /** A value that cannot be cut into more than one write. */
  ghost predicate SingleLeaf(value: Json)
    decreases value
  {
    value.Object? ==>
      && (forall j, k | j in value.members && k in value.members :: j == k)
      && (forall k | k in value.members :: SingleLeaf(value.members[k]))
  }

  lemma {:induction false} ProjectHas(writes: seq<Write>, i: nat, name: string)
    requires i < |writes| && Part(writes[i], name) != []
    ensures Part(writes[i], name)[0] in Project(writes, name)
    decreases |writes|
  {
    if i > 0 { ProjectHas(writes[1..], i - 1, name); }
  }

  lemma {:induction false} ProjectKeepsCount(writes: seq<Write>, value: Json, name: string)
    requires value.Object? && value.members.Keys == {name}
    requires forall i | 0 <= i < |writes| :: Divides(writes[i], value)
    ensures |Project(writes, name)| == |writes|
    decreases |writes|
  {
    if writes != [] {
      var w := writes[0];
      assert Divides(w, value);
      if w.path == [] {
        var k :| k in Members(w.value);
        assert k == name;
      }
      assert forall i | 0 <= i < |writes[1..]| :: writes[1..][i] == writes[i + 1];
      ProjectKeepsCount(writes[1..], value, name);
    }
  }

  lemma {:induction false} SingleLeafSplit(writes: seq<Write>, value: Json)
    requires IsSplit(writes, value) && SingleLeaf(value)
    ensures |writes| == 1
    decreases value
  {
    if writes != [Write([], value)] {
      var k :| k in value.members;
      assert value.members.Keys == {k};
      SingleLeafSplit(Project(writes, k), value.members[k]);
      ProjectKeepsCount(writes, value, k);
    }
  }

  /** What a split says about a member that is a list key is that member, whole. */
  lemma KeyPart(writes: seq<Write>, value: Json, i: nat, key: string, expected: string)
    requires IsSplit(writes, value) && writes != [Write([], value)] && i < |writes|
    requires key in value.members && KeyMatches(value.members[key], expected)
    requires Part(writes[i], key) != []
    ensures Part(writes[i], key)[0] == Write([], value.members[key])
  {
    assert IsSplit(Project(writes, key), value.members[key]);
    ProjectHas(writes, i, key);
  }

  lemma PartOfEntrySurvives(keys: map<string, string>, writes: seq<Write>, value: Json, i: nat)
    requires IsSplit(writes, value) && writes != [Write([], value)] && i < |writes|
    requires Survives(keys, [], value)
    ensures Survives(keys, writes[i].path, writes[i].value)
  {
    var w := writes[i];
    assert Divides(w, value);
    if w.path != [] {
      var name := w.path[0].name;
      if name in keys { KeyPart(writes, value, i, name, keys[name]); }
    } else {
      forall k | k in keys && k in w.value.members ensures KeyMatches(w.value.members[k], keys[k]) {
        KeyPart(writes, value, i, k, keys[k]);
      }
    }
  }

  /** The parts of a value that keeps a list entry's keys each keep them too. */
  lemma PartSurvives(keys: map<string, string>, rest: seq<Elem>, writes: seq<Write>, value: Json, i: nat)
    requires IsSplit(writes, value) && i < |writes|
    requires keys != map[] && Survives(keys, rest, value)
    ensures Survives(keys, rest + writes[i].path, writes[i].value)
  {
    if writes == [Write([], value)] {
      assert rest + writes[i].path == rest;
    } else if rest == [] {
      assert rest + writes[i].path == writes[i].path;
      PartOfEntrySurvives(keys, writes, value, i);
    } else {
      assert (rest + writes[i].path)[0] == rest[0];
    }
  }

  /** A split whose writes leave every list key on the path alone folds into the tree that the
      whole value gives; so does a value that travels in one write. */
  lemma {:induction false} SplitFoldsAlike(node: Json, path: seq<Elem>, writes: seq<Write>, value: Json)
    requires IsSplit(writes, value)
    requires |writes| == 1 || KeepsKeys(path, value)
    ensures Fold(node, path, writes) == Insert(node, path, value)
    decreases |path|
  {
    if path == [] {
      SplitAtNode(node, writes, value);
    } else {
      var e, rest := path[0], path[1..];
      assert path == [e] + rest;
      SplitNotEmpty(value);
      if e.Keyed() && |writes| > 1 {
        forall i | 0 <= i < |writes| - 1 ensures Survives(e.keys, rest + writes[i].path, writes[i].value) {
          PartSurvives(e.keys, rest, writes, value, i);
        }
      }
      FoldBelow(node, e, rest, writes);
      InsertTarget(node, e, rest, value);
      SplitFoldsAlike(Target(node, e), rest, writes, value);
    }
  }

  /** Any value with two leaves can be cut in two, taking the member `name` apart first. */
  lemma {:induction false} CutInTwo(value: Json, name: string) returns (a: Write, b: Write)
    requires !SingleLeaf(value) && name in Members(value)
    ensures IsSplit([a, b], value)
    ensures a.path != [] && a.path[0] == Elem(name, map[])
    ensures |a.path| == 1 ==> a.value == value.members[name]
    decreases value
  {
    var m := value.members;
    var e := Elem(name, map[]);
    if m.Keys == {name} {
      var inner := m[name];
      assert !SingleLeaf(inner);
      var k :| k in inner.members;
      var a', b' := CutInTwo(inner, k);
      a, b := Write([e] + a'.path, a'.value), Write([e] + b'.path, b'.value);
      CutParts(a, b, name);
      assert a.path[1..] == a'.path && b.path[1..] == b'.path;
      assert Project([a, b], name) == [a', b'];
    } else {
      a, b := Write([e], m[name]), Write([], Object(m - {name}));
      var j :| j in m && j != name;
      assert j in (m - {name});
      assert a.path[1..] == [];
      forall k | k in m ensures IsSplit(Project([a, b], k), m[k]) {
        CutParts(a, b, k);
        assert Project([a, b], k) == [Write([], m[k])];
      }
    }
    assert Divides(a, value) && Divides(b, value);
  }

  lemma CutParts(a: Write, b: Write, name: string)
    ensures Project([a, b], name) == Part(a, name) + Part(b, name)
  {
    assert [a, b][1..] == [b] && [b][1..] == [];
    assert Project([b], name) == Part(b, name) + [];
  }

  /** A node under which no list has been made yet. */
  predicate Bare(node: Json) {
    forall k | k in Members(node) :: Members(node)[k].Str?
  }

  lemma SetTargetInjective(node: Json, e: Elem, x: Json, y: Json)
    requires SetTarget(node, e, x) == SetTarget(node, e, y)
    ensures x == y
  {
    var entries := Items(Member(node, e.name));
    var i, listed := FirstMatch(entries, e.keys), Listed(entries, e.keys);
    SetMemberTwice(node, e.name, x, x);
    SetMemberTwice(node, e.name, y, y);
    if e.Keyed() {
      assert Member(SetTarget(node, e, x), e.name).items[i] == x;
      assert Member(SetTarget(node, e, y), e.name).items[i] == y;
    }
  }

  lemma InsertBelow(node: Json, e: Elem, rest: seq<Elem>, w: Write)
    ensures Insert(node, [e] + rest + w.path, w.value) ==
            SetTarget(node, e, Insert(Target(node, e), rest + w.path, w.value))
  {
    assert [e] + rest + w.path == [e] + (rest + w.path);
    InsertTarget(node, e, rest + w.path, w.value);
  }

  lemma FoldPairBelow(node: Json, e: Elem, rest: seq<Elem>, a: Write, b: Write)
    ensures var once := SetTarget(node, e, Insert(Target(node, e), rest + a.path, a.value));
            Fold(node, [e] + rest, [a, b]) == SetTarget(once, e, Insert(Target(once, e), rest + b.path, b.value))
  {
    FoldPair(node, [e] + rest, a, b);
    InsertBelow(node, e, rest, a);
    InsertBelow(SetTarget(node, e, Insert(Target(node, e), rest + a.path, a.value)), e, rest, b);
  }

  /** A second entry joins a list whose only entry does not carry the keys. */
  lemma SecondEntry(node: Json, e: Elem, lost: Json, found: Json)
    requires Bare(node) && e.Keyed() && !KeysMatch(lost, e.keys)
    ensures |Items(Member(SetTarget(SetTarget(node, e, lost), e, found), e.name))| == 2
  {
    var once := SetTarget(node, e, lost);
    TargetItems(node, e, lost);
    TargetItems(once, e, found);
    assert Items(Member(once, e.name)) == [lost];
  }

  /** Once the first part of a cut has overwritten a list key, the second part no longer finds
      the entry and adds another. */
  lemma LostEntry(node: Json, e: Elem, rest: seq<Elem>, a: Write, b: Write)
    requires Bare(node) && e.Keyed() && !Survives(e.keys, rest + a.path, a.value)
    ensures |Items(Member(Fold(node, [e] + rest, [a, b]), e.name))| == 2
  {
    var lost := Insert(Target(node, e), rest + a.path, a.value);
    var once := SetTarget(node, e, lost);
    EntrySurvives(Target(node, e), e.keys, rest + a.path, a.value);
    FoldPairBelow(node, e, rest, a, b);
    SecondEntry(node, e, lost, Insert(Target(once, e), rest + b.path, b.value));
  }

  lemma TargetItems(node: Json, e: Elem, target: Json)
    requires e.Keyed()
    ensures Items(Member(SetTarget(node, e, target), e.name)) == Put(Items(Member(node, e.name)), e.keys, target)
  {
    SetMemberTwice(node, e.name, Array(Put(Items(Member(node, e.name)), e.keys, target)), Null);
  }

  lemma {:induction false} CutFoldsDifferently(
    node: Json, path: seq<Elem>, value: Json, a: Write, b: Write, name: string)
    requires Bare(node) && value.Object? && !KeepsKeys(path, value)
    requires a.path != [] && a.path[0] == Elem(name, map[])
    requires name in value.members && (|a.path| == 1 ==> a.value == value.members[name])
    requires var last := path[|path| - 1];
             last.Keyed() && !Survives(last.keys, [], value) ==>
               name in last.keys && !KeyMatches(value.members[name], last.keys[name])
    ensures Fold(node, path, [a, b]) != Insert(node, path, value)
    decreases |path|
  {
    var e, rest := path[0], path[1..];
    assert path == [e] + rest;
    var target := Target(node, e);
    InsertTarget(node, e, rest, value);
    if rest == [] {
      assert rest + a.path == a.path;
      assert path[|path| - 1] == e;
    } else {
      assert (rest + a.path)[0] == rest[0];
    }
    if e.Keyed() && !Survives(e.keys, rest, value) {
      LostEntry(node, e, rest, a, b);
      assert |Items(Member(Insert(node, path, value), e.name))| == 1;
    } else {
      FoldBelow(node, e, rest, [a, b]);
      assert rest[|rest| - 1] == path[|path| - 1];
      CutFoldsDifferently(target, rest, value, a, b, name);
      if SetTarget(node, e, Fold(target, rest, [a, b])) == SetTarget(node, e, Insert(target, rest, value)) {
        SetTargetInjective(node, e, Fold(target, rest, [a, b]), Insert(target, rest, value));
      }
    }
  }

  /** Every split of a value, in every order and onto every tree, folds into what the whole value
      gives if and only if the value travels in one write anyway or leaves the keys of every list
      entry on its path alone. */
  lemma WhateverTheSplit(path: seq<Elem>, value: Json)
    ensures (forall node, writes | IsSplit(writes, value) :: Fold(node, path, writes) == Insert(node, path, value))
            <==> SingleLeaf(value) || KeepsKeys(path, value)
  {
    if SingleLeaf(value) || KeepsKeys(path, value) {
      forall node, writes | IsSplit(writes, value)
        ensures Fold(node, path, writes) == Insert(node, path, value)
      {
        if SingleLeaf(value) { SingleLeafSplit(writes, value); }
        SplitFoldsAlike(node, path, writes, value);
      }
    } else {
      var last := path[|path| - 1];
      var name :| name in value.members &&
                  (last.Keyed() && !Survives(last.keys, [], value) ==>
                     name in last.keys && !KeyMatches(value.members[name], last.keys[name]));
      var a, b := CutInTwo(value, name);
      CutFoldsDifferently(Null, path, value, a, b, name);
    }
  }

  /** An update that renames the list entry it addresses: whole, it changes that entry; cut in two,
      its second part no longer finds the entry and lists another. */
  lemma RenamedEntry() returns (path: seq<Elem>, value: Json, writes: seq<Write>)
    ensures path == [Elem("interface", map["name" := "E1"])]
    ensures value == Object(map["name" := Str("E2"), "mtu" := Number("9214")])
    ensures IsSplit(writes, value) && Fold(Null, path, writes) != Insert(Null, path, value)
  {
    path := [Elem("interface", map["name" := "E1"])];
    value := Object(map["name" := Str("E2"), "mtu" := Number("9214")]);
    assert "name" in value.members && "mtu" in value.members && "name" != "mtu";
    var a, b := CutInTwo(value, "name");
    writes := [a, b];
    assert "name" in path[0].keys && path[0].keys["name"] == "E1" && path[0].Keyed();
    assert value.members["name"] == Str("E2") && !KeyMatches(value.members["name"], "E1");
    assert !Survives(path[0].keys, path[1..], value);
    CutFoldsDifferently(Null, path, value, a, b, "name");
  }

  // ---------------------------------------------------------------- order of writes

  /** Two path elements that lead to different places: different members, or entries of one list
      told apart by the same keys. */
  predicate Diverge(a: Elem, b: Elem) {
    a.name != b.name || (a.Keyed() && a.keys.Keys == b.keys.Keys && a.keys != b.keys)
  }

  ghost predicate IsPermutation(perm: seq<nat>, n: nat) {
    && |perm| == n
    && (forall i | 0 <= i < n :: perm[i] < n)
    && (forall i, j | 0 <= i < j < n :: perm[i] != perm[j])
  }

  /** Equal trees, except that list entries may stand in another order. */
  ghost predicate SameUpToOrder(a: Json, b: Json)
    decreases a
  {
    match a
    case Array(xs) =>
      && b.Array?
      && |b.items| == |xs|
      && exists perm: seq<nat> ::
           && IsPermutation(perm, |xs|)
           && forall i | 0 <= i < |xs| :: SameUpToOrder(xs[i], b.items[perm[i]])
    case Object(m) =>
      && b.Object?
      && b.members.Keys == m.Keys
      && forall k | k in m :: SameUpToOrder(m[k], b.members[k])
    case _ => a == b
  }

  lemma {:induction false} SameReflexive(a: Json)
    ensures SameUpToOrder(a, a)
    decreases a
  {
    match a
    case Array(xs) =>
      forall i | 0 <= i < |xs| ensures SameUpToOrder(xs[i], xs[i]) { SameReflexive(xs[i]); }
      SameItems(xs, xs);
    case Object(m) =>
      forall k | k in m ensures SameUpToOrder(m[k], m[k]) { SameReflexive(m[k]); }
    case _ =>
  }

  lemma SameItems(xs: seq<Json>, ys: seq<Json>)
    requires |xs| == |ys| && forall i | 0 <= i < |xs| :: SameUpToOrder(xs[i], ys[i])
    ensures SameUpToOrder(Array(xs), Array(ys))
  {
    var perm: seq<nat> := seq(|xs|, i requires 0 <= i => i);
    assert IsPermutation(perm, |xs|);
    assert forall i | 0 <= i < |xs| :: SameUpToOrder(xs[i], Array(ys).items[perm[i]]);
  }

  lemma SameSwapped(entries: seq<Json>, a: Json, b: Json)
    ensures SameUpToOrder(Array(entries + [a, b]), Array(entries + [b, a]))
  {
    var n := |entries|;
    var xs, ys := entries + [a, b], entries + [b, a];
    var perm: seq<nat> := seq(n, i requires 0 <= i => i) + [n + 1, n];
    assert IsPermutation(perm, |xs|);
    forall i | 0 <= i < |xs| ensures SameUpToOrder(xs[i], Array(ys).items[perm[i]]) {
      SameReflexive(xs[i]);
    }
  }

  lemma SameSetMember(node: Json, name: string, x: Json, y: Json)
    requires SameUpToOrder(x, y)
    ensures SameUpToOrder(SetMember(node, name, x), SetMember(node, name, y))
  {
    forall k | k in Members(node) ensures SameUpToOrder(Members(node)[k], Members(node)[k]) {
      SameReflexive(Members(node)[k]);
    }
  }

  lemma SameSetTarget(node: Json, e: Elem, x: Json, y: Json)
    requires SameUpToOrder(x, y)
    ensures SameUpToOrder(SetTarget(node, e, x), SetTarget(node, e, y))
  {
    if e.Keyed() {
      var entries := Items(Member(node, e.name));
      var i, listed := FirstMatch(entries, e.keys), Listed(entries, e.keys);
      var xs, ys := listed[i := x], listed[i := y];
      forall j | 0 <= j < |xs| ensures SameUpToOrder(xs[j], ys[j]) {
        SameReflexive(listed[j]);
      }
      SameItems(xs, ys);
      SameSetMember(node, e.name, Array(listed[i := x]), Array(listed[i := y]));
    } else {
      SameSetMember(node, e.name, x, y);
    }
  }

  /** No entry carries two different values of the same keys. */
  lemma OneKeyEach(entry: Json, first: map<string, string>, second: map<string, string>)
    requires KeysMatch(entry, first) && KeysMatch(entry, second) && first.Keys == second.Keys
    ensures first == second
  {
    forall k | k in first ensures first[k] == second[k] {
      assert KeyMatches(entry.members[k], first[k]) && KeyMatches(entry.members[k], second[k]);
    }
  }

  function Put(entries: seq<Json>, keys: map<string, string>, entry: Json): seq<Json> {
    Listed(entries, keys)[FirstMatch(entries, keys) := entry]
  }

  lemma PutMatches(entries: seq<Json>, keys: map<string, string>, entry: Json, other: map<string, string>, k: nat)
    requires keys != other && keys.Keys == other.Keys && KeysMatch(entry, keys)
    requires k < |Put(entries, keys, entry)|
    ensures KeysMatch(Put(entries, keys, entry)[k], other) <==> k < |entries| && KeysMatch(entries[k], other)
  {
    var at := FirstMatch(entries, keys);
    if k == at {
      if KeysMatch(entry, other) { OneKeyEach(entry, keys, other); }
      if at < |entries| && KeysMatch(entries[at], other) { OneKeyEach(entries[at], keys, other); }
    }
  }

  /** Writing an entry of a list does not change where other values of its keys are found. */
  lemma PutFinds(entries: seq<Json>, keys: map<string, string>, entry: Json, other: map<string, string>)
    requires keys != other && keys.Keys == other.Keys && KeysMatch(entry, keys)
    ensures var after := Put(entries, keys, entry);
            var i := FirstMatch(entries, other);
            FirstMatch(after, other) == if i < |entries| then i else |after|
  {
    var after := Put(entries, keys, entry);
    var i, j := FirstMatch(entries, other), FirstMatch(after, other);
    if j < |after| { PutMatches(entries, keys, entry, other, j); }
    if i < |entries| { PutMatches(entries, keys, entry, other, i); }
  }

  /** Writing an entry of a list leaves the entry found by other values of its keys alone. */
  lemma PutElsewhere(entries: seq<Json>, keys: map<string, string>, entry: Json, other: map<string, string>)
    requires keys != other && keys.Keys == other.Keys && KeysMatch(entry, keys)
    ensures var after := Put(entries, keys, entry);
            Listed(after, other)[FirstMatch(after, other)] == Listed(entries, other)[FirstMatch(entries, other)]
  {
    PutFinds(entries, keys, entry, other);
    var i := FirstMatch(entries, other);
    if i < |entries| && i == FirstMatch(entries, keys) { OneKeyEach(entries[i], keys, other); }
  }

  lemma PutsCommute(entries: seq<Json>, a: map<string, string>, x: Json, b: map<string, string>, y: Json)
    requires a != b && a.Keys == b.Keys && KeysMatch(x, a) && KeysMatch(y, b)
    ensures var ab, ba := Put(Put(entries, a, x), b, y), Put(Put(entries, b, y), a, x);
            ab == ba || (ab == entries + [x, y] && ba == entries + [y, x])
  {
    var i, j := FirstMatch(entries, a), FirstMatch(entries, b);
    var pa, pb := Put(entries, a, x), Put(entries, b, y);
    PutFinds(entries, a, x, b);
    PutFinds(entries, b, y, a);
    PutIs(entries, a, x);
    PutIs(entries, b, y);
    PutIs(pa, b, y);
    PutIs(pb, a, x);
    if i < |entries| && i == j { OneKeyEach(entries[i], a, b); }
    SwapUpdates(entries, i, x, j, y);
  }

  lemma PutIs(entries: seq<Json>, keys: map<string, string>, entry: Json)
    ensures var i := FirstMatch(entries, keys);
            Put(entries, keys, entry) == if i < |entries| then entries[i := entry] else entries + [entry]
  {
  }

  lemma SwapUpdates(entries: seq<Json>, i: nat, x: Json, j: nat, y: Json)
    requires i <= |entries| && j <= |entries|
    ensures i < |entries| && j < |entries| && i != j ==> entries[i := x][j := y] == entries[j := y][i := x]
    ensures i < |entries| ==> entries[i := x] + [y] == (entries + [y])[i := x]
    ensures j < |entries| ==> entries[j := y] + [x] == (entries + [x])[j := y]
    ensures entries + [x] + [y] == entries + [x, y] && entries + [y] + [x] == entries + [y, x]
  {
  }

  /** At the node where they part, two writes commute up to the order of list entries. */
  lemma PartingWritesCommute(node: Json, u: Write, w: Write)
    requires u.path != [] && w.path != [] && Diverge(u.path[0], w.path[0])
    requires KeepsKeys(u.path, u.value) && KeepsKeys(w.path, w.value)
    ensures var uw := Insert(Insert(node, u.path, u.value), w.path, w.value);
            var wu := Insert(Insert(node, w.path, w.value), u.path, u.value);
            SameUpToOrder(uw, wu) && (u.path[0].name != w.path[0].name ==> uw == wu)
  {
    var a, b := u.path[0], w.path[0];
    assert u.path == [a] + u.path[1..] && w.path == [b] + w.path[1..];
    var x := Insert(Target(node, a), u.path[1..], u.value);
    var y := Insert(Target(node, b), w.path[1..], w.value);
    var nu, nw := SetTarget(node, a, x), SetTarget(node, b, y);
    InsertTarget(node, a, u.path[1..], u.value);
    InsertTarget(node, b, w.path[1..], w.value);
    InsertTarget(nu, b, w.path[1..], w.value);
    InsertTarget(nw, a, u.path[1..], u.value);
    if a.name != b.name {
      MembersCommute(node, a, x, b, y);
      SameReflexive(SetTarget(nu, b, y));
    } else {
      EntrySurvives(Target(node, a), a.keys, u.path[1..], u.value);
      EntrySurvives(Target(node, b), b.keys, w.path[1..], w.value);
      EntriesCommute(node, a, x, b, y);
    }
  }

  lemma SetMembersCommute(node: Json, a: string, x: Json, b: string, y: Json)
    requires a != b
    ensures SetMember(SetMember(node, a, x), b, y) == SetMember(SetMember(node, b, y), a, x)
    ensures Member(SetMember(node, a, x), b) == Member(node, b)
  {
    assert Members(node)[a := x][b := y] == Members(node)[b := y][a := x];
  }

  /** The child that putting `x` at the target of `e` leaves under its name. */
  function TargetChild(node: Json, e: Elem, x: Json): Json {
    Member(SetTarget(node, e, x), e.name)
  }

  lemma SetTargetIs(node: Json, e: Elem, x: Json)
    ensures SetTarget(node, e, x) == SetMember(node, e.name, TargetChild(node, e, x))
  {
  }

  lemma SameChild(node: Json, other: Json, e: Elem, x: Json)
    requires Member(node, e.name) == Member(other, e.name)
    ensures Target(node, e) == Target(other, e) && TargetChild(node, e, x) == TargetChild(other, e, x)
  {
  }

  lemma MembersCommute(node: Json, a: Elem, x: Json, b: Elem, y: Json)
    requires a.name != b.name
    ensures var na, nb := SetTarget(node, a, x), SetTarget(node, b, y);
            Target(na, b) == Target(node, b) && Target(nb, a) == Target(node, a) &&
            SetTarget(na, b, y) == SetTarget(nb, a, x)
  {
    var na, nb := SetTarget(node, a, x), SetTarget(node, b, y);
    var ca, cb := TargetChild(node, a, x), TargetChild(node, b, y);
    SetTargetIs(node, a, x);
    SetTargetIs(node, b, y);
    SetMembersCommute(node, a.name, ca, b.name, cb);
    SetMembersCommute(node, b.name, cb, a.name, ca);
    SameChild(na, node, b, y);
    SameChild(nb, node, a, x);
    SetTargetIs(na, b, y);
    SetTargetIs(nb, a, x);
  }

  lemma EntriesCommute(node: Json, a: Elem, x: Json, b: Elem, y: Json)
    requires a.name == b.name && Diverge(a, b) && KeysMatch(x, a.keys) && KeysMatch(y, b.keys)
    ensures var na, nb := SetTarget(node, a, x), SetTarget(node, b, y);
            && Target(na, b) == Target(node, b)
            && Target(nb, a) == Target(node, a)
            && SameUpToOrder(SetTarget(na, b, y), SetTarget(nb, a, x))
  {
    var entries := Items(Member(node, a.name));
    var pa, pb := Put(entries, a.keys, x), Put(entries, b.keys, y);
    var ab, ba := Put(pa, b.keys, y), Put(pb, a.keys, x);
    PutElsewhere(entries, a.keys, x, b.keys);
    PutElsewhere(entries, b.keys, y, a.keys);
    SetMemberTwice(node, a.name, Array(pa), Array(ab));
    SetMemberTwice(node, a.name, Array(pb), Array(ba));
    assert SameUpToOrder(Array(ab), Array(ba)) by {
      PutsCommute(entries, a.keys, x, b.keys, y);
      if ab == ba { SameReflexive(Array(ab)); } else { SameSwapped(entries, x, y); }
    }
    SameSetMember(node, a.name, Array(ab), Array(ba));
  }

  /** Two writes whose paths part somewhere, neither overwriting a list key on its way, give the
      same tree in either order up to the order of list entries, and exactly the same tree when
      they part at differently named members. */
  lemma {:induction false} DivergentWritesCommute(node: Json, at: seq<Elem>, u: Write, w: Write)
    requires u.path != [] && w.path != [] && Diverge(u.path[0], w.path[0])
    requires KeepsKeys(at + u.path, u.value) && KeepsKeys(at + w.path, w.value)
    ensures SameUpToOrder(Fold(node, at, [u, w]), Fold(node, at, [w, u]))
    ensures u.path[0].name != w.path[0].name ==> Fold(node, at, [u, w]) == Fold(node, at, [w, u])
    decreases |at|
  {
    if at == [] {
      assert at + u.path == u.path && at + w.path == w.path;
      PartingWritesCommute(node, u, w);
      FoldPair(node, at, u, w);
      FoldPair(node, at, w, u);
    } else {
      var e, rest := at[0], at[1..];
      assert at == [e] + rest;
      assert (at + u.path)[0] == e && (at + u.path)[1..] == rest + u.path;
      assert (at + w.path)[0] == e && (at + w.path)[1..] == rest + w.path;
      FoldBelow(node, e, rest, [u, w]);
      FoldBelow(node, e, rest, [w, u]);
      var target := Target(node, e);
      DivergentWritesCommute(target, rest, u, w);
      SameSetTarget(node, e, Fold(target, rest, [u, w]), Fold(target, rest, [w, u]));
    }
  }

  // ---------------------------------------------------------------- one write per list entry

  /** Writes that each carry one entry of the list `name`. */
  predicate EntryWrites(writes: seq<Write>, name: string) {
    forall i | 0 <= i < |writes| ::
      |writes[i].path| == 1 && writes[i].path[0].name == name && writes[i].path[0].Keyed()
  }

  /** The list a target would send in one write instead. */
  function WholeList(writes: seq<Write>, name: string): seq<Json>
    requires EntryWrites(writes, name)
  {
    seq(|writes|, i requires 0 <= i < |writes| => MergeValue(NewEntry(writes[i].path[0].keys), writes[i].value))
  }

  /** No write addresses an entry listed before it. */
  predicate AllNew(entries: seq<Json>, writes: seq<Write>, name: string)
    requires EntryWrites(writes, name)
    decreases |writes|
  {
    writes != [] ==>
      var keys := writes[0].path[0].keys;
      && FirstMatch(entries, keys) == |entries|
      && AllNew(entries + [MergeValue(NewEntry(keys), writes[0].value)], writes[1..], name)
  }

  /** The list `entries` after each write has put its entry. */
  function PutAll(entries: seq<Json>, writes: seq<Write>, name: string): seq<Json>
    requires EntryWrites(writes, name)
    decreases |writes|
  {
    if writes == [] then entries
    else
      var keys := writes[0].path[0].keys;
      var entry := MergeValue(Listed(entries, keys)[FirstMatch(entries, keys)], writes[0].value);
      PutAll(Put(entries, keys, entry), writes[1..], name)
  }

  lemma {:induction false} FoldEntries(node: Json, writes: seq<Write>, name: string)
    requires writes != [] && EntryWrites(writes, name)
    ensures Fold(node, [], writes) == SetMember(node, name, Array(PutAll(Items(Member(node, name)), writes, name)))
    decreases |writes|
  {
    var w, rest := writes[0], writes[1..];
    var e, entries := w.path[0], Items(Member(node, name));
    assert writes == [w] + rest && w.path == [e] + [];
    FoldFirst(node, w, rest);
    InsertTarget(node, e, [], w.value);
    var put := Put(entries, e.keys, MergeValue(Target(node, e), w.value));
    var next := SetMember(node, name, Array(put));
    SetMemberTwice(node, name, Array(put), Array(PutAll(put, rest, name)));
    if rest != [] { FoldEntries(next, rest, name); }
  }

  lemma {:induction false} PutAllBound(entries: seq<Json>, writes: seq<Write>, name: string)
    requires EntryWrites(writes, name)
    ensures |PutAll(entries, writes, name)| <= |entries| + |writes|
    decreases |writes|
  {
    if writes != [] {
      var keys := writes[0].path[0].keys;
      var entry := MergeValue(Listed(entries, keys)[FirstMatch(entries, keys)], writes[0].value);
      PutIs(entries, keys, entry);
      PutAllBound(Put(entries, keys, entry), writes[1..], name);
    }
  }

  lemma WholeListFirst(entries: seq<Json>, writes: seq<Write>, name: string)
    requires writes != [] && EntryWrites(writes, name)
    ensures var entry := MergeValue(NewEntry(writes[0].path[0].keys), writes[0].value);
            entries + WholeList(writes, name) == entries + [entry] + WholeList(writes[1..], name)
  {
  }

  /** Putting entries one by one lists them all, in order, exactly when each is new. */
  lemma {:induction false} PutAllLists(entries: seq<Json>, writes: seq<Write>, name: string)
    requires EntryWrites(writes, name)
    ensures AllNew(entries, writes, name) <==> PutAll(entries, writes, name) == entries + WholeList(writes, name)
    decreases |writes|
  {
    if writes != [] {
      var w, rest := writes[0], writes[1..];
      var keys := w.path[0].keys;
      var entry := MergeValue(Listed(entries, keys)[FirstMatch(entries, keys)], w.value);
      var put := Put(entries, keys, entry);
      PutIs(entries, keys, entry);
      if FirstMatch(entries, keys) == |entries| {
        PutAllLists(put, rest, name);
        WholeListFirst(entries, writes, name);
      } else {
        PutAllBound(put, rest, name);
      }
    }
  }

  /** The node a path leads to. */
  function Reach(node: Json, path: seq<Elem>): Json
    decreases |path|
  {
    if path == [] then node else Reach(Target(node, path[0]), path[1..])
  }

  /** A list sent entry by entry under keyed paths folds like the list sent whole exactly when no
      entry is already listed: a whole list is appended, while a keyed write merges. */
  lemma {:induction false} ListEntryByEntry(node: Json, path: seq<Elem>, writes: seq<Write>, name: string)
    requires writes != [] && EntryWrites(writes, name)
    requires KeepsKeys(path + [Elem(name, map[])], Array([]))
    ensures Fold(node, path, writes) == Insert(node, path + [Elem(name, map[])], Array(WholeList(writes, name)))
            <==> AllNew(Items(Member(Reach(node, path), name)), writes, name)
    decreases |path|
  {
    var list, whole := Elem(name, map[]), Array(WholeList(writes, name));
    if path == [] {
      assert path + [list] == [list] + [];
      InsertTarget(node, list, [], whole);
      FoldEntries(node, writes, name);
      var entries := Items(Member(node, name));
      PutAllLists(entries, writes, name);
      assert [] + WholeList(writes, name) == WholeList(writes, name);
      assert MergeValue(Member(node, name), whole) == Array(entries + WholeList(writes, name));
      SetMemberTwice(node, name, Array(entries + WholeList(writes, name)), Null);
      SetMemberTwice(node, name, Array(PutAll(entries, writes, name)), Null);
    } else {
      var e, rest := path[0], path[1..];
      assert path == [e] + rest;
      assert path + [list] == [e] + (rest + [list]);
      if e.Keyed() {
        forall i | 0 <= i < |writes| - 1 ensures Survives(e.keys, rest + writes[i].path, writes[i].value) {
          assert (rest + [list])[0].name == (rest + writes[i].path)[0].name;
        }
      }
      FoldBelow(node, e, rest, writes);
      InsertTarget(node, e, rest + [list], whole);
      var x, y := Fold(Target(node, e), rest, writes), Insert(Target(node, e), rest + [list], whole);
      ListEntryByEntry(Target(node, e), rest, writes, name);
      if SetTarget(node, e, x) == SetTarget(node, e, y) { SetTargetInjective(node, e, x, y); }
    }
  }

  /** Two updates for one list entry: sent as a list they are two entries, under keyed paths one. */
  lemma ListedAlready() returns (writes: seq<Write>)
    ensures writes == [Write([Elem("interface", map["name" := "E1"])], Object(map[])),
                       Write([Elem("interface", map["name" := "E1"])], Object(map[]))]
    ensures EntryWrites(writes, "interface")
    ensures Fold(Null, [], writes) !=
            Insert(Null, [] + [Elem("interface", map[])], Array(WholeList(writes, "interface")))
  {
    var keys := map["name" := "E1"];
    var w := Write([Elem("interface", keys)], Object(map[]));
    writes := [w, w];
    assert "name" in keys;
    var entry := MergeValue(NewEntry(keys), Object(map[]));
    assert KeysMatch(entry, keys) by {
      EntrySurvives(NewEntry(keys), keys, [], Object(map[]));
    }
    assert writes[1..] == [w] && FirstMatch([] + [entry], keys) == 0;
    assert !AllNew([] + [entry], [w], "interface");
    ListEntryByEntry(Null, [], writes, "interface");
  }
}
