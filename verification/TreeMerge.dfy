/** The in-place steps of the Get answer fold (agent/src/gnmi/tree.rs): decoding the values of an
    answer, dropping YANG module prefixes (section 4 of RFC 7951), and merging every update into
    the tree, each step proved against the functions of `Tree`.
 */
module TreeMerge {
  import opened Options
  import opened Ordering
  import opened Tree

  // ---------------------------------------------------------------- module prefixes

  /** What follows the last colon of a name. */
  function Unprefixed(name: string): (r: string)
    ensures ':' !in r
    ensures |r| <= |name| && name[|name| - |r|..] == r
    ensures |r| < |name| ==> name[|name| - |r| - 1] == ':'
  {
    if ':' in name then Unprefixed(name[1..]) else name
  }

  lemma {:induction false} PrefixDropped(prefix: string, name: string)
    requires ':' !in name
    ensures Unprefixed(prefix + ":" + name) == name
    decreases |prefix|
  {
    var full := prefix + ":" + name;
    assert full[|prefix|] == ':';
    if prefix == [] {
      assert full[1..] == name;
    } else {
      assert full[1..] == prefix[1..] + ":" + name;
      PrefixDropped(prefix[1..], name);
    }
  }

  /** Members are visited in name order, so of several names with one base the last wins. */
  function Winner(names: set<string>, base: string): (r: string)
    requires exists k :: k in names && Unprefixed(k) == base
    ensures r in names && Unprefixed(r) == base
    ensures forall k | k in names && Unprefixed(k) == base :: StringLeq(k, r)
  {
    var same := set k | k in names && Unprefixed(k) == base;
    assert same != {} by {
      var k :| k in names && Unprefixed(k) == base;
      assert k in same;
    }
    LastString(same)
  }

  function Bases(names: set<string>): set<string> {
    set k | k in names :: Unprefixed(k)
  }

  function StripPrefixes(value: Json): Json
    decreases value
  {
    match value
    case Object(m) =>
      Object(map n | n in Bases(m.Keys) :: StripPrefixes(m[Winner(m.Keys, n)]))
    case Array(xs) => Array(seq(|xs|, i requires 0 <= i < |xs| => StripPrefixes(xs[i])))
    case _ => value
  }

  /** `qualified` is `plain` with a module prefix put on some of its member names. */
  ghost predicate Qualifies(qualified: Json, plain: Json)
    decreases plain
  {
    match plain
    case Object(m) =>
      && qualified.Object?
      && Bases(qualified.members.Keys) == m.Keys
      && (forall j, k | j in qualified.members && k in qualified.members && Unprefixed(j) == Unprefixed(k) :: j == k)
      && (forall k | k in qualified.members ::
            Unprefixed(k) in m && Qualifies(qualified.members[k], m[Unprefixed(k)]))
    case Array(xs) =>
      && qualified.Array?
      && |qualified.items| == |xs|
      && forall i | 0 <= i < |xs| :: Qualifies(qualified.items[i], xs[i])
    case _ => qualified == plain
  }

  /** Stripping undoes every qualification, at every depth. */
  lemma {:induction false} StripUndoesQualification(qualified: Json, plain: Json)
    requires Qualifies(qualified, plain)
    ensures StripPrefixes(qualified) == plain
    decreases plain
  {
    match plain
    case Object(m) =>
      var names := qualified.members.Keys;
      forall n | n in m
        ensures n in Bases(names) && StripPrefixes(qualified.members[Winner(names, n)]) == m[n]
      {
        assert n in Bases(names);
        var k := Winner(names, n);
        assert Qualifies(qualified.members[k], m[Unprefixed(k)]);
        StripUndoesQualification(qualified.members[k], m[n]);
      }
      assert StripPrefixes(qualified).members == m;
    case Array(xs) =>
      forall i | 0 <= i < |xs| ensures StripPrefixes(qualified.items[i]) == xs[i] {
        StripUndoesQualification(qualified.items[i], xs[i]);
      }
      assert StripPrefixes(qualified).items == xs;
    case _ =>
  }

  /** No member name, at any depth, carries a prefix. */
  ghost predicate Plain(value: Json)
    decreases value
  {
    match value
    case Object(m) => forall n | n in m :: ':' !in n && Plain(m[n])
    case Array(xs) => forall i | 0 <= i < |xs| :: Plain(xs[i])
    case _ => true
  }

  lemma {:induction false} StrippedIsPlain(value: Json)
    ensures Plain(StripPrefixes(value))
    decreases value
  {
    match value
    case Object(m) =>
      forall n | n in Bases(m.Keys) ensures ':' !in n && Plain(StripPrefixes(m[Winner(m.Keys, n)])) {
        StrippedIsPlain(m[Winner(m.Keys, n)]);
      }
    case Array(xs) =>
      forall i | 0 <= i < |xs| ensures Plain(StripPrefixes(xs[i])) { StrippedIsPlain(xs[i]); }
    case _ =>
  }

  lemma WinnerIs(names: set<string>, name: string)
    requires name in names && forall k | k in names && Unprefixed(k) == Unprefixed(name) :: StringLeq(k, name)
    ensures Winner(names, Unprefixed(name)) == name
  {
    var w := Winner(names, Unprefixed(name));
    assert StringLeq(name, w) && StringLeq(w, name);
    StringAntisymmetric();
  }

  /** Of several member names with one base, the last in name order gives the value. */
  lemma LastNameWins(m: map<string, Json>, name: string)
    requires name in m && forall k | k in m && Unprefixed(k) == Unprefixed(name) :: StringLeq(k, name)
    ensures var stripped := StripPrefixes(Object(m));
            && stripped.Object? && Unprefixed(name) in stripped.members
            && stripped.members[Unprefixed(name)] == StripPrefixes(m[name])
  {
    assert name in m.Keys;
    WinnerIs(m.Keys, name);
    assert Unprefixed(name) in Bases(m.Keys);
  }

  // ---------------------------------------------------------------- merging in place

  lemma MergeStep(existing: map<string, Json>, incoming: map<string, Json>, key: string)
    requires key in incoming
    ensures var merged := MergeValue(Member(Object(existing), key), incoming[key]);
            MergeValue(Object(existing[key := merged]), Object(incoming - {key})) ==
            MergeValue(Object(existing), Object(incoming))
  {
    var merged := MergeValue(Member(Object(existing), key), incoming[key]);
    var a := MergeValue(Object(existing[key := merged]), Object(incoming - {key})).members;
    var b := MergeValue(Object(existing), Object(incoming)).members;
    assert a.Keys == b.Keys;
    assert forall k | k in a :: a[k] == b[k];
  }

  lemma MergeNothing(existing: map<string, Json>)
    ensures MergeValue(Object(existing), Object(map[])) == Object(existing)
  {
    assert MergeValue(Object(existing), Object(map[])).members == existing;
  }

  method MergeValueInPlace(node: Json, value: Json) returns (r: Json)
    ensures r == MergeValue(node, value)
    decreases value
  {
    if node.Object? && value.Object? {
      var existing, incoming := node.members, value.members;
      while incoming != map[]
        invariant incoming.Keys <= value.members.Keys
        invariant forall k | k in incoming :: incoming[k] == value.members[k]
        invariant MergeValue(Object(existing), Object(incoming)) == MergeValue(node, value)
        decreases |incoming|
      {
        var key :| key in incoming;
        MergeStep(existing, incoming, key);
        var entry := if key in existing then existing[key] else Null;
        var merged := MergeValueInPlace(entry, incoming[key]);
        existing := existing[key := merged];
        incoming := incoming - {key};
      }
      r := Object(existing);
      MergeNothing(existing);
    } else if node.Array? && value.Array? {
      r := Array(node.items + value.items);
    } else {
      r := value;
    }
  }

  method Position(entries: seq<Json>, keys: map<string, string>) returns (index: nat)
    ensures index == FirstMatch(entries, keys)
  {
    index := 0;
    while index < |entries| && !KeysMatch(entries[index], keys)
      invariant index <= |entries|
      invariant FirstMatch(entries, keys) == index + FirstMatch(entries[index..], keys)
    {
      assert entries[index..][1..] == entries[index + 1..];
      index := index + 1;
    }
    if index < |entries| {
      assert entries[index..][0] == entries[index];
    }
  }

  lemma InsertUnkeyed(node: Json, elems: seq<Elem>, value: Json)
    requires elems != [] && !elems[0].Keyed()
    ensures Insert(node, elems, value) ==
            SetMember(node, elems[0].name, Insert(Member(node, elems[0].name), elems[1..], value))
  {
  }

  lemma InsertKeyed(node: Json, elems: seq<Elem>, value: Json, entries: seq<Json>, index: nat)
    requires elems != [] && elems[0].Keyed()
    requires entries == Listed(Items(Member(node, elems[0].name)), elems[0].keys)
    requires index == FirstMatch(Items(Member(node, elems[0].name)), elems[0].keys)
    ensures Insert(node, elems, value) ==
            SetMember(node, elems[0].name, Array(entries[index := Insert(entries[index], elems[1..], value)]))
  {
  }

  method InsertInPlace(node: Json, elems: seq<Elem>, value: Json) returns (r: Json)
    ensures r == Insert(node, elems, value)
    decreases |elems|
  {
    if elems == [] {
      r := MergeValueInPlace(node, value);
      return;
    }
    var elem := elems[0];
    var members := if node.Object? then node.members else map[];
    var child := if elem.name in members then members[elem.name] else Null;
    if !elem.Keyed() {
      InsertUnkeyed(node, elems, value);
      child := InsertInPlace(child, elems[1..], value);
    } else {
      var entries := if child.Array? then child.items else [];
      var index := Position(entries, elem.keys);
      if index == |entries| {
        entries := entries + [NewEntry(elem.keys)];
      }
      InsertKeyed(node, elems, value, entries, index);
      var entry := InsertInPlace(entries[index], elems[1..], value);
      child := Array(entries[index := entry]);
    }
    r := Object(members[elem.name := child]);
  }

  // ---------------------------------------------------------------- the answer

  datatype PathElem = PathElem(name: string, keys: map<string, string>)

  /** A value as the target typed it. JSON text carries its parse, if it has one. */
  datatype TypedValue =
    | JsonText(parsed: Option<Json>)
    | Text(text: string)
    | Integer(digits: string)
    | Flag(flag: bool)
    | Float(printed: Option<string>)
    | LeafList(elements: seq<TypedValue>)
    | Opaque

  datatype Update = Update(path: seq<PathElem>, value: Option<TypedValue>)

  datatype Notification = Notification(prefix: seq<PathElem>, updates: seq<Update>)

  /** The JSON of a typed value, or nothing when it is invalid JSON text. */
  function Decode(value: TypedValue): Option<Json>
    decreases value
  {
    match value
    case JsonText(None) => None
    case JsonText(Some(json)) => Some(StripPrefixes(json))
    case Text(text) => Some(Str(text))
    case Integer(digits) => Some(Number(digits))
    case Flag(flag) => Some(Bool(flag))
    case Float(printed) => Some(if printed.Some? then Number(printed.value) else Null)
    case LeafList(elements) =>
      if forall i | 0 <= i < |elements| :: Decode(elements[i]).Some?
      then Some(Array(seq(|elements|, i requires 0 <= i < |elements| => Decode(elements[i]).value)))
      else None
    case Opaque => Some(Null)
  }

  function Elems(path: seq<PathElem>): seq<Elem> {
    seq(|path|, i requires 0 <= i < |path| =>
      Elem(Unprefixed(path[i].name),
           map n | n in Bases(path[i].keys.Keys) :: path[i].keys[Winner(path[i].keys.Keys, n)]))
  }

  /** A container's content without a repetition of the container's own name around it. */
  function Unwrapped(path: seq<Elem>, value: Json): Json {
    if && path != [] && !path[|path| - 1].Keyed() && value.Object?
       && |value.members| == 1 && path[|path| - 1].name in value.members
    then value.members[path[|path| - 1].name]
    else value
  }

  function WriteOf(prefix: seq<PathElem>, update: Update): Option<Write> {
    if update.value.None? || Decode(update.value.value).None? then None
    else
      var path := Elems(prefix) + Elems(update.path);
      Some(Write(path, Unwrapped(path, Decode(update.value.value).value)))
  }

  predicate Invalid(update: Update) {
    update.value.Some? && Decode(update.value.value).None?
  }

  /** The writes of an answer up to its first invalid value. */
  function Writes(prefix: seq<PathElem>, updates: seq<Update>): seq<Write>
    decreases |updates|
  {
    if updates == [] || Invalid(updates[0]) then []
    else
      var rest := Writes(prefix, updates[1..]);
      if updates[0].value.None? then rest else [WriteOf(prefix, updates[0]).value] + rest
  }

  predicate AllValid(updates: seq<Update>) {
    forall i | 0 <= i < |updates| :: !Invalid(updates[i])
  }

  function AnswerWrites(notifications: seq<Notification>): seq<Write>
    decreases |notifications|
  {
    if notifications == [] then []
    else
      var first := notifications[0];
      var writes := Writes(first.prefix, first.updates);
      if AllValid(first.updates) then writes + AnswerWrites(notifications[1..]) else writes
  }

  lemma {:induction false} FoldAppend(node: Json, first: seq<Write>, second: seq<Write>)
    ensures Fold(node, [], first + second) == Fold(Fold(node, [], first), [], second)
    decreases |first|
  {
    if first == [] {
      assert first + second == second;
    } else {
      assert (first + second)[1..] == first[1..] + second;
      FoldAppend(Insert(node, [] + first[0].path, first[0].value), first[1..], second);
    }
  }

  lemma MergeNext(tree: Json, prefix: seq<PathElem>, updates: seq<Update>)
    requires updates != [] && !Invalid(updates[0])
    ensures var write, rest := WriteOf(prefix, updates[0]), Writes(prefix, updates[1..]);
            Fold(tree, [], Writes(prefix, updates)) ==
            Fold(if write.None? then tree else Insert(tree, write.value.path, write.value.value), [], rest)
  {
    if updates[0].value.Some? {
      FoldFirst(tree, WriteOf(prefix, updates[0]).value, Writes(prefix, updates[1..]));
    }
  }

  class Answer {
    var tree: Json

    constructor ()
      ensures tree == Null
    {
      tree := Null;
    }

    /** Merges one notification's updates. An invalid value stops it there. */
    method MergeOne(notification: Notification) returns (ok: bool)
      modifies this
      ensures ok <==> AllValid(notification.updates)
      ensures tree == Fold(old(tree), [], Writes(notification.prefix, notification.updates))
    {
      var updates := notification.updates;
      var i := 0;
      assert updates[0..] == updates;
      while i < |updates|
        invariant 0 <= i <= |updates|
        invariant AllValid(updates[..i])
        invariant Fold(old(tree), [], Writes(notification.prefix, updates)) ==
                  Fold(tree, [], Writes(notification.prefix, updates[i..]))
      {
        var update := updates[i];
        assert updates[i..][0] == update && updates[i..][1..] == updates[i + 1..];
        if update.value.Some? {
          var value := Decode(update.value.value);
          if value.None? {
            return false;
          }
          MergeNext(tree, notification.prefix, updates[i..]);
          var elems := Elems(notification.prefix) + Elems(update.path);
          var write := Write(elems, Unwrapped(elems, value.value));
          tree := InsertInPlace(tree, elems, write.value);
        }
        i := i + 1;
      }
      ok := true;
    }

    /** Merges every update of an answer, stopping at the first value that is not valid JSON;
        what came before it stays merged. */
    method Merge(notifications: seq<Notification>) returns (ok: bool)
      modifies this
      ensures ok <==> forall i | 0 <= i < |notifications| :: AllValid(notifications[i].updates)
      ensures tree == Fold(old(tree), [], AnswerWrites(notifications))
    {
      var i := 0;
      assert notifications[0..] == notifications;
      while i < |notifications|
        invariant 0 <= i <= |notifications|
        invariant forall j | 0 <= j < i :: AllValid(notifications[j].updates)
        invariant Fold(old(tree), [], AnswerWrites(notifications)) ==
                  Fold(tree, [], AnswerWrites(notifications[i..]))
      {
        var first := notifications[i];
        assert notifications[i..][0] == first && notifications[i..][1..] == notifications[i + 1..];
        ghost var before := tree;
        var merged := MergeOne(first);
        if !merged {
          return false;
        }
        FoldAppend(before, Writes(first.prefix, first.updates), AnswerWrites(notifications[i + 1..]));
        i := i + 1;
      }
      ok := true;
    }
  }
}
