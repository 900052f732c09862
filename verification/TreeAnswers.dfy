/** Whole answers (agent/src/gnmi/tree.rs): which writes a target's notifications stand for, told from
    what they carry and not from how they are read.
 */
module TreeAnswers {
  import opened Options
  import opened Tree
  import opened TreeMerge
  import opened TreeSplits

  // ---------------------------------------------------------------- paths

  /** `keys` is `plain` with a module prefix put on some of its names. */
  ghost predicate QualifiesKeys(keys: map<string, string>, plain: map<string, string>) {
    && (forall k | k in keys :: Unprefixed(k) in plain && keys[k] == plain[Unprefixed(k)])
    && (forall n | n in plain :: exists k :: k in keys && Unprefixed(k) == n)
  }

  /** `path` is `plain` with a module prefix put on some of its names. */
  ghost predicate QualifiesPath(path: seq<PathElem>, plain: seq<Elem>) {
    && |path| == |plain|
    && forall i | 0 <= i < |plain| ::
         Unprefixed(path[i].name) == plain[i].name && QualifiesKeys(path[i].keys, plain[i].keys)
  }

  lemma KeysUnqualified(keys: map<string, string>, plain: map<string, string>)
    requires QualifiesKeys(keys, plain)
    ensures (map n | n in Bases(keys.Keys) :: keys[Winner(keys.Keys, n)]) == plain
  {
    forall n ensures n in Bases(keys.Keys) <==> n in plain {
      if n in plain {
        var k :| k in keys && Unprefixed(k) == n;
        assert k in keys.Keys;
      }
    }
  }

  /** The elements of a path are those it qualifies: every name and every key, in their order. */
  lemma PathUnqualified(path: seq<PathElem>, plain: seq<Elem>)
    requires QualifiesPath(path, plain)
    ensures Elems(path) == plain
  {
    forall i | 0 <= i < |plain| ensures Elems(path)[i] == plain[i] {
      KeysUnqualified(path[i].keys, plain[i].keys);
    }
  }

  // ---------------------------------------------------------------- values

  /** What a typed value says. */
  ghost predicate Says(value: TypedValue, json: Json)
    decreases value
  {
    match value
    case JsonText(parsed) => parsed.Some? && Qualifies(parsed.value, json)
    case Text(text) => json == Str(text)
    case Integer(digits) => json == Number(digits)
    case Flag(flag) => json == Bool(flag)
    case Float(printed) => json == if printed.Some? then Number(printed.value) else Null
    case LeafList(elements) =>
      && json.Array? && |json.items| == |elements|
      && forall i | 0 <= i < |elements| :: Says(elements[i], json.items[i])
    case Opaque => json == Null
  }

  lemma {:induction false} SaysDecodes(value: TypedValue, json: Json)
    requires Says(value, json)
    ensures Decode(value) == Some(json)
    decreases value
  {
    match value
    case JsonText(parsed) => StripUndoesQualification(parsed.value, json);
    case LeafList(elements) =>
      forall i | 0 <= i < |elements| ensures Decode(elements[i]) == Some(json.items[i]) {
        SaysDecodes(elements[i], json.items[i]);
      }
      assert Decode(value).value.items == json.items;
    case _ =>
  }

  /** JSON text that does not parse, or a list with such an element. */
  ghost predicate Malformed(value: TypedValue)
    decreases value
  {
    match value
    case JsonText(parsed) => parsed.None?
    case LeafList(elements) => exists i :: 0 <= i < |elements| && Malformed(elements[i])
    case _ => false
  }

  lemma {:induction false} InvalidExactly(value: TypedValue)
    ensures Decode(value).None? <==> Malformed(value)
    decreases value
  {
    if value.LeafList? {
      forall i | 0 <= i < |value.elements| ensures Decode(value.elements[i]).None? <==> Malformed(value.elements[i]) {
        InvalidExactly(value.elements[i]);
      }
    }
  }

  // ---------------------------------------------------------------- updates

  /** What an update carries: nothing, or a value at a path, maybe `wrapped` once more in the name of
      the container it belongs to. */
  datatype Sent = Nothing | Sent(path: seq<Elem>, value: Json, wrapped: bool)

  /** The value is an object with one member, named like the container at the end of the path. */
  ghost predicate Repeats(path: seq<Elem>, value: Json) {
    && path != [] && path[|path| - 1].keys == map[]
    && value.Object? && value.members.Keys == {path[|path| - 1].name}
  }

  ghost predicate UpdateCarries(update: Update, prefix: seq<Elem>, sent: Sent) {
    match sent
    case Nothing => update.value.None?
    case Sent(path, value, wrapped) =>
      && QualifiesPath(update.path, path)
      && update.value.Some?
      && var full := prefix + path;
         if wrapped then
           && full != [] && full[|full| - 1].keys == map[]
           && Says(update.value.value, Object(map[full[|full| - 1].name := value]))
         else Says(update.value.value, value) && !Repeats(full, value)
  }

  function Meant(prefix: seq<Elem>, sent: Sent): seq<Write> {
    if sent.Nothing? then [] else [Write(prefix + sent.path, sent.value)]
  }

  lemma OneMember(name: string, value: Json, m: map<string, Json>)
    requires m == map[name := value]
    ensures |m| == 1 && m.Keys == {name} && m[name] == value
  {
    assert m.Keys == {name};
  }

  lemma UnwrapsOnce(path: seq<Elem>, value: Json)
    ensures path != [] && path[|path| - 1].keys == map[] ==>
              Unwrapped(path, Object(map[path[|path| - 1].name := value])) == value
    ensures !Repeats(path, value) ==> Unwrapped(path, value) == value
  {
    if path != [] {
      var name := path[|path| - 1].name;
      OneMember(name, value, map[name := value]);
      if value.Object? && |value.members| == 1 && name in value.members {
        OnlyOne(value.members.Keys, name);
      }
    }
  }

  lemma OnlyOne(names: set<string>, name: string)
    requires |names| == 1 && name in names
    ensures names == {name}
  {
    assert |names - {name}| == 0;
  }

  /** An update below a prefix is one write of what it carries, at the prefix followed by its path. */
  lemma UpdateIsWritten(prefix: seq<PathElem>, plain: seq<Elem>, update: Update, sent: Sent)
    requires QualifiesPath(prefix, plain) && UpdateCarries(update, plain, sent)
    ensures !Invalid(update)
    ensures (if WriteOf(prefix, update).Some? then [WriteOf(prefix, update).value] else []) == Meant(plain, sent)
  {
    if sent.Sent? {
      var full := plain + sent.path;
      PathUnqualified(prefix, plain);
      PathUnqualified(update.path, sent.path);
      UnwrapsOnce(full, sent.value);
      SaysDecodes(update.value.value,
                  if sent.wrapped then Object(map[full[|full| - 1].name := sent.value]) else sent.value);
    }
  }

  ghost predicate UpdatesCarry(updates: seq<Update>, prefix: seq<Elem>, sents: seq<Sent>) {
    |updates| == |sents| && forall i | 0 <= i < |updates| :: UpdateCarries(updates[i], prefix, sents[i])
  }

  function AllMeant(prefix: seq<Elem>, sents: seq<Sent>): seq<Write> {
    if sents == [] then [] else Meant(prefix, sents[0]) + AllMeant(prefix, sents[1..])
  }

  lemma WritesFirst(prefix: seq<PathElem>, updates: seq<Update>)
    requires updates != [] && !Invalid(updates[0])
    ensures Writes(prefix, updates) ==
            (if WriteOf(prefix, updates[0]).Some? then [WriteOf(prefix, updates[0]).value] else [])
            + Writes(prefix, updates[1..])
    ensures AllValid(updates) <==> AllValid(updates[1..])
  {
    assert updates == [updates[0]] + updates[1..];
  }

  lemma CarryRest(updates: seq<Update>, prefix: seq<Elem>, sents: seq<Sent>)
    requires updates != [] && UpdatesCarry(updates, prefix, sents)
    ensures UpdateCarries(updates[0], prefix, sents[0]) && UpdatesCarry(updates[1..], prefix, sents[1..])
  {
    forall i | 0 <= i < |updates| - 1 ensures UpdateCarries(updates[1..][i], prefix, sents[1..][i]) {
      assert UpdateCarries(updates[i + 1], prefix, sents[i + 1]);
    }
  }

  lemma {:induction false} UpdatesAreWritten(
    prefix: seq<PathElem>, plain: seq<Elem>, updates: seq<Update>, sents: seq<Sent>)
    requires QualifiesPath(prefix, plain) && UpdatesCarry(updates, plain, sents)
    ensures AllValid(updates) && Writes(prefix, updates) == AllMeant(plain, sents)
    decreases |updates|
  {
    if updates != [] {
      CarryRest(updates, plain, sents);
      UpdateIsWritten(prefix, plain, updates[0], sents[0]);
      UpdatesAreWritten(prefix, plain, updates[1..], sents[1..]);
      WritesFirst(prefix, updates);
    }
  }

  // ---------------------------------------------------------------- answers

  datatype Part = Part(prefix: seq<Elem>, sents: seq<Sent>)

  ghost predicate PartCarried(n: Notification, part: Part) {
    QualifiesPath(n.prefix, part.prefix) && UpdatesCarry(n.updates, part.prefix, part.sents)
  }

  ghost predicate AnswerCarries(notifications: seq<Notification>, parts: seq<Part>) {
    |notifications| == |parts| && forall i | 0 <= i < |parts| :: PartCarried(notifications[i], parts[i])
  }

  function WholeMeaning(parts: seq<Part>): seq<Write> {
    if parts == [] then [] else AllMeant(parts[0].prefix, parts[0].sents) + WholeMeaning(parts[1..])
  }

  /** An answer is the writes of what its notifications carry, each at its full path, in their order. */
  lemma {:induction false} AnswerIsWritten(notifications: seq<Notification>, parts: seq<Part>)
    requires AnswerCarries(notifications, parts)
    ensures AnswerWrites(notifications) == WholeMeaning(parts)
    ensures forall i | 0 <= i < |notifications| :: AllValid(notifications[i].updates)
    decreases |notifications|
  {
    if notifications != [] {
      var n, part := notifications[0], parts[0];
      assert PartCarried(n, part);
      UpdatesAreWritten(n.prefix, part.prefix, n.updates, part.sents);
      assert forall i | 0 <= i < |parts| - 1 ::
          notifications[1..][i] == notifications[i + 1] && parts[1..][i] == parts[i + 1];
      AnswerIsWritten(notifications[1..], parts[1..]);
      assert notifications == [n] + notifications[1..];
    }
  }

  lemma OneWrite(prefix: seq<PathElem>, update: Update)
    requires update.value.Some? && WriteOf(prefix, update).Some?
    ensures AnswerWrites([Notification(prefix, [update])]) == [WriteOf(prefix, update).value]
  {
    assert [update][1..] == [];
    assert Writes(prefix, [update]) == [WriteOf(prefix, update).value];
    assert [Notification(prefix, [update])][1..] == [];
  }

  /** A single update, plain or wrapped once more in the name of its container. */
  lemma OneUpdateAnswer(
    prefix: seq<PathElem>, p: seq<Elem>, path: seq<PathElem>, q: seq<Elem>, value: TypedValue, json: Json)
    requires QualifiesPath(prefix, p) && QualifiesPath(path, q)
    ensures Says(value, json) && !Repeats(p + q, json) ==>
              AnswerWrites([Notification(prefix, [Update(path, Some(value))])]) == [Write(p + q, json)]
    ensures p + q != [] && (p + q)[|p + q| - 1].keys == map[]
            && Says(value, Object(map[(p + q)[|p + q| - 1].name := json])) ==>
              AnswerWrites([Notification(prefix, [Update(path, Some(value))])]) == [Write(p + q, json)]
  {
    var full, update := p + q, Update(path, Some(value));
    if Says(value, json) && !Repeats(full, json) {
      UpdateIsWritten(prefix, p, update, Sent(q, json, false));
      OneWrite(prefix, update);
    }
    if full != [] && full[|full| - 1].keys == map[] && Says(value, Object(map[full[|full| - 1].name := json])) {
      UpdateIsWritten(prefix, p, update, Sent(q, json, true));
      OneWrite(prefix, update);
    }
  }

  /** The typed leaves, each as it stands. */
  lemma TypedLeaves(prefix: seq<PathElem>, p: seq<Elem>, path: seq<PathElem>, q: seq<Elem>, text: string, flag: bool)
    requires QualifiesPath(prefix, p) && QualifiesPath(path, q)
    ensures AnswerWrites([Notification(prefix, [Update(path, Some(Text(text)))])]) == [Write(p + q, Str(text))]
    ensures AnswerWrites([Notification(prefix, [Update(path, Some(Integer(text)))])]) == [Write(p + q, Number(text))]
    ensures AnswerWrites([Notification(prefix, [Update(path, Some(Flag(flag)))])]) == [Write(p + q, Bool(flag))]
    ensures AnswerWrites([Notification(prefix, [Update(path, Some(Float(Some(text))))])]) ==
            [Write(p + q, Number(text))]
    ensures AnswerWrites([Notification(prefix, [Update(path, Some(Float(None)))])]) == [Write(p + q, Null)]
    ensures AnswerWrites([Notification(prefix, [Update(path, Some(Opaque))])]) == [Write(p + q, Null)]
    ensures AnswerWrites([Notification(prefix, [Update(path, None)])]) == []
  {
    OneUpdateAnswer(prefix, p, path, q, Text(text), Str(text));
    OneUpdateAnswer(prefix, p, path, q, Integer(text), Number(text));
    OneUpdateAnswer(prefix, p, path, q, Flag(flag), Bool(flag));
    OneUpdateAnswer(prefix, p, path, q, Float(Some(text)), Number(text));
    OneUpdateAnswer(prefix, p, path, q, Float(None), Null);
    OneUpdateAnswer(prefix, p, path, q, Opaque, Null);
    var empty := Notification(prefix, [Update(path, None)]);
    assert Writes(prefix, empty.updates) == [] by { assert empty.updates[1..] == []; }
    assert AnswerWrites([empty]) == [] by { assert [empty][1..] == [] && AllValid(empty.updates); }
  }

  // ---------------------------------------------------------------- malformed values

  lemma {:induction false} UpToMalformed(prefix: seq<PathElem>, good: seq<Update>, bad: Update, rest: seq<Update>)
    requires AllValid(good) && bad.value.Some? && Malformed(bad.value.value)
    ensures !AllValid(good + [bad] + rest)
    ensures Writes(prefix, good + [bad] + rest) == Writes(prefix, good)
    decreases |good|
  {
    var updates := good + [bad] + rest;
    InvalidExactly(bad.value.value);
    assert updates[|good|] == bad;
    if good != [] {
      assert forall i | 0 <= i < |good| - 1 :: good[1..][i] == good[i + 1];
      assert updates[1..] == good[1..] + [bad] + rest;
      UpToMalformed(prefix, good[1..], bad, rest);
    }
  }

  /** An answer with a malformed value is written up to it: the notifications before, and of its own
      notification the updates before. */
  lemma {:induction false} StopsAtMalformed(
    before: seq<Notification>, prefix: seq<PathElem>, good: seq<Update>, bad: Update, rest: seq<Update>,
    after: seq<Notification>)
    requires forall i | 0 <= i < |before| :: AllValid(before[i].updates)
    requires AllValid(good) && bad.value.Some? && Malformed(bad.value.value)
    ensures AnswerWrites(before + [Notification(prefix, good + [bad] + rest)] + after) ==
            AnswerWrites(before + [Notification(prefix, good)])
    decreases |before|
  {
    var whole := before + [Notification(prefix, good + [bad] + rest)] + after;
    var cut := before + [Notification(prefix, good)];
    if before == [] {
      UpToMalformed(prefix, good, bad, rest);
      assert whole[0] == Notification(prefix, good + [bad] + rest);
      assert cut[1..] == [] && Writes(prefix, good) + [] == Writes(prefix, good);
    } else {
      assert whole[0] == before[0] && cut[0] == before[0];
      assert whole[1..] == before[1..] + [Notification(prefix, good + [bad] + rest)] + after;
      assert cut[1..] == before[1..] + [Notification(prefix, good)];
      assert forall i | 0 <= i < |before| - 1 :: before[1..][i] == before[i + 1];
      StopsAtMalformed(before[1..], prefix, good, bad, rest, after);
    }
  }

  // ---------------------------------------------------------------- answers that carry the same

  function Below(path: seq<Elem>, writes: seq<Write>): seq<Write> {
    seq(|writes|, i requires 0 <= i < |writes| => Write(path + writes[i].path, writes[i].value))
  }

  lemma {:induction false} FoldsBelow(node: Json, path: seq<Elem>, writes: seq<Write>)
    ensures Fold(node, [], Below(path, writes)) == Fold(node, path, writes)
    decreases |writes|
  {
    if writes != [] {
      var below := Below(path, writes);
      assert below[1..] == Below(path, writes[1..]);
      assert [] + below[0].path == path + writes[0].path;
      FoldsBelow(Insert(node, path + writes[0].path, writes[0].value), path, writes[1..]);
    }
  }

  /** The answer carries `value` at `path`, cut up in a way that folds like the whole. */
  ghost predicate Answers(notifications: seq<Notification>, path: seq<Elem>, value: Json) {
    exists parts: seq<Part>, writes: seq<Write> ::
      && AnswerCarries(notifications, parts) && WholeMeaning(parts) == Below(path, writes)
      && Splits(writes, value, map[]) && FoldsWhole(Null, path, writes, value)
  }

  lemma AnswerFolds(notifications: seq<Notification>, path: seq<Elem>, value: Json) returns (writes: seq<Write>)
    requires Answers(notifications, path, value)
    ensures Splits(writes, value, map[]) && FoldsWhole(Null, path, writes, value)
    ensures Fold(Null, [], AnswerWrites(notifications)) == Fold(Null, path, writes)
  {
    var parts: seq<Part>, cut: seq<Write> :|
      && AnswerCarries(notifications, parts) && WholeMeaning(parts) == Below(path, cut)
      && Splits(cut, value, map[]) && FoldsWhole(Null, path, cut, value);
    AnswerIsWritten(notifications, parts);
    FoldsBelow(Null, path, cut);
    writes := cut;
  }

  /** Two targets answer about one path, each cutting the same value up in its own way, with its own
      prefixes, types and wrappings: their answers give the same tree up to the order of list entries,
      when each cut is one that folds like the whole. */
  lemma AnswersAgree(notifications: seq<Notification>, others: seq<Notification>, path: seq<Elem>, value: Json)
    requires Answers(notifications, path, value) && Answers(others, path, value) && KeepsKeys(path, value)
    ensures SameUpToOrder(Fold(Null, [], AnswerWrites(notifications)), Fold(Null, [], AnswerWrites(others)))
  {
    var writes := AnswerFolds(notifications, path, value);
    var writes' := AnswerFolds(others, path, value);
    AnyTwoCuts(Null, path, writes, writes', value);
  }
}
