/** The file names of queued entries (agent/src/queue.rs): a number, the second of queueing and an
    id, the numbers padded to a fixed width.
 */
module EntryNames {
  import opened Options
  import opened Ordering

  const U64_MAX: nat := 0xFFFF_FFFF_FFFF_FFFF

  function Pow10(w: nat): (p: nat)
    ensures p >= 1
  {
    if w == 0 then 1 else 10 * Pow10(w - 1)
  }

  predicate IsDigit(c: char) {
    '0' <= c <= '9'
  }

  /** The last `w` decimal digits of `n`. */
  function Digits(n: nat, w: nat): (s: string)
    ensures |s| == w && forall i | 0 <= i < w :: IsDigit(s[i])
  {
    if w == 0 then "" else Digits(n / 10, w - 1) + ['0' + (n % 10) as char]
  }

  function Width(n: nat): (w: nat)
    ensures n < Pow10(w)
    ensures w > 1 ==> n >= Pow10(w - 1)
  {
    if n < 10 then 1 else 1 + Width(n / 10)
  }

  /** `n` in decimal, padded with zeros to at least `w` digits. */
  function Padded(n: nat, w: nat): string {
    Digits(n, if Width(n) > w then Width(n) else w)
  }

  /** The number a string of digits stands for. */
  function Value(s: string): Option<nat> {
    if s == "" then Some(0)
    else
      var n := |s| - 1;
      var before := Value(s[..n]);
      if before.Some? && IsDigit(s[n]) then Some(10 * before.value + (s[n] - '0') as nat) else None
  }

  /** A 64-bit number; a leading plus sign is allowed. */
  function ParseU64(s: string): Option<nat> {
    var digits := if s != "" && s[0] == '+' then s[1..] else s;
    if digits == "" || Value(digits).None? || Value(digits).value > U64_MAX then None else Value(digits)
  }

  const SUFFIX := ".json"

  function EntryName(sequence: nat, seconds: nat, id: string): string {
    Padded(sequence, 20) + "-" + Padded(seconds, 12) + "-" + id + SUFFIX
  }

  /** The text before the first dash and after it. */
  function SplitDash(s: string): Option<(string, string)> {
    if s == "" then None
    else if s[0] == '-' then Some(("", s[1..]))
    else
      var rest := SplitDash(s[1..]);
      if rest.None? then None else Some(([s[0]] + rest.value.0, rest.value.1))
  }

  function ParseParts(sequence: string, seconds: string, id: string, isUuid: string -> bool): Option<(nat, nat)> {
    if |sequence| != 20 || |seconds| != 12 || !isUuid(id) then None
    else if ParseU64(seconds).None? || ParseU64(sequence).None? then None
    else Some((ParseU64(sequence).value, ParseU64(seconds).value))
  }

  function ParseStem(stem: string, isUuid: string -> bool): Option<(nat, nat)> {
    var first := SplitDash(stem);
    if first.None? then None
    else
      var second := SplitDash(first.value.1);
      if second.None? then None else ParseParts(first.value.0, second.value.0, second.value.1, isUuid)
  }

  function ParseEntryName(name: string, isUuid: string -> bool): Option<(nat, nat)> {
    if |name| < |SUFFIX| || name[|name| - |SUFFIX|..] != SUFFIX then None
    else ParseStem(name[..|name| - |SUFFIX|], isUuid)
  }

  // ---------------------------------------------------------------- round trip

  lemma {:induction false} DigitsValue(n: nat, w: nat)
    requires n < Pow10(w)
    ensures Value(Digits(n, w)) == Some(n)
    decreases w
  {
    if w > 0 {
      DigitsValue(n / 10, w - 1);
      assert Digits(n, w)[..w - 1] == Digits(n / 10, w - 1);
    }
  }

  lemma {:induction false} PowersGrow(a: nat, b: nat)
    requires a <= b
    ensures Pow10(a) <= Pow10(b)
    decreases b
  {
    if a < b { PowersGrow(a, b - 1); }
  }

  /** A number keeps to its padding exactly when it has that few digits. */
  lemma PaddedWidth(n: nat, w: nat)
    requires w >= 1
    ensures |Padded(n, w)| == w <==> n < Pow10(w)
    ensures n < Pow10(w) ==> Padded(n, w) == Digits(n, w)
  {
    var d := Width(n);
    if d > w {
      PowersGrow(w, d - 1);
    } else {
      PowersGrow(d, w);
    }
  }

  lemma PaddedParses(n: nat, w: nat)
    requires w >= 1 && n <= U64_MAX
    ensures ParseU64(Padded(n, w)) == Some(n)
  {
    var d := if Width(n) > w then Width(n) else w;
    PowersGrow(Width(n), d);
    DigitsValue(n, d);
    assert IsDigit(Padded(n, w)[0]);
  }

  lemma {:induction false} SplitFirstDash(a: string, b: string)
    requires '-' !in a
    ensures SplitDash(a + "-" + b) == Some((a, b))
    decreases |a|
  {
    var s := a + "-" + b;
    if a == "" {
      assert s[0] == '-' && s[1..] == b;
    } else {
      assert s[0] == a[0] && s[1..] == a[1..] + "-" + b;
      SplitFirstDash(a[1..], b);
      assert [a[0]] + a[1..] == a;
    }
  }

  lemma TwentyDigits(n: nat)
    requires n <= U64_MAX
    ensures n < Pow10(20)
  {
    assert Pow10(10) == 10_000_000_000;
    assert Pow10(15) == 1_000_000_000_000_000;
    assert Pow10(20) == 100_000_000_000_000_000_000;
  }

  lemma NameStem(sequence: nat, seconds: nat, id: string, isUuid: string -> bool)
    ensures ParseEntryName(EntryName(sequence, seconds, id), isUuid) ==
            ParseStem(Padded(sequence, 20) + "-" + (Padded(seconds, 12) + "-" + id), isUuid)
  {
    var name, stem := EntryName(sequence, seconds, id), Padded(sequence, 20) + "-" + (Padded(seconds, 12) + "-" + id);
    assert name == stem + SUFFIX;
    assert |name| == |stem| + |SUFFIX| && name[|stem|..] == SUFFIX && name[..|stem|] == stem;
  }

  lemma StemParts(a: string, b: string, id: string, isUuid: string -> bool)
    requires '-' !in a && '-' !in b
    ensures ParseStem(a + "-" + (b + "-" + id), isUuid) == ParseParts(a, b, id, isUuid)
  {
    SplitFirstDash(a, b + "-" + id);
    SplitFirstDash(b, id);
  }

  lemma PartsRead(a: string, b: string, id: string, isUuid: string -> bool, sequence: nat, seconds: nat)
    requires |a| == 20 && ParseU64(a) == Some(sequence) && ParseU64(b) == Some(seconds) && isUuid(id)
    ensures ParseParts(a, b, id, isUuid) == if |b| == 12 then Some((sequence, seconds)) else None
  {
  }

  lemma NoDash(n: nat, w: nat)
    ensures '-' !in Padded(n, w)
  {
  }

  /** A name parses back to its number and second exactly when the second has twelve digits; the
      name of an entry queued later than that is taken for a foreign file. */
  lemma NameRoundTrip(sequence: nat, seconds: nat, id: string, isUuid: string -> bool)
    requires sequence <= U64_MAX && seconds <= U64_MAX && isUuid(id)
    ensures ParseEntryName(EntryName(sequence, seconds, id), isUuid) ==
            if seconds < Pow10(12) then Some((sequence, seconds)) else None
  {
    NameStem(sequence, seconds, id, isUuid);
    NoDash(sequence, 20);
    NoDash(seconds, 12);
    StemParts(Padded(sequence, 20), Padded(seconds, 12), id, isUuid);
    TwentyDigits(sequence);
    PaddedWidth(sequence, 20);
    PaddedWidth(seconds, 12);
    PaddedParses(sequence, 20);
    PaddedParses(seconds, 12);
    PartsRead(Padded(sequence, 20), Padded(seconds, 12), id, isUuid, sequence, seconds);
  }

  // ---------------------------------------------------------------- order

  /** Digit strings of one width compare like the numbers they stand for. */
  lemma {:induction false} DigitsOrder(m: nat, n: nat, w: nat)
    requires m < n < Pow10(w)
    ensures exists i :: 0 <= i < w && Digits(m, w)[..i] == Digits(n, w)[..i] && Digits(m, w)[i] < Digits(n, w)[i]
    decreases w
  {
    var a, b := Digits(m, w), Digits(n, w);
    var a', b' := Digits(m / 10, w - 1), Digits(n / 10, w - 1);
    if m / 10 == n / 10 {
      assert a[..w - 1] == a' && b[..w - 1] == b' && a[w - 1] < b[w - 1];
    } else {
      DigitsOrder(m / 10, n / 10, w - 1);
      var i :| 0 <= i < w - 1 && a'[..i] == b'[..i] && a'[i] < b'[i];
      assert a[..i] == a'[..i] && b[..i] == b'[..i] && a[i] == a'[i] && b[i] == b'[i];
    }
  }

  lemma {:induction false} FirstDifference(a: string, b: string, i: nat)
    requires i < |a| && i < |b| && a[..i] == b[..i] && a[i] < b[i]
    ensures StringLeq(a, b) && a != b
    decreases i
  {
    if i > 0 {
      assert a[0] == a[..i][0] == b[..i][0] == b[0];
      assert a[1..][..i - 1] == a[..i][1..] && b[1..][..i - 1] == b[..i][1..];
      FirstDifference(a[1..], b[1..], i - 1);
    }
  }

  lemma PrefixDecides(a: string, b: string, i: nat, x: string, y: string)
    requires i < |a| && i < |b| && a[..i] == b[..i] && a[i] < b[i]
    ensures StringLeq(a + x, b + y) && a + x != b + y
  {
    assert (a + x)[..i] == a[..i] && (b + y)[..i] == b[..i];
    FirstDifference(a + x, b + y, i);
  }

  /** A name after its number. */
  function NameRest(seconds: nat, id: string): string {
    "-" + Padded(seconds, 12) + "-" + id + SUFFIX
  }

  lemma NameStart(sequence: nat, seconds: nat, id: string)
    ensures EntryName(sequence, seconds, id) == Padded(sequence, 20) + NameRest(seconds, id)
  {
  }

  /** Names sort in queue order: a lower number sorts first, whatever the rest of the name. */
  lemma NamesSortByNumber(m: nat, n: nat, s: nat, t: nat, id: string, other: string)
    requires m < n <= U64_MAX
    ensures StringLeq(EntryName(m, s, id), EntryName(n, t, other)) && EntryName(m, s, id) != EntryName(n, t, other)
  {
    TwentyDigits(n);
    PaddedWidth(m, 20);
    PaddedWidth(n, 20);
    DigitsOrder(m, n, 20);
    var a, b := Digits(m, 20), Digits(n, 20);
    var i :| 0 <= i < 20 && a[..i] == b[..i] && a[i] < b[i];
    NameStart(m, s, id);
    NameStart(n, t, other);
    PrefixDecides(a, b, i, NameRest(s, id), NameRest(t, other));
  }

  // ---------------------------------------------------------------- the form of a name

  lemma Parts(a: string, b: string, id: string)
    requires |a| == 20 && |b| == 12
    ensures var name := a + "-" + b + "-" + id + ".json";
            && |name| == 20 + 1 + 12 + 1 + |id| + 5
            && name[..20] == a && name[20] == '-' && name[21..33] == b && name[33] == '-'
            && name[34..|name| - 5] == id && name[|name| - 5..] == ".json"
  {
  }

  /** A name is twenty digits of the number, twelve of the second and the id, between dashes, then `.json`. */
  lemma NameForm(sequence: nat, seconds: nat, id: string)
    requires sequence <= U64_MAX && seconds < 1_000_000_000_000
    ensures var name := EntryName(sequence, seconds, id);
            && |name| == 20 + 1 + 12 + 1 + |id| + 5
            && Value(name[..20]) == Some(sequence) && name[20] == '-'
            && Value(name[21..33]) == Some(seconds) && name[33] == '-'
            && name[34..|name| - 5] == id && name[|name| - 5..] == ".json"
  {
    TwentyDigits(sequence);
    assert Pow10(6) == 1_000_000 && Pow10(12) == 1_000_000_000_000;
    PaddedWidth(sequence, 20);
    PaddedWidth(seconds, 12);
    DigitsValue(sequence, 20);
    DigitsValue(seconds, 12);
    Parts(Padded(sequence, 20), Padded(seconds, 12), id);
  }

  lemma {:induction false} SplitDashIs(s: string)
    ensures SplitDash(s).None? <==> '-' !in s
    ensures SplitDash(s).Some? ==>
              s == SplitDash(s).value.0 + "-" + SplitDash(s).value.1 && '-' !in SplitDash(s).value.0
    decreases |s|
  {
    if s != "" && s[0] != '-' {
      SplitDashIs(s[1..]);
      assert s == [s[0]] + s[1..];
    }
  }

  /** No other file is taken for an entry: what parses has the form of a name, and an id that is one. */
  lemma OnlyEntryNamesParse(name: string, isUuid: string -> bool)
    requires ParseEntryName(name, isUuid).Some?
    ensures |name| >= 39 && name[20] == '-' && name[33] == '-' && name[|name| - 5..] == ".json"
    ensures isUuid(name[34..|name| - 5])
    ensures var (sequence, seconds) := ParseEntryName(name, isUuid).value;
            ParseU64(name[..20]) == Some(sequence) && ParseU64(name[21..33]) == Some(seconds)
  {
    var stem := name[..|name| - |SUFFIX|];
    SplitDashIs(stem);
    var first := SplitDash(stem).value;
    SplitDashIs(first.1);
    var second := SplitDash(first.1).value;
    assert name == stem + ".json" && stem == first.0 + "-" + (second.0 + "-" + second.1);
    assert name[..20] == first.0 && name[21..33] == second.0 && name[34..|name| - 5] == second.1;
  }
}
