/** Reading Prometheus metrics in their text format within limits (agent/src/exporters/text.rs).
    Reading a number is a parameter, as is the choice of metric names to keep; which of the
    messages a failure carries is not modelled.
 */
module Text {
  import opened Options

  datatype Limits = Limits(maxSeries: nat, maxLabels: nat, maxSamples: nat)

  datatype Sample<V> = Sample(name: string, labels: map<string, string>, value: V)

  // ---------------------------------------------------------------- characters

  /** The Unicode White_Space property. */
  predicate IsWhite(c: char) {
    || '\U{0009}' <= c <= '\U{000D}' || c == ' ' || c == '\U{0085}' || c == '\U{00A0}' || c == '\U{1680}'
    || '\U{2000}' <= c <= '\U{200A}' || c == '\U{2028}' || c == '\U{2029}' || c == '\U{202F}'
    || c == '\U{205F}' || c == '\U{3000}'
  }

  predicate IsAsciiWhite(c: char) {
    c == ' ' || c == '\t' || c == '\n' || c == '\U{000C}' || c == '\r'
  }

  predicate IsAlpha(c: char) {
    'a' <= c <= 'z' || 'A' <= c <= 'Z'
  }

  predicate NameChar(c: char) {
    IsAlpha(c) || '0' <= c <= '9' || c == '_' || c == ':'
  }

  predicate ValidName(name: string) {
    && name != ""
    && (IsAlpha(name[0]) || name[0] == '_' || name[0] == ':')
    && forall i | 0 <= i < |name| :: NameChar(name[i])
  }

  function TrimStart(s: string): string {
    if s != "" && IsWhite(s[0]) then TrimStart(s[1..]) else s
  }

  function TrimEnd(s: string): string {
    if s != "" && IsWhite(s[|s| - 1]) then TrimEnd(s[..|s| - 1]) else s
  }

  function Trim(s: string): string {
    TrimEnd(TrimStart(s))
  }

  /** The position of the first character `p` accepts, or the length. */
  function Find(s: string, p: char -> bool): (i: nat)
    ensures i <= |s|
    ensures i < |s| ==> p(s[i])
    ensures forall j | 0 <= j < i :: !p(s[j])
  {
    if s == "" || p(s[0]) then 0 else 1 + Find(s[1..], p)
  }

  // ---------------------------------------------------------------- lines

  /** The lines of a text. A carriage return before the line feed goes with the trimming. */
  function Lines(text: string): seq<string>
    decreases |text|
  {
    if text == "" then []
    else
      var n := Find(text, c => c == '\n');
      [text[..n]] + if n == |text| then [] else Lines(text[n + 1..])
  }

  predicate NameEnds(c: char) {
    c == '{' || IsAsciiWhite(c)
  }

  // ---------------------------------------------------------------- labels

  /** A quoted label value and what follows its closing quote. */
  function Quoted(s: string): Option<(string, string)> {
    if s == "" then None
    else if s[0] == '"' then Some(("", s[1..]))
    else if s[0] == '\\' then
      if |s| < 2 then None
      else
        var c := if s[1] == 'n' then Some('\n') else if s[1] == '\\' || s[1] == '"' then Some(s[1]) else None;
        var rest := Quoted(s[2..]);
        if c.None? || rest.None? then None else Some(([c.value] + rest.value.0, rest.value.1))
    else
      var rest := Quoted(s[1..]);
      if rest.None? then None else Some(([s[0]] + rest.value.0, rest.value.1))
  }

  /** One `name="value"` with the comma after it, if any: the name, the value and the rest. */
  function Label(s: string): Option<(string, string, string)> {
    var equals := Find(s, c => c == '=');
    if equals == |s| then None
    else
      var name := Trim(s[..equals]);
      if !ValidName(name) || ':' in name then None
      else
        var after := TrimStart(s[equals + 1..]);
        if after == "" || after[0] != '"' then None
        else
          var quoted := Quoted(after[1..]);
          if quoted.None? then None
          else
            var rest := TrimStart(quoted.value.1);
            Some((name, quoted.value.0, if rest != "" && rest[0] == ',' then rest[1..] else rest))
  }

  lemma {:induction false} TrimStartShortens(s: string)
    ensures |TrimStart(s)| <= |s|
    decreases |s|
  {
    if s != "" { TrimStartShortens(s[1..]); }
  }

  lemma {:induction false} QuotedShortens(s: string)
    ensures Quoted(s).Some? ==> |Quoted(s).value.1| < |s|
    decreases |s|
  {
    if s != "" && s[0] != '"' {
      if s[0] == '\\' {
        if |s| >= 2 { QuotedShortens(s[2..]); }
      } else {
        QuotedShortens(s[1..]);
      }
    }
  }

  lemma LabelShortens(s: string)
    ensures Label(s).Some? ==> |Label(s).value.2| < |s|
  {
    if Label(s).Some? {
      var equals := Find(s, c => c == '=');
      var after := TrimStart(s[equals + 1..]);
      TrimStartShortens(s[equals + 1..]);
      QuotedShortens(after[1..]);
      TrimStartShortens(Quoted(after[1..]).value.1);
    }
  }

  /** `name="value",...}`: the labels added to those read before, and what follows the brace. */
  function Labels(s: string, maxLabels: nat, labels: map<string, string>): Option<(map<string, string>, string)>
    decreases |s|
  {
    TrimStartShortens(s);
    var rest := TrimStart(s);
    if rest != "" && rest[0] == '}' then Some((labels, rest[1..]))
    else
      LabelShortens(rest);
      var first := Label(rest);
      if first.None? || |labels| == maxLabels then None
      else Labels(first.value.2, maxLabels, labels[first.value.0 := first.value.1])
  }

  // ---------------------------------------------------------------- samples

  /** The first token between ASCII white space. */
  function Token(s: string): string
    decreases |s|
  {
    if s == "" then ""
    else if IsAsciiWhite(s[0]) then Token(s[1..])
    else s[..Find(s, IsAsciiWhite)]
  }

  /** The labels and value after a metric's name. */
  function Body<V>(rest: string, maxLabels: nat, number: string -> Option<V>): Option<(map<string, string>, V)> {
    var labelled := if rest != "" && rest[0] == '{' then Labels(rest[1..], maxLabels, map[]) else Some((map[], rest));
    if labelled.None? then None
    else
      var token := Token(labelled.value.1);
      if token == "" || number(token).None? then None
      else Some((labelled.value.0, number(token).value))
  }

  predicate Blank(line: string) {
    line == "" || line[0] == '#'
  }

  /** The state of a parse: lines counted and samples kept. */
  datatype Progress<V> = Progress(series: nat, samples: seq<Sample<V>>)

  /** Adds what `body` makes of the text after the name of a wanted series. */
  function KeepSample<V>(name: string, body: Option<(map<string, string>, V)>, limits: Limits, p: Progress<V>)
    : Option<Progress<V>>
  {
    if body.None? || |p.samples| == limits.maxSamples then None
    else Some(Progress(p.series + 1, p.samples + [Sample(name, body.value.0, body.value.1)]))
  }

  type Reader<V> = string -> Option<(map<string, string>, V)>

  function BodyReader<V>(limits: Limits, number: string -> Option<V>): Reader<V> {
    rest => Body(rest, limits.maxLabels, number)
  }

  /** One trimmed line; nothing when it fails the scrape. */
  function ParseLine<V>(line: string, limits: Limits, wanted: string -> bool, body: Reader<V>, p: Progress<V>)
    : Option<Progress<V>>
  {
    if Blank(line) then Some(p)
    else if p.series + 1 > limits.maxSeries then None
    else
      var end := Find(line, NameEnds);
      var name := line[..end];
      if end == |line| || !ValidName(name) then None
      else if !wanted(name) then Some(p.(series := p.series + 1))
      else KeepSample(name, body(line[end..]), limits, p)
  }

  function ParseLines<V>(lines: seq<string>, limits: Limits, wanted: string -> bool, body: Reader<V>, p: Progress<V>)
    : Option<Progress<V>>
    decreases |lines|
  {
    if lines == [] then Some(p)
    else
      var next := ParseLine(Trim(lines[0]), limits, wanted, body, p);
      if next.None? then None else ParseLines(lines[1..], limits, wanted, body, next.value)
  }

  function ParseText<V>(text: string, limits: Limits, wanted: string -> bool, number: string -> Option<V>)
    : Option<seq<Sample<V>>>
  {
    var end := ParseLines(Lines(text), limits, wanted, BodyReader(limits, number), Progress(0, []));
    if end.None? then None else Some(end.value.samples)
  }

  // ---------------------------------------------------------------- the loops

  function Prefixed(value: string, rest: Option<(string, string)>): Option<(string, string)> {
    if rest.None? then None else Some((value + rest.value.0, rest.value.1))
  }

  lemma PrefixedMore(value: string, c: char, rest: Option<(string, string)>)
    ensures Prefixed(value, Prefixed([c], rest)) == Prefixed(value + [c], rest)
    ensures Prefixed("", rest) == rest
  {
    if rest.Some? {
      assert value + ([c] + rest.value.0) == value + [c] + rest.value.0;
      assert "" + rest.value.0 == rest.value.0;
    }
  }

  method ReadQuoted(s: string) returns (r: Option<(string, string)>)
    ensures r == Quoted(s)
  {
    var value, i := "", 0;
    assert s[0..] == s;
    PrefixedMore("", ' ', Quoted(s));
    while i < |s| && s[i] != '"'
      invariant 0 <= i <= |s|
      invariant Quoted(s) == Prefixed(value, Quoted(s[i..]))
      decreases |s| - i
    {
      assert s[i..][1..] == s[i + 1..];
      if s[i] == '\\' {
        if i + 1 == |s| || (s[i + 1] != 'n' && s[i + 1] != '\\' && s[i + 1] != '"') {
          return None;
        }
        var c := if s[i + 1] == 'n' then '\n' else s[i + 1];
        assert s[i..][2..] == s[i + 2..];
        PrefixedMore(value, c, Quoted(s[i + 2..]));
        value := value + [c];
        i := i + 2;
      } else {
        PrefixedMore(value, s[i], Quoted(s[i + 1..]));
        value := value + [s[i]];
        i := i + 1;
      }
    }
    if i == |s| {
      return None;
    }
    assert s[i..][1..] == s[i + 1..];
    assert value + "" == value;
    r := Some((value, s[i + 1..]));
  }

  method ReadLabels(s: string, maxLabels: nat) returns (r: Option<(map<string, string>, string)>)
    ensures r == Labels(s, maxLabels, map[])
  {
    var labels: map<string, string>, rest := map[], s;
    while true
      invariant Labels(s, maxLabels, map[]) == Labels(rest, maxLabels, labels)
      decreases |rest|
    {
      TrimStartShortens(rest);
      rest := TrimStart(rest);
      TrimStartTwice(rest);
      if rest != "" && rest[0] == '}' {
        return Some((labels, rest[1..]));
      }
      LabelShortens(rest);
      var equals := Find(rest, c => c == '=');
      if equals == |rest| {
        return None;
      }
      var name := Trim(rest[..equals]);
      if !ValidName(name) || ':' in name {
        return None;
      }
      var after := TrimStart(rest[equals + 1..]);
      if after == "" || after[0] != '"' {
        return None;
      }
      var quoted := ReadQuoted(after[1..]);
      if quoted.None? || |labels| == maxLabels {
        return None;
      }
      labels := labels[name := quoted.value.0];
      rest := TrimStart(quoted.value.1);
      if rest != "" && rest[0] == ',' {
        rest := rest[1..];
      }
    }
  }

  lemma {:induction false} TrimStartTwice(s: string)
    ensures s == "" || !IsWhite(s[0]) ==> TrimStart(s) == s
    ensures TrimStart(TrimStart(s)) == TrimStart(s)
    decreases |s|
  {
    if s != "" && IsWhite(s[0]) { TrimStartTwice(s[1..]); }
  }

  /** Reads what follows a metric's name. */
  method ReadBody<V>(rest: string, maxLabels: nat, number: string -> Option<V>)
    returns (r: Option<(map<string, string>, V)>)
    ensures r == Body(rest, maxLabels, number)
  {
    var labels, after := map[], rest;
    if rest != "" && rest[0] == '{' {
      var read := ReadLabels(rest[1..], maxLabels);
      if read.None? {
        return None;
      }
      labels, after := read.value.0, read.value.1;
    }
    var token := Token(after);
    if token == "" || number(token).None? {
      return None;
    }
    r := Some((labels, number(token).value));
  }

  /** What one line adds to the series counted and the samples kept. */
  method ReadLine<V>(
    line: string, limits: Limits, wanted: string -> bool, number: string -> Option<V>, series: nat,
    samples: seq<Sample<V>>)
    returns (r: Option<Progress<V>>)
    ensures r == ParseLine(line, limits, wanted, BodyReader(limits, number), Progress(series, samples))
  {
    if Blank(line) {
      return Some(Progress(series, samples));
    }
    if series + 1 > limits.maxSeries {
      return None;
    }
    var end := Find(line, NameEnds);
    var name := line[..end];
    if end == |line| || !ValidName(name) {
      return None;
    }
    if !wanted(name) {
      return Some(Progress(series + 1, samples));
    }
    var body := ReadBody(line[end..], limits.maxLabels, number);
    r := KeepSample(name, body, limits, Progress(series, samples));
  }

  lemma ParseNext<V>(
    lines: seq<string>, i: nat, limits: Limits, wanted: string -> bool, body: Reader<V>, p: Progress<V>)
    requires i < |lines|
    ensures var next := ParseLine(Trim(lines[i]), limits, wanted, body, p);
            ParseLines(lines[i..], limits, wanted, body, p) ==
            if next.None? then None else ParseLines(lines[i + 1..], limits, wanted, body, next.value)
  {
    assert lines[i..][1..] == lines[i + 1..];
  }

  method Parse<V>(text: string, limits: Limits, wanted: string -> bool, number: string -> Option<V>)
    returns (r: Option<seq<Sample<V>>>)
    ensures r == ParseText(text, limits, wanted, number)
  {
    var lines := Lines(text);
    ghost var body := BodyReader(limits, number);
    var series: nat, samples, i := 0, [], 0;
    assert lines[0..] == lines;
    while i < |lines|
      invariant 0 <= i <= |lines|
      invariant ParseLines(lines, limits, wanted, body, Progress(0, [])) ==
                ParseLines(lines[i..], limits, wanted, body, Progress(series, samples))
    {
      ParseNext(lines, i, limits, wanted, body, Progress(series, samples));
      var next := ReadLine(Trim(lines[i]), limits, wanted, number, series, samples);
      if next.None? {
        return None;
      }
      series, samples := next.value.series, next.value.samples;
      i := i + 1;
    }
    r := Some(samples);
  }

  // ---------------------------------------------------------------- keeping some names

  function Kept<V>(samples: seq<Sample<V>>, wanted: string -> bool): seq<Sample<V>> {
    if samples == [] then []
    else
      var n := |samples| - 1;
      Kept(samples[..n], wanted) + if wanted(samples[n].name) then [samples[n]] else []
  }

  lemma {:induction false} KeptShorter<V>(samples: seq<Sample<V>>, wanted: string -> bool)
    ensures |Kept(samples, wanted)| <= |samples|
    decreases |samples|
  {
    if samples != [] { KeptShorter(samples[..|samples| - 1], wanted); }
  }

  function KeptProgress<V>(p: Progress<V>, wanted: string -> bool): Progress<V> {
    Progress(p.series, Kept(p.samples, wanted))
  }

  lemma FilterLine<V>(
    line: string, limits: Limits, all: string -> bool, wanted: string -> bool, body: Reader<V>, p: Progress<V>)
    requires (forall name :: all(name)) && |p.samples| <= limits.maxSamples
    requires ParseLine(line, limits, all, body, p).Some?
    ensures ParseLine(line, limits, wanted, body, KeptProgress(p, wanted)) ==
            Some(KeptProgress(ParseLine(line, limits, all, body, p).value, wanted))
  {
    if !Blank(line) {
      var next := ParseLine(line, limits, all, body, p).value;
      var name := line[..Find(line, NameEnds)];
      assert all(name);
      assert next.samples[..|p.samples|] == p.samples;
      KeptShorter(p.samples, wanted);
      if !wanted(name) {
        assert Kept(next.samples, wanted) == Kept(p.samples, wanted) + [] == Kept(p.samples, wanted);
      }
    }
  }

  lemma {:induction false} FilterLines<V>(
    lines: seq<string>, limits: Limits, all: string -> bool, wanted: string -> bool, body: Reader<V>, p: Progress<V>)
    requires (forall name :: all(name)) && |p.samples| <= limits.maxSamples
    requires ParseLines(lines, limits, all, body, p).Some?
    ensures ParseLines(lines, limits, wanted, body, KeptProgress(p, wanted)) ==
            Some(KeptProgress(ParseLines(lines, limits, all, body, p).value, wanted))
    decreases |lines|
  {
    if lines != [] {
      FilterLine(Trim(lines[0]), limits, all, wanted, body, p);
      FilterLines(lines[1..], limits, all, wanted, body, ParseLine(Trim(lines[0]), limits, all, body, p).value);
    }
  }

  /** Whenever every series parses, parsing with a choice of names gives exactly the chosen ones. */
  lemma FilterCommutes<V>(
    text: string, limits: Limits, all: string -> bool, wanted: string -> bool, number: string -> Option<V>)
    requires (forall name :: all(name)) && ParseText(text, limits, all, number).Some?
    ensures ParseText(text, limits, wanted, number) == Some(Kept(ParseText(text, limits, all, number).value, wanted))
  {
    FilterLines(Lines(text), limits, all, wanted, BodyReader(limits, number), Progress(0, []));
  }

  // ---------------------------------------------------------------- what fails a scrape

  /** A line that is no sample line: no value, a bad name, or, under a chosen name, a bad body. */
  predicate Broken<V>(line: string, wanted: string -> bool, body: Reader<V>) {
    var end := Find(line, NameEnds);
    end == |line| || !ValidName(line[..end]) || (wanted(line[..end]) && body(line[end..]).None?)
  }

  predicate BrokenLine<V>(line: string, wanted: string -> bool, body: Reader<V>) {
    !Blank(Trim(line)) && Broken(Trim(line), wanted, body)
  }

  predicate NameChosen(line: string, wanted: string -> bool) {
    wanted(line[..Find(line, NameEnds)])
  }

  function SeriesIn(lines: seq<string>): nat {
    if lines == [] then 0 else (if Blank(Trim(lines[0])) then 0 else 1) + SeriesIn(lines[1..])
  }

  function ChosenIn(lines: seq<string>, wanted: string -> bool): nat {
    if lines == [] then 0
    else (if !Blank(Trim(lines[0])) && NameChosen(Trim(lines[0]), wanted) then 1 else 0) + ChosenIn(lines[1..], wanted)
  }

  predicate AnyBroken<V>(lines: seq<string>, wanted: string -> bool, body: Reader<V>) {
    exists i :: 0 <= i < |lines| && BrokenLine(lines[i], wanted, body)
  }

  lemma BrokenFirst<V>(lines: seq<string>, wanted: string -> bool, body: Reader<V>)
    requires lines != []
    ensures AnyBroken(lines, wanted, body) <==>
            BrokenLine(lines[0], wanted, body) || AnyBroken(lines[1..], wanted, body)
  {
    if i :| 0 <= i < |lines| && BrokenLine(lines[i], wanted, body) {
      if i > 0 { assert BrokenLine(lines[1..][i - 1], wanted, body); }
    }
    if i :| 0 <= i < |lines| - 1 && BrokenLine(lines[1..][i], wanted, body) {
      assert BrokenLine(lines[i + 1], wanted, body);
    }
  }

  lemma LineFails<V>(line: string, limits: Limits, wanted: string -> bool, body: Reader<V>, p: Progress<V>)
    requires p.series <= limits.maxSeries && |p.samples| <= limits.maxSamples
    ensures var next, trimmed := ParseLine(Trim(line), limits, wanted, body, p), Trim(line);
            if Blank(trimmed) then next == Some(p)
            else
              var chosen := if NameChosen(trimmed, wanted) then 1 else 0;
              && (next.None? <==>
                  || BrokenLine(line, wanted, body)
                  || p.series + 1 > limits.maxSeries || |p.samples| + chosen > limits.maxSamples)
              && (next.Some? ==> next.value.series == p.series + 1 && |next.value.samples| == |p.samples| + chosen)
  {
  }

  lemma {:induction false} LinesFail<V>(
    lines: seq<string>, limits: Limits, wanted: string -> bool, body: Reader<V>, p: Progress<V>)
    requires p.series <= limits.maxSeries && |p.samples| <= limits.maxSamples
    ensures ParseLines(lines, limits, wanted, body, p).None? <==>
            || AnyBroken(lines, wanted, body)
            || p.series + SeriesIn(lines) > limits.maxSeries
            || |p.samples| + ChosenIn(lines, wanted) > limits.maxSamples
    decreases |lines|
  {
    if lines != [] {
      LineFails(lines[0], limits, wanted, body, p);
      BrokenFirst(lines, wanted, body);
      var next := ParseLine(Trim(lines[0]), limits, wanted, body, p);
      if next.Some? { LinesFail(lines[1..], limits, wanted, body, next.value); }
    }
  }

  /** A text fails exactly when one of its lines is broken, or there are too many series or too many of
      the chosen ones. */
  lemma FailsExactly<V>(text: string, limits: Limits, wanted: string -> bool, number: string -> Option<V>)
    ensures ParseText(text, limits, wanted, number).None? <==>
            || AnyBroken(Lines(text), wanted, BodyReader(limits, number))
            || SeriesIn(Lines(text)) > limits.maxSeries
            || ChosenIn(Lines(text), wanted) > limits.maxSamples
  {
    LinesFail(Lines(text), limits, wanted, BodyReader(limits, number), Progress(0, []));
  }

  /** Whatever the limits and the choice, a line fails the text when it holds nothing after its name, when
      its name starts with a digit, or when it holds anything but letters, digits, `_` and `:`. */
  lemma BadLineFails<V>(
    text: string, k: nat, i: nat, limits: Limits, wanted: string -> bool, number: string -> Option<V>)
    requires k < |Lines(text)|
    requires var line := Trim(Lines(text)[k]);
             && line != "" && line[0] != '#' && i <= |line|
             && (forall j | 0 <= j < i :: line[j] !in {'{', ' ', '\t', '\n', '\U{000C}', '\r'})
             && (|| i == |line|
                 || '0' <= line[0] <= '9'
                 || (line[i] !in {'{', ' ', '\t', '\n', '\U{000C}', '\r', '_', ':'}
                     && !('a' <= line[i] <= 'z') && !('A' <= line[i] <= 'Z') && !('0' <= line[i] <= '9')))
    ensures ParseText(text, limits, wanted, number).None?
  {
    var line := Trim(Lines(text)[k]);
    var end := Find(line, NameEnds);
    if end < |line| && i < end { assert line[..end][i] == line[i]; }
    if 0 < end { assert line[..end][0] == line[0]; }
    assert BrokenLine(Lines(text)[k], wanted, BodyReader(limits, number));
    FailsExactly(text, limits, wanted, number);
  }

  // ---------------------------------------------------------------- the standard printing

  /** A sample as a program prints it: its labels in some order, its value as text after some white
      space, and a timestamp if it has one. */
  datatype Printed = Printed(
    name: string, labels: seq<(string, string)>, gap: char, value: string, timestamp: Option<string>)

  /** A printed line: a sample, a comment or nothing but white space. */
  datatype Line = Shown(sample: Printed) | Comment(text: string) | Empty(space: string)

  function Escape(value: string): string {
    if value == "" then ""
    else
      (if value[0] == '\n' then "\\n" else if value[0] == '\\' || value[0] == '"' then ['\\', value[0]] else [value[0]])
      + Escape(value[1..])
  }

  function PrintLabel(l: (string, string)): string {
    l.0 + "=" + "\"" + Escape(l.1) + "\""
  }

  /** Labels separated by commas, up to the closing brace. */
  function PrintLabels(labels: seq<(string, string)>): string {
    if labels == [] then "}"
    else if |labels| == 1 then PrintLabel(labels[0]) + "}"
    else PrintLabel(labels[0]) + "," + PrintLabels(labels[1..])
  }

  /** What follows the labels of a sample. */
  function PrintEnd(s: Printed): string {
    [s.gap] + s.value + (if s.timestamp.None? then "" else [s.gap] + s.timestamp.value)
  }

  /** What follows a sample's name. */
  function PrintBody(s: Printed): string {
    if s.labels == [] then PrintEnd(s) else "{" + PrintLabels(s.labels) + PrintEnd(s)
  }

  function PrintLine(l: Line): string {
    match l
    case Shown(s) => s.name + PrintBody(s)
    case Comment(text) => "#" + text
    case Empty(space) => space
  }

  function Print(lines: seq<Line>): string {
    if lines == [] then "" else PrintLine(lines[0]) + "\n" + Print(lines[1..])
  }

  /** Labels added one after the other to those before; the last of a name wins. */
  function LabelMap(labels: seq<(string, string)>, before: map<string, string>): map<string, string> {
    if labels == [] then before else LabelMap(labels[1..], before[labels[0].0 := labels[0].1])
  }

  predicate LabelName(name: string) {
    ValidName(name) && ':' !in name
  }

  predicate NoWhite(s: string) {
    forall i | 0 <= i < |s| :: !IsWhite(s[i])
  }

  predicate Word(s: string) {
    s != "" && NoWhite(s)
  }

  /** What can be printed: valid names within the limits, any label values, a value that is one word
      read as a number, and any word for a timestamp. */
  ghost predicate Printable<V>(s: Printed, limits: Limits, number: string -> Option<V>) {
    && ValidName(s.name)
    && (forall i | 0 <= i < |s.labels| :: LabelName(s.labels[i].0))
    && |s.labels| <= limits.maxLabels
    && Word(s.value) && number(s.value).Some?
    && (s.timestamp.Some? ==> Word(s.timestamp.value))
    && s.gap in {' ', '\t', '\U{000C}', '\r'}
  }

  ghost predicate PrintableLine<V>(l: Line, limits: Limits, number: string -> Option<V>) {
    match l
    case Shown(s) => Printable(s, limits, number)
    case Comment(text) => OneLine(text)
    case Empty(space) => OneLine(space) && forall i | 0 <= i < |space| :: IsWhite(space[i])
  }

  function Meaning<V>(s: Printed, number: string -> Option<V>): Sample<V>
    requires number(s.value).Some?
  {
    Sample(s.name, LabelMap(s.labels, map[]), number(s.value).value)
  }

  lemma {:induction false} QuotedEscape(value: string, tail: string)
    ensures Quoted(Escape(value) + "\"" + tail) == Some((value, tail))
    decreases |value|
  {
    var s := Escape(value) + "\"" + tail;
    if value == "" {
      assert s[0] == '"' && s[1..] == tail;
    } else {
      QuotedEscape(value[1..], tail);
      var rest := Escape(value[1..]) + "\"" + tail;
      assert value == [value[0]] + value[1..];
      if value[0] == '\n' || value[0] == '\\' || value[0] == '"' {
        assert s[0] == '\\' && s[2..] == rest;
      } else {
        assert s[0] == value[0] && s[1..] == rest;
      }
    }
  }

  lemma FindAfter(a: string, c: char, b: string, p: char -> bool)
    requires (forall i | 0 <= i < |a| :: !p(a[i])) && p(c)
    ensures Find(a + [c] + b, p) == |a|
  {
    var s := a + [c] + b;
    assert s[|a|] == c;
    assert forall i | 0 <= i < |a| :: s[i] == a[i];
  }

  lemma NameTrims(name: string)
    requires ValidName(name)
    ensures Trim(name) == name && TrimStart(name) == name
  {
    assert NameChar(name[0]) && NameChar(name[|name| - 1]);
  }

  lemma LabelIs(name: string, quoted: string, value: string, tail: string)
    requires LabelName(name) && Quoted(quoted) == Some((value, tail)) && tail != "" && !IsWhite(tail[0])
    ensures Label(name + ['='] + (['"'] + quoted)) == Some((name, value, if tail[0] == ',' then tail[1..] else tail))
  {
    var after := ['"'] + quoted;
    var s := name + ['='] + after;
    FindAfter(name, '=', after, c => c == '=');
    assert s[..|name|] == name && s[|name| + 1..] == after && after[1..] == quoted;
    NameTrims(name);
    TrimStartTwice(after);
    TrimStartTwice(tail);
  }

  /** One printed label reads back as itself, with the comma after it consumed. */
  lemma LabelReadsBack(l: (string, string), tail: string)
    requires LabelName(l.0) && tail != "" && !IsWhite(tail[0])
    ensures Label(PrintLabel(l) + tail) == Some((l.0, l.1, if tail[0] == ',' then tail[1..] else tail))
  {
    var quoted := Escape(l.1) + "\"" + tail;
    assert PrintLabel(l) + tail == l.0 + ['='] + (['"'] + quoted);
    QuotedEscape(l.1, tail);
    LabelIs(l.0, quoted, l.1, tail);
  }

  /** A name that no label carries keeps its value; the last label of a name gives it its own. */
  lemma {:induction false} LastLabelWins(
    labels: seq<(string, string)>, before: map<string, string>, name: string, last: nat)
    requires last <= |labels| && forall i | last <= i < |labels| :: labels[i].0 != name
    requires last > 0 ==> labels[last - 1].0 == name
    ensures last > 0 ==> name in LabelMap(labels, before) && LabelMap(labels, before)[name] == labels[last - 1].1
    ensures last == 0 ==> (name in LabelMap(labels, before) <==> name in before)
    ensures last == 0 && name in before ==> LabelMap(labels, before)[name] == before[name]
    decreases |labels|
  {
    if labels != [] {
      LastLabelWins(labels[1..], before[labels[0].0 := labels[0].1], name, if last == 0 then 0 else last - 1);
    }
  }

  lemma LabelsNext(l: (string, string), next: string, maxLabels: nat, before: map<string, string>)
    requires LabelName(l.0) && next != "" && !IsWhite(next[0]) && |before| < maxLabels
    ensures Labels(PrintLabel(l) + next, maxLabels, before) ==
            Labels(if next[0] == ',' then next[1..] else next, maxLabels, before[l.0 := l.1])
  {
    var s := PrintLabel(l) + next;
    assert s[0] == l.0[0] && NameChar(l.0[0]);
    assert TrimStart(s) == s;
    LabelReadsBack(l, next);
  }

  /** Printed labels read back as a map, whatever their values contain. */
  lemma {:induction false} LabelsReadBack(
    labels: seq<(string, string)>, tail: string, maxLabels: nat, before: map<string, string>)
    requires forall i | 0 <= i < |labels| :: LabelName(labels[i].0)
    requires |before| + |labels| <= maxLabels
    ensures Labels(PrintLabels(labels) + tail, maxLabels, before) == Some((LabelMap(labels, before), tail))
    decreases |labels|
  {
    var s := PrintLabels(labels) + tail;
    if labels == [] {
      assert s[0] == '}' && s[1..] == tail;
      assert TrimStart(s) == s;
    } else {
      var l, rest := labels[0], labels[1..];
      var after := PrintLabels(rest) + tail;
      var next := if rest == [] then after else "," + after;
      assert s == PrintLabel(l) + next;
      LabelsNext(l, next, maxLabels, before);
      assert (if next[0] == ',' then next[1..] else next) == after;
      LabelsReadBack(rest, tail, maxLabels, before[l.0 := l.1]);
    }
  }

  // ---------------------------------------------------------------- labels that fail

  lemma EscapedFirst(c: char, first: string, rest: string)
    requires first == if c == '\n' then "\\n" else if c == '\\' || c == '"' then ['\\', c] else [c]
    ensures Quoted(first + rest).None? <==> Quoted(rest).None?
  {
    if |first| == 2 {
      assert (first + rest)[2..] == rest;
    } else {
      assert (first + rest)[1..] == rest;
    }
  }

  lemma {:induction false} QuotedAfter(value: string, rest: string)
    ensures Quoted(Escape(value) + rest).None? <==> Quoted(rest).None?
    decreases |value|
  {
    if value == "" {
      assert Escape(value) + rest == rest;
    } else {
      var c, more := value[0], Escape(value[1..]) + rest;
      var first := if c == '\n' then "\\n" else if c == '\\' || c == '"' then ['\\', c] else [c];
      QuotedAfter(value[1..], rest);
      assert Escape(value) + rest == first + more;
      EscapedFirst(c, first, more);
    }
  }

  /** A value that is not closed, or that holds a backslash before anything but `n`, a backslash and a
      quote, fails. */
  lemma QuotedFails(value: string, c: char, tail: string)
    ensures Quoted(Escape(value)).None? && Quoted(Escape(value) + "\\").None?
    ensures c !in {'n', '\\', '"'} ==> Quoted(Escape(value) + (['\\', c] + tail)).None?
  {
    QuotedAfter(value, "");
    assert Escape(value) + "" == Escape(value);
    QuotedAfter(value, "\\");
    QuotedAfter(value, ['\\', c] + tail);
  }

  /** A label fails when its name is no label name, as with a colon in it, and when its value is not
      quoted. */
  lemma LabelFails(name: string, after: string)
    requires '=' !in name
    ensures !LabelName(Trim(name)) ==> Label(name + ['='] + after).None?
    ensures TrimStart(after) == "" || TrimStart(after)[0] != '"' ==> Label(name + ['='] + after).None?
  {
    var s := name + ['='] + after;
    FindAfter(name, '=', after, c => c == '=');
    assert s[..|name|] == name && s[|name| + 1..] == after;
  }

  predicate AllWhite(s: string) {
    forall i | 0 <= i < |s| :: IsWhite(s[i])
  }

  lemma {:induction false} WhiteBefore(space: string, s: string)
    requires AllWhite(space) && (s == "" || !IsWhite(s[0]))
    ensures TrimStart(space + s) == s
    decreases |space|
  {
    if space == "" {
      assert space + s == s;
    } else {
      assert (space + s)[1..] == space[1..] + s;
      WhiteBefore(space[1..], s);
    }
  }

  lemma {:induction false} WhiteAfter(s: string, space: string)
    requires AllWhite(space) && (s == "" || !IsWhite(s[|s| - 1]))
    ensures TrimEnd(s + space) == s
    decreases |space|
  {
    if space == "" {
      assert s + space == s;
    } else {
      var n := |space| - 1;
      assert (s + space)[..|s + space| - 1] == s + space[..n];
      WhiteAfter(s, space[..n]);
    }
  }

  lemma WhiteAround(a: string, name: string, b: string)
    requires AllWhite(a) && AllWhite(b) && ValidName(name)
    ensures Trim(a + name + b) == name
  {
    assert NameChar(name[0]) && NameChar(name[|name| - 1]);
    assert a + name + b == a + (name + b) && (name + b)[0] == name[0];
    WhiteBefore(a, name + b);
    WhiteAfter(name, b);
  }

  /** White space may stand before and after a label's name, before its value and after it. */
  lemma SpacedLabel(a: string, b: string, c: string, d: string, l: (string, string), tail: string)
    requires AllWhite(a) && AllWhite(b) && AllWhite(c) && AllWhite(d) && LabelName(l.0)
    requires tail != "" && !IsWhite(tail[0])
    ensures Label((a + l.0 + b) + ['='] + (c + (['"'] + (Escape(l.1) + "\"" + (d + tail))))) ==
            Some((l.0, l.1, if tail[0] == ',' then tail[1..] else tail))
  {
    var name, quoted := a + l.0 + b, Escape(l.1) + "\"" + (d + tail);
    var value := ['"'] + quoted;
    var s := name + ['='] + (c + value);
    NotEquals(a, l.0, b);
    FindAfter(name, '=', c + value, c => c == '=');
    assert s[..|name|] == name && s[|name| + 1..] == c + value;
    WhiteAround(a, l.0, b);
    WhiteBefore(c, value);
    assert value[1..] == quoted;
    QuotedEscape(l.1, d + tail);
    WhiteBefore(d, tail);
  }

  lemma NotEquals(a: string, name: string, b: string)
    requires AllWhite(a) && AllWhite(b) && ValidName(name)
    ensures forall i | 0 <= i < |a + name + b| :: (a + name + b)[i] != '='
  {
    forall i | 0 <= i < |a + name + b| ensures (a + name + b)[i] != '=' {
      assert (a + name + b)[i] in a || (a + name + b)[i] in name || (a + name + b)[i] in b;
    }
  }

  lemma {:induction false} NoToken(space: string)
    requires forall i | 0 <= i < |space| :: IsAsciiWhite(space[i])
    ensures Token(space) == ""
    decreases |space|
  {
    if space != "" { NoToken(space[1..]); }
  }

  /** With no word after its labels a sample fails, whatever reads as a number. */
  lemma NoValueFails<V>(
    labels: seq<(string, string)>, space: string, maxLabels: nat, number: string -> Option<V>)
    requires (forall i | 0 <= i < |labels| :: LabelName(labels[i].0)) && |labels| <= maxLabels
    requires forall i | 0 <= i < |space| :: IsAsciiWhite(space[i])
    ensures Body(space, maxLabels, number).None?
    ensures Body("{" + (PrintLabels(labels) + space), maxLabels, number).None?
  {
    NoToken(space);
    LabelsReadBack(labels, space, maxLabels, map[]);
    var body := "{" + (PrintLabels(labels) + space);
    assert body[0] == '{' && body[1..] == PrintLabels(labels) + space;
  }

  ghost predicate DistinctNames(labels: seq<(string, string)>, before: map<string, string>) {
    labels == [] || (labels[0].0 !in before && DistinctNames(labels[1..], before[labels[0].0 := labels[0].1]))
  }

  /** Labels of different names fail exactly when they are more than the limit. */
  lemma {:induction false} LabelLimit(
    labels: seq<(string, string)>, tail: string, maxLabels: nat, before: map<string, string>)
    requires forall i | 0 <= i < |labels| :: LabelName(labels[i].0)
    requires DistinctNames(labels, before) && |before| <= maxLabels
    ensures Labels(PrintLabels(labels) + tail, maxLabels, before).None? <==> |before| + |labels| > maxLabels
    decreases |labels|
  {
    if |before| + |labels| <= maxLabels {
      LabelsReadBack(labels, tail, maxLabels, before);
    } else {
      var l, rest := labels[0], labels[1..];
      var after := PrintLabels(rest) + tail;
      var next := if rest == [] then after else "," + after;
      assert PrintLabels(labels) + tail == PrintLabel(l) + next;
      if |before| < maxLabels {
        LabelsNext(l, next, maxLabels, before);
        assert (if next[0] == ',' then next[1..] else next) == after;
        LabelLimit(rest, tail, maxLabels, before[l.0 := l.1]);
      } else {
        var s := PrintLabel(l) + next;
        assert s[0] == l.0[0] && NameChar(l.0[0]);
        assert TrimStart(s) == s;
      }
    }
  }

  // ---------------------------------------------------------------- a printed line

  predicate OneLine(s: string) {
    forall i | 0 <= i < |s| :: s[i] != '\n'
  }

  lemma {:induction false} EscapeOneLine(value: string)
    ensures OneLine(Escape(value))
    decreases |value|
  {
    if value != "" { EscapeOneLine(value[1..]); }
  }

  lemma NameOneLine(name: string)
    requires ValidName(name)
    ensures OneLine(name)
  {
    assert forall i | 0 <= i < |name| :: NameChar(name[i]);
  }

  lemma {:induction false} LabelsOneLine(labels: seq<(string, string)>)
    requires forall i | 0 <= i < |labels| :: LabelName(labels[i].0)
    ensures OneLine(PrintLabels(labels))
    decreases |labels|
  {
    if labels != [] {
      NameOneLine(labels[0].0);
      EscapeOneLine(labels[0].1);
      assert OneLine(PrintLabel(labels[0]));
      LabelsOneLine(labels[1..]);
    }
  }

  lemma EndOneLine<V>(s: Printed, limits: Limits, number: string -> Option<V>)
    requires Printable(s, limits, number)
    ensures var end := PrintEnd(s); OneLine(end) && end[0] == s.gap && !IsWhite(end[|end| - 1])
  {
    var end := PrintEnd(s);
    if s.timestamp.None? {
      assert end == [s.gap] + s.value;
    } else {
      assert end[|end| - 1] == s.timestamp.value[|s.timestamp.value| - 1];
    }
  }

  lemma ShownOneLine<V>(s: Printed, limits: Limits, number: string -> Option<V>)
    requires Printable(s, limits, number)
    ensures OneLine(PrintLine(Shown(s))) && Trim(PrintLine(Shown(s))) == PrintLine(Shown(s))
  {
    NameOneLine(s.name);
    LabelsOneLine(s.labels);
    EndOneLine(s, limits, number);
    var line, end := PrintLine(Shown(s)), PrintEnd(s);
    assert line[0] == s.name[0] && NameChar(s.name[0]);
    assert line[|line| - 1] == end[|end| - 1];
  }

  lemma TokenFirst(gap: char, value: string, rest: string)
    requires IsAsciiWhite(gap) && Word(value) && (rest == "" || rest[0] == gap)
    ensures Token([gap] + value + rest) == value
  {
    var s := [gap] + value + rest;
    var t := value + rest;
    assert s[1..] == t && t[0] == value[0] && !IsWhite(value[0]);
    forall i | 0 <= i < |value| ensures !IsAsciiWhite(t[i]) { assert t[i] == value[i] && !IsWhite(value[i]); }
    assert rest != "" ==> t[|value|] == gap;
    assert Find(t, IsAsciiWhite) == |value|;
    assert t[..|value|] == value;
  }

  /** A body is its labels, if it opens with a brace, and the first word after them. */
  lemma BodyIs<V>(labels: string, end: string, read: map<string, string>, maxLabels: nat, number: string -> Option<V>)
    requires Labels(labels + end, maxLabels, map[]) == Some((read, end))
    requires Token(end) != "" && number(Token(end)).Some?
    ensures Body("{" + labels + end, maxLabels, number) == Some((read, number(Token(end)).value))
  {
    var body := "{" + labels + end;
    assert body[0] == '{' && body[1..] == labels + end;
    assert Labels(body[1..], maxLabels, map[]) == Some((read, end));
  }

  lemma BodyReadsBack<V>(s: Printed, limits: Limits, number: string -> Option<V>)
    requires Printable(s, limits, number)
    ensures Body(PrintBody(s), limits.maxLabels, number) == Some((LabelMap(s.labels, map[]), number(s.value).value))
  {
    assert Token(PrintEnd(s)) == s.value by {
      TokenFirst(s.gap, s.value, if s.timestamp.None? then "" else [s.gap] + s.timestamp.value);
    }
    if s.labels == [] {
      assert PrintBody(s)[0] == s.gap;
    } else {
      LabelsReadBack(s.labels, PrintEnd(s), limits.maxLabels, map[]);
      BodyIs(PrintLabels(s.labels), PrintEnd(s), LabelMap(s.labels, map[]), limits.maxLabels, number);
    }
  }

  // ---------------------------------------------------------------- a line that is no sample

  lemma {:induction false} TrimKeepsFirst(s: string)
    requires s != "" && !IsWhite(s[0])
    ensures TrimEnd(s) != "" && TrimEnd(s)[0] == s[0]
    decreases |s|
  {
    if IsWhite(s[|s| - 1]) { TrimKeepsFirst(s[..|s| - 1]); }
  }

  lemma {:induction false} WhiteTrims(s: string)
    requires forall i | 0 <= i < |s| :: IsWhite(s[i])
    ensures Trim(s) == ""
    decreases |s|
  {
    if s != "" { WhiteTrims(s[1..]); }
  }

  /** Comments and empty lines are passed over. */
  lemma PassedOver<V>(l: Line, limits: Limits, number: string -> Option<V>)
    requires PrintableLine(l, limits, number) && !l.Shown?
    ensures Blank(Trim(PrintLine(l)))
  {
    if l.Comment? {
      TrimStartTwice(PrintLine(l));
      TrimKeepsFirst(PrintLine(l));
    } else {
      WhiteTrims(l.space);
    }
  }

  // ---------------------------------------------------------------- printed lines

  lemma NameReadsBack(name: string, body: string)
    requires ValidName(name) && body != "" && NameEnds(body[0])
    ensures var line := name + body;
            Find(line, NameEnds) == |name| && line[..|name|] == name && line[|name|..] == body && !Blank(line)
  {
    var line := name + body;
    assert line == name + [body[0]] + body[1..];
    assert line[0] == name[0] && NameChar(name[0]);
    forall i | 0 <= i < |name| ensures !NameEnds(name[i]) {
      assert NameChar(name[i]);
    }
    FindAfter(name, body[0], body[1..], NameEnds);
  }

  /** A line made of a valid name and a body adds what the body reads as, if the name is chosen. */
  lemma NamedLine<V>(
    name: string, text: string, limits: Limits, wanted: string -> bool, body: Reader<V>, p: Progress<V>)
    requires ValidName(name) && text != "" && NameEnds(text[0]) && p.series < limits.maxSeries
    ensures ParseLine(name + text, limits, wanted, body, p) ==
            if wanted(name) then KeepSample(name, body(text), limits, p) else Some(p.(series := p.series + 1))
  {
    NameReadsBack(name, text);
  }

  ghost predicate AllPrintable<V>(lines: seq<Line>, limits: Limits, number: string -> Option<V>) {
    lines == [] || (PrintableLine(lines[0], limits, number) && AllPrintable(lines[1..], limits, number))
  }

  function Count(lines: seq<Line>): (n: nat)
    ensures n <= |lines|
  {
    if lines == [] then 0 else (if lines[0].Shown? then 1 else 0) + Count(lines[1..])
  }

  /** What a printed line says, if its name is chosen. */
  ghost function LineMeaning<V>(l: Line, limits: Limits, wanted: string -> bool, number: string -> Option<V>)
    : seq<Sample<V>>
    requires PrintableLine(l, limits, number)
  {
    if l.Shown? && wanted(l.sample.name) then [Meaning(l.sample, number)] else []
  }

  ghost function Meanings<V>(lines: seq<Line>, limits: Limits, wanted: string -> bool, number: string -> Option<V>)
    : seq<Sample<V>>
    requires AllPrintable(lines, limits, number)
  {
    if lines == [] then []
    else LineMeaning(lines[0], limits, wanted, number) + Meanings(lines[1..], limits, wanted, number)
  }

  lemma FirstLine(line: string, text: string)
    requires OneLine(line)
    ensures Lines(line + "\n" + text) == [line] + Lines(text)
  {
    var all := line + "\n" + text;
    FindAfter(line, '\n', text, c => c == '\n');
    assert all[..|line|] == line && all[|line| + 1..] == text;
  }

  function PrintLines(lines: seq<Line>): seq<string> {
    if lines == [] then [] else [PrintLine(lines[0])] + PrintLines(lines[1..])
  }

  lemma {:induction false} PrintInLines<V>(lines: seq<Line>, limits: Limits, number: string -> Option<V>)
    requires AllPrintable(lines, limits, number)
    ensures Lines(Print(lines)) == PrintLines(lines)
    decreases |lines|
  {
    if lines != [] {
      if lines[0].Shown? { ShownOneLine(lines[0].sample, limits, number); }
      PrintInLines(lines[1..], limits, number);
      FirstLine(PrintLine(lines[0]), Print(lines[1..]));
    }
  }

  lemma ParseFirst<V>(
    line: string, lines: seq<string>, limits: Limits, all: string -> bool, body: Reader<V>, p: Progress<V>,
    next: Progress<V>)
    requires ParseLine(Trim(line), limits, all, body, p) == Some(next)
    ensures ParseLines([line] + lines, limits, all, body, p) == ParseLines(lines, limits, all, body, next)
  {
    assert ([line] + lines)[1..] == lines;
  }

  ghost predicate BodiesRead<V>(lines: seq<Line>, limits: Limits, number: string -> Option<V>, body: Reader<V>)
    requires AllPrintable(lines, limits, number)
  {
    lines != [] ==>
      && (lines[0].Shown? ==>
            var m := Meaning(lines[0].sample, number);
            body(PrintBody(lines[0].sample)) == Some((m.labels, m.value)))
      && BodiesRead(lines[1..], limits, number, body)
  }

  lemma {:induction false} BodiesReadBack<V>(lines: seq<Line>, limits: Limits, number: string -> Option<V>)
    requires AllPrintable(lines, limits, number)
    ensures BodiesRead(lines, limits, number, BodyReader(limits, number))
    decreases |lines|
  {
    if lines != [] {
      if lines[0].Shown? { BodyReadsBack(lines[0].sample, limits, number); }
      BodiesReadBack(lines[1..], limits, number);
    }
  }

  /** Where reading one printed line ends. */
  ghost function AfterLine<V>(
    l: Line, limits: Limits, wanted: string -> bool, number: string -> Option<V>, p: Progress<V>): Progress<V>
    requires PrintableLine(l, limits, number)
  {
    Progress(if l.Shown? then p.series + 1 else p.series, p.samples + LineMeaning(l, limits, wanted, number))
  }

  lemma PrintedLine<V>(
    l: Line, limits: Limits, wanted: string -> bool, number: string -> Option<V>, body: Reader<V>, p: Progress<V>)
    requires PrintableLine(l, limits, number)
    requires var next := AfterLine(l, limits, wanted, number, p);
             next.series <= limits.maxSeries && |next.samples| <= limits.maxSamples
    requires l.Shown? ==>
               body(PrintBody(l.sample)) == Some((Meaning(l.sample, number).labels, Meaning(l.sample, number).value))
    ensures ParseLine(Trim(PrintLine(l)), limits, wanted, body, p) == Some(AfterLine(l, limits, wanted, number, p))
  {
    assert p.samples + [] == p.samples;
    if l.Shown? {
      ShownOneLine(l.sample, limits, number);
      EndOneLine(l.sample, limits, number);
      NamedLine(l.sample.name, PrintBody(l.sample), limits, wanted, body, p);
    } else {
      PassedOver(l, limits, number);
    }
  }

  /** Where reading printed lines ends. */
  ghost function After<V>(
    lines: seq<Line>, limits: Limits, wanted: string -> bool, number: string -> Option<V>, p: Progress<V>): Progress<V>
    requires AllPrintable(lines, limits, number)
    decreases |lines|
  {
    if lines == [] then p
    else After(lines[1..], limits, wanted, number, AfterLine(lines[0], limits, wanted, number, p))
  }

  lemma {:induction false} AfterMeanings<V>(
    lines: seq<Line>, limits: Limits, wanted: string -> bool, number: string -> Option<V>, p: Progress<V>)
    requires AllPrintable(lines, limits, number)
    ensures After(lines, limits, wanted, number, p) ==
            Progress(p.series + Count(lines), p.samples + Meanings(lines, limits, wanted, number))
    decreases |lines|
  {
    if lines != [] {
      AfterMeanings(lines[1..], limits, wanted, number, AfterLine(lines[0], limits, wanted, number, p));
    }
  }

  lemma {:induction false} PrintedLines<V>(
    lines: seq<Line>, limits: Limits, wanted: string -> bool, number: string -> Option<V>, body: Reader<V>,
    p: Progress<V>)
    requires AllPrintable(lines, limits, number) && BodiesRead(lines, limits, number, body)
    requires var end := After(lines, limits, wanted, number, p);
             end.series <= limits.maxSeries && |end.samples| <= limits.maxSamples
    ensures ParseLines(PrintLines(lines), limits, wanted, body, p) == Some(After(lines, limits, wanted, number, p))
    decreases |lines|
  {
    if lines != [] {
      var l, rest := lines[0], lines[1..];
      var next := AfterLine(l, limits, wanted, number, p);
      assert next.series <= limits.maxSeries && |next.samples| <= limits.maxSamples by {
        AfterMeanings(rest, limits, wanted, number, next);
      }
      PrintedLine(l, limits, wanted, number, body, p);
      ParseFirst(PrintLine(l), PrintLines(rest), limits, wanted, body, p, next);
      PrintedLines(rest, limits, wanted, number, body, next);
    }
  }

  /** Printed samples read back as exactly what they mean, whatever their label values contain and
      whatever comments, empty lines and timestamps are printed with them; with a choice of names, as
      the chosen ones, which alone count against the limit on samples. */
  lemma PrintedReadsBack<V>(lines: seq<Line>, limits: Limits, wanted: string -> bool, number: string -> Option<V>)
    requires AllPrintable(lines, limits, number) && Count(lines) <= limits.maxSeries
    requires |Meanings(lines, limits, wanted, number)| <= limits.maxSamples
    ensures ParseText(Print(lines), limits, wanted, number) == Some(Meanings(lines, limits, wanted, number))
  {
    PrintInLines(lines, limits, number);
    BodiesReadBack(lines, limits, number);
    AfterMeanings(lines, limits, wanted, number, Progress(0, []));
    PrintedLines(lines, limits, wanted, number, BodyReader(limits, number), Progress(0, []));
    assert [] + Meanings(lines, limits, wanted, number) == Meanings(lines, limits, wanted, number);
  }
}
