/** Scrapes of a local exporter (agent/src/exporters/mod.rs) and what a receiver that keeps the last
    sample of each series believes after any history of them.
 */
module Exporters {
  import opened Options

  const MAX_TELEMETRY_BYTES := 512_000

  datatype Measurement = Watts(watts: Option<real>) | PowerState(state: Option<string>)

  datatype Reading = Reading(
    mapping: string, sensor: string, boundary: string, supply: Option<string>,
    measurement: Measurement, windowSeconds: real)

  /** What tells series apart. Each averaging window of a sensor is a series of its own. */
  datatype Series = Series(sensor: string, boundary: string, quantity: string, windowMs: int)

  datatype Sample = Sample(
    series: Series, mapping: string, supply: Option<string>, valid: bool, measurement: Measurement, at: int)

  datatype Result = Served(readings: seq<Reading>) | ScrapeFailed

  function Quantity(m: Measurement): string {
    match m case Watts(_) => "real_power" case PowerState(_) => "state"
  }

  /** A measurement of the same quantity that says nothing. */
  function Unreadable(m: Measurement): Measurement {
    match m case Watts(_) => Watts(None) case PowerState(_) => PowerState(None)
  }

  predicate Readable(m: Measurement) {
    match m case Watts(w) => w.Some? case PowerState(s) => s.Some?
  }

  /** Whole milliseconds, cut towards zero. */
  function WindowMs(r: Reading): int {
    var ms := r.windowSeconds * 1000.0;
    if ms < 0.0 then -((-ms).Floor) else ms.Floor
  }

  function SeriesOf(r: Reading): Series {
    Series(r.sensor, r.boundary, Quantity(r.measurement), WindowMs(r))
  }

  /** The whole milliseconds of a window that is not negative. */
  lemma WindowMsIs(r: Reading, ms: nat)
    requires ms as real <= r.windowSeconds * 1000.0 < (ms + 1) as real
    ensures WindowMs(r) == ms
  {
  }

  /** Readings are of one series exactly when they agree in sensor, boundary, kind of measurement and the
      whole milliseconds of their windows. */
  lemma SameSeries(a: Reading, b: Reading, m: nat, n: nat)
    requires m as real <= a.windowSeconds * 1000.0 < (m + 1) as real
    requires n as real <= b.windowSeconds * 1000.0 < (n + 1) as real
    ensures SeriesOf(a) == SeriesOf(b) <==>
            && a.sensor == b.sensor && a.boundary == b.boundary
            && (a.measurement.Watts? <==> b.measurement.Watts?)
            && m == n
  {
    WindowMsIs(a, m);
    WindowMsIs(b, n);
    assert "real_power"[0] != "state"[0];
  }

  lemma WholeMs(r: Reading, m: int)
    requires r.windowSeconds == m as real / 1000.0
    ensures WindowMs(r) == m
  {
    assert r.windowSeconds * 1000.0 == m as real;
  }

  /** A sample is valid only when the scrape worked and the reading was readable; otherwise it
      carries no value. */
  function ToSample(r: Reading, failed: bool, now: int): Sample {
    var valid := !failed && Readable(r.measurement);
    Sample(SeriesOf(r), r.mapping, r.supply, valid, if valid then r.measurement else Unreadable(r.measurement), now)
  }

  function Batch(readings: seq<Reading>, failed: bool, now: int): seq<Sample> {
    seq(|readings|, i requires 0 <= i < |readings| => ToSample(readings[i], failed, now))
  }

  predicate Serves(readings: seq<Reading>, s: Series) {
    exists i :: 0 <= i < |readings| && SeriesOf(readings[i]) == s
  }

  /** A reading that is not among `readings`, with its value taken out. */
  function Vanished(r: Reading, readings: seq<Reading>): seq<Reading> {
    if Serves(readings, SeriesOf(r)) then [] else [r.(measurement := Unreadable(r.measurement))]
  }

  /** What was known and is not among `readings`. */
  function Gone(known: seq<Reading>, readings: seq<Reading>): seq<Reading> {
    if known == [] then [] else Vanished(known[0], readings) + Gone(known[1..], readings)
  }

  function KnownAfter(known: seq<Reading>, result: Result): seq<Reading> {
    if result.Served? then result.readings else known
  }

  /** What one scrape queues: nothing when there is nothing to say. */
  function Queued(known: seq<Reading>, result: Result, now: int): seq<Sample> {
    match result
    case Served(readings) => Batch(readings + Gone(known, readings), false, now)
    case ScrapeFailed => Batch(known, true, now)
  }

  /** Whether a batch whose encoding has this many bytes, if it can be encoded, is passed on. */
  predicate Fits(bytes: Option<nat>) {
    bytes.Some? && bytes.value <= MAX_TELEMETRY_BYTES
  }

  function Passed(batch: seq<Sample>, dropped: bool): seq<Sample> {
    if dropped then [] else batch
  }

  lemma GoneNext(known: seq<Reading>, i: nat, gone: seq<Reading>, readings: seq<Reading>)
    requires i < |known|
    ensures gone + Gone(known[i..], readings) == gone + Vanished(known[i], readings) + Gone(known[i + 1..], readings)
  {
    assert known[i..][1..] == known[i + 1..];
  }

  /** The loop over what was known. */
  method CollectGone(known: seq<Reading>, readings: seq<Reading>) returns (gone: seq<Reading>)
    ensures gone == Gone(known, readings)
  {
    gone := [];
    var i := 0;
    while i < |known|
      invariant 0 <= i <= |known|
      invariant gone + Gone(known[i..], readings) == Gone(known, readings)
    {
      GoneNext(known, i, gone, readings);
      gone := gone + Vanished(known[i], readings);
      i := i + 1;
    }
  }

  /** One exporter's scraper. */
  class Scraper {
    var known: seq<Reading>

    constructor ()
      ensures known == []
    {
      known := [];
    }

    /** Takes up the result of a scrape: the batch it makes, and what is known from now on. */
    method TakeUp(result: Result, now: int) returns (batch: seq<Sample>)
      modifies this
      ensures batch == Queued(old(known), result, now)
      ensures known == KnownAfter(old(known), result)
    {
      var readings, failed := known, true;
      if result.Served? {
        var gone := CollectGone(known, result.readings);
        known := result.readings;
        readings, failed := result.readings + gone, false;
      }
      batch := Batch(readings, failed, now);
    }

    /** One scrape: what it passes on, which is nothing when its batch is too large. */
    method Scrape(result: Result, now: int, bytes: seq<Sample> -> Option<nat>) returns (sent: seq<Sample>)
      modifies this
      ensures var batch := Queued(old(known), result, now);
              sent == Passed(batch, !Fits(bytes(batch)))
      ensures known == KnownAfter(old(known), result)
      ensures var batch := Queued(old(known), result, now);
              sent == if bytes(batch).Some? && bytes(batch).value <= 512_000 then batch else []
    {
      sent := TakeUp(result, now);
      if sent != [] && !Fits(bytes(sent)) {
        sent := [];
      }
    }
  }

  // ---------------------------------------------------------------- the receiver

  /** Keeping the last sample of each series. */
  function Receive(view: map<Series, Sample>, batch: seq<Sample>): map<Series, Sample> {
    if batch == [] then view
    else
      var n := |batch| - 1;
      Receive(view, batch[..n])[batch[n].series := batch[n]]
  }

  datatype Scrapes = Scrapes(known: seq<Reading>, view: map<Series, Sample>)

  /** One scrape: its result, its time, and whether its batch was dropped. */
  datatype Scraped = Scraped(result: Result, now: int, dropped: bool)

  /** The scraper and the receiver after a history of scrapes. */
  function After(history: seq<Scraped>): Scrapes {
    if history == [] then Scrapes([], map[])
    else
      var n := |history| - 1;
      var before, last := After(history[..n]), history[n];
      Scrapes(KnownAfter(before.known, last.result),
              Receive(before.view, Passed(Queued(before.known, last.result, last.now), last.dropped)))
  }

  predicate BelievedValid(view: map<Series, Sample>, s: Series) {
    s in view && view[s].valid
  }

  /** The last reading of a series among some, as a scrape that served it twice would be read. */
  function LastOf(readings: seq<Reading>, s: Series): Option<Reading> {
    if readings == [] then None
    else
      var n := |readings| - 1;
      if SeriesOf(readings[n]) == s then Some(readings[n]) else LastOf(readings[..n], s)
  }

  lemma {:induction false} LastOfServed(readings: seq<Reading>, s: Series)
    ensures LastOf(readings, s).Some? <==> Serves(readings, s)
    ensures LastOf(readings, s).Some? ==> SeriesOf(LastOf(readings, s).value) == s
    decreases |readings|
  {
    if readings != [] {
      var n := |readings| - 1;
      LastOfServed(readings[..n], s);
      if Serves(readings[..n], s) {
        var i :| 0 <= i < n && SeriesOf(readings[..n][i]) == s;
        assert SeriesOf(readings[i]) == s;
      }
      if Serves(readings, s) && SeriesOf(readings[n]) != s {
        var i :| 0 <= i < |readings| && SeriesOf(readings[i]) == s;
        assert SeriesOf(readings[..n][i]) == s;
      }
    }
  }

  lemma {:induction false} LastOfConcat(a: seq<Reading>, b: seq<Reading>, s: Series)
    ensures LastOf(a + b, s) == if LastOf(b, s).Some? then LastOf(b, s) else LastOf(a, s)
    decreases |b|
  {
    if b == [] {
      assert a + b == a;
    } else {
      var n := |b| - 1;
      assert (a + b)[..|a| + n] == a + b[..n];
      LastOfConcat(a, b[..n], s);
    }
  }

  /** What a receiver holds of a series after a batch. */
  lemma {:induction false} ReceiveLast(
    view: map<Series, Sample>, readings: seq<Reading>, failed: bool, now: int, s: Series)
    ensures var after, last := Receive(view, Batch(readings, failed, now)), LastOf(readings, s);
            && (s in after <==> last.Some? || s in view)
            && (last.Some? ==> after[s] == ToSample(last.value, failed, now))
            && (last.None? && s in view ==> after[s] == view[s])
    decreases |readings|
  {
    if readings != [] {
      var n := |readings| - 1;
      assert Batch(readings, failed, now)[..n] == Batch(readings[..n], failed, now);
      ReceiveLast(view, readings[..n], failed, now, s);
    }
  }

  /** What is gone was known, is not served, and is never readable. */
  lemma {:induction false} GoneSeries(known: seq<Reading>, readings: seq<Reading>, s: Series)
    ensures Serves(Gone(known, readings), s) <==> Serves(known, s) && !Serves(readings, s)
    ensures forall i | 0 <= i < |Gone(known, readings)| :: !Readable(Gone(known, readings)[i].measurement)
    decreases |known|
  {
    if known != [] {
      GoneSeries(known[1..], readings, s);
      var first := known[0].(measurement := Unreadable(known[0].measurement));
      assert SeriesOf(first) == SeriesOf(known[0]);
      ServesCons(known, s);
      if !Serves(readings, SeriesOf(known[0])) {
        assert Gone(known, readings)[1..] == Gone(known[1..], readings);
        ServesCons(Gone(known, readings), s);
      } else {
        assert Gone(known, readings) == Gone(known[1..], readings);
      }
    }
  }

  lemma ServesCons(readings: seq<Reading>, s: Series)
    requires readings != []
    ensures Serves(readings, s) <==> SeriesOf(readings[0]) == s || Serves(readings[1..], s)
  {
    if Serves(readings, s) {
      var i :| 0 <= i < |readings| && SeriesOf(readings[i]) == s;
      if i > 0 { assert SeriesOf(readings[1..][i - 1]) == s; }
    }
    if Serves(readings[1..], s) {
      var i :| 0 <= i < |readings| - 1 && SeriesOf(readings[1..][i]) == s;
      assert SeriesOf(readings[i + 1]) == s;
    }
  }

  lemma {:induction false} LastOfUnreadable(readings: seq<Reading>, s: Series)
    requires forall i | 0 <= i < |readings| :: !Readable(readings[i].measurement)
    ensures LastOf(readings, s).Some? ==> !Readable(LastOf(readings, s).value.measurement)
    decreases |readings|
  {
    if readings != [] { LastOfUnreadable(readings[..|readings| - 1], s); }
  }

  /** The reading a scrape gives of a series, if it worked and the reading is readable. */
  function Current(result: Result, s: Series): Option<Reading> {
    if result.ScrapeFailed? then None
    else
      var last := LastOf(result.readings, s);
      if last.Some? && Readable(last.value.measurement) then last else None
  }

  predicate ServedBy(result: Result, s: Series) {
    result.Served? && Serves(result.readings, s)
  }

  /** After a batch that arrives, a series is believed valid exactly when its scrape served it readable,
      or when it was believed before and neither the scraper knew of it nor the scrape serves it. */
  lemma OneScrape(known: seq<Reading>, view: map<Series, Sample>, result: Result, now: int, s: Series)
    ensures var after := Receive(view, Queued(known, result, now));
            && (BelievedValid(after, s) <==>
                || Current(result, s).Some?
                || (BelievedValid(view, s) && !Serves(known, s) && !ServedBy(result, s)))
            && (Current(result, s).Some? ==> s in after && after[s] == ToSample(Current(result, s).value, false, now))
  {
    match result
    case ScrapeFailed =>
      ReceiveLast(view, known, true, now, s);
      LastOfServed(known, s);
    case Served(readings) =>
      var gone := Gone(known, readings);
      ReceiveLast(view, readings + gone, false, now, s);
      LastOfConcat(readings, gone, s);
      GoneSeries(known, readings, s);
      LastOfServed(gone, s);
      LastOfServed(readings, s);
      LastOfUnreadable(gone, s);
  }

  /** Whether a receiver believes a series valid, told from the scrapes alone. */
  predicate Believes(history: seq<Scraped>, s: Series)
    decreases |history|, 1
  {
    if history == [] then false
    else
      var n := |history| - 1;
      var last := history[n];
      if last.dropped then Believes(history[..n], s)
      else Current(last.result, s).Some? || (Orphaned(history[..n], s) && !ServedBy(last.result, s))
  }

  /** Whether it does so of a series that the scraper has forgotten. */
  predicate Orphaned(history: seq<Scraped>, s: Series)
    decreases |history|, 0
  {
    if history == [] then false
    else
      var n := |history| - 1;
      var last := history[n];
      if last.result.Served? && last.dropped then Believes(history[..n], s) && !Serves(last.result.readings, s)
      else Orphaned(history[..n], s) && !ServedBy(last.result, s)
  }

  /** The receiver's view and the scraper's memory are told apart by the scrapes alone. */
  lemma {:induction false} TheViewTold(history: seq<Scraped>, s: Series)
    ensures BelievedValid(After(history).view, s) <==> Believes(history, s)
    ensures Orphaned(history, s) <==> Believes(history, s) && !Serves(After(history).known, s)
    decreases |history|
  {
    if history != [] {
      var n := |history| - 1;
      var before, last := After(history[..n]), history[n];
      TheViewTold(history[..n], s);
      OneScrape(before.known, before.view, last.result, last.now, s);
      if last.result.Served? { LastOfServed(last.result.readings, s); }
    }
  }

  /** A dropped batch whose scrape no longer served a series that was believed, with none serving it
      since. */
  ghost predicate LostAt(history: seq<Scraped>, i: nat, s: Series)
    requires i < |history|
  {
    && history[i].result.Served?
    && history[i].dropped
    && Believes(history[..i], s)
    && forall j | i <= j < |history| :: !ServedBy(history[j].result, s)
  }

  lemma LostStill(history: seq<Scraped>, i: nat, s: Series)
    requires i < |history| - 1
    ensures var n := |history| - 1;
            LostAt(history, i, s) <==> LostAt(history[..n], i, s) && !ServedBy(history[n].result, s)
  {
    var n := |history| - 1;
    var before := history[..n];
    assert before[..i] == history[..i];
    assert forall j | i <= j < n :: before[j] == history[j];
    if LostAt(before, i, s) && !ServedBy(history[n].result, s) {
      forall j | i <= j < |history| ensures !ServedBy(history[j].result, s) {
        if j < n { assert !ServedBy(before[j].result, s); }
      }
    }
  }

  /** One more scrape leaves a series orphaned if it does not serve it and was its loss or found it so. */
  lemma OrphanedNext(history: seq<Scraped>, s: Series)
    requires history != []
    ensures var n := |history| - 1;
            Orphaned(history, s) <==>
            (Orphaned(history[..n], s) && !ServedBy(history[n].result, s)) || LostAt(history, n, s)
  {
    TheViewTold(history[..|history| - 1], s);
  }

  /** A series outlives what the scraper knows exactly when such a batch was dropped. */
  lemma {:induction false} OrphanedByADrop(history: seq<Scraped>, s: Series)
    ensures Orphaned(history, s) <==> exists i | 0 <= i < |history| :: LostAt(history, i, s)
    decreases |history|
  {
    if history != [] {
      var n := |history| - 1;
      OrphanedByADrop(history[..n], s);
      OrphanedNext(history, s);
      forall i | 0 <= i < n
        ensures LostAt(history, i, s) <==> LostAt(history[..n], i, s) && !ServedBy(history[n].result, s)
      {
        LostStill(history, i, s);
      }
    }
  }

  /** After any history of successful, failed and partial scrapes whose last batch arrived, a receiver
      believes a series valid exactly when that scrape worked and served it readable, and then holds
      that reading, unless an earlier dropped batch lost the series and none has served it since. */
  lemma BelievesTheLatestScrape(history: seq<Scraped>, s: Series)
    requires history != [] && !history[|history| - 1].dropped
    ensures var last := history[|history| - 1];
            && ((BelievedValid(After(history).view, s) <==> Current(last.result, s).Some?) <==>
                !exists i | 0 <= i < |history| :: LostAt(history, i, s))
            && (Current(last.result, s).Some? ==>
                  && s in After(history).view
                  && After(history).view[s] == ToSample(Current(last.result, s).value, false, last.now))
  {
    var n := |history| - 1;
    var before, last := After(history[..n]), history[n];
    TheViewTold(history, s);
    OrphanedByADrop(history, s);
    OneScrape(before.known, before.view, last.result, last.now, s);
    if last.result.Served? { LastOfServed(last.result.readings, s); }
  }

  /** Where no batch is dropped, the latest scrape is all that is believed. */
  lemma NothingDropped(history: seq<Scraped>, s: Series)
    requires history != [] && forall i | 0 <= i < |history| :: !history[i].dropped
    ensures BelievedValid(After(history).view, s) <==> Current(history[|history| - 1].result, s).Some?
  {
    BelievesTheLatestScrape(history, s);
  }

  /** A series that the latest scrape does not serve is not believed once its batch arrives, exactly when
      no dropped batch lost it before. */
  lemma UnservedFails(history: seq<Scraped>, s: Series)
    requires history != [] && !history[|history| - 1].dropped && history[|history| - 1].result.Served?
    requires !Serves(history[|history| - 1].result.readings, s)
    ensures !BelievedValid(After(history).view, s) <==> !exists i | 0 <= i < |history| :: LostAt(history, i, s)
  {
    BelievesTheLatestScrape(history, s);
    LastOfServed(history[|history| - 1].result.readings, s);
  }

  /** A readable series that vanishes in a scrape whose batch is dropped stays believed valid through
      every later scrape that does not serve it. */
  lemma {:induction false} LostSeriesIsBelieved(reading: Reading, rest: seq<Reading>, later: seq<Scraped>)
    requires Readable(reading.measurement) && !Serves(rest, SeriesOf(reading))
    requires forall i | 0 <= i < |later| :: !ServedBy(later[i].result, SeriesOf(reading))
    ensures BelievedValid(
              After([Scraped(Served([reading]), 0, false), Scraped(Served(rest), 1, true)] + later).view,
              SeriesOf(reading))
  {
    var s := SeriesOf(reading);
    var served, lost := Scraped(Served([reading]), 0, false), Scraped(Served(rest), 1, true);
    var history := [served, lost] + later;
    assert history[..1] == [served];
    assert Believes(history[..1], s) by {
      assert LastOf([reading], s) == Some(reading);
      assert [served][..0] == [];
    }
    forall j | 1 <= j < |history| ensures !ServedBy(history[j].result, s) {
      if j > 1 { assert history[j] == later[j - 2]; }
    }
    assert LostAt(history, 1, s);
    OrphanedByADrop(history, s);
    TheViewTold(history, s);
  }

  // ---------------------------------------------------------------- a window that changes

  lemma LastServed(xs: seq<Reading>, r: Reading)
    ensures LastOf(xs + [r], SeriesOf(r)) == Some(r) && Serves(xs + [r], SeriesOf(r))
  {
    LastOfServed(xs + [r], SeriesOf(r));
  }

  lemma OtherSensors(ys: seq<Reading>, r: Reading, s: Series)
    requires (forall i | 0 <= i < |ys| :: ys[i].sensor != s.sensor) && SeriesOf(r) != s
    ensures !Serves(ys + [r], s)
  {
  }

  ghost predicate Holds(view: map<Series, Sample>, s: Series, sample: Sample) {
    s in view && view[s] == sample
  }

  lemma {:induction false} GoneLast(known: seq<Reading>, readings: seq<Reading>, s: Series)
    requires !Serves(readings, s)
    ensures var last := LastOf(known, s);
            LastOf(Gone(known, readings), s) ==
            if last.None? then None else Some(last.value.(measurement := Unreadable(last.value.measurement)))
    decreases |known|
  {
    if known != [] {
      var first, rest := known[0], known[1..];
      GoneLast(rest, readings, s);
      assert known == [first] + rest;
      LastOfConcat([first], rest, s);
      LastOfConcat(Vanished(first, readings), Gone(rest, readings), s);
      assert [first][..0] == [];
    }
  }

  /** A series that is no longer served is sent as the reading last known of it, without its value. */
  lemma GoneHolds(known: seq<Reading>, view: map<Series, Sample>, readings: seq<Reading>, now: int, r: Reading)
    requires LastOf(known, SeriesOf(r)) == Some(r) && !Serves(readings, SeriesOf(r))
    ensures Holds(Receive(view, Queued(known, Served(readings), now)), SeriesOf(r),
                  Sample(SeriesOf(r), r.mapping, r.supply, false, Unreadable(r.measurement), now))
  {
    var gone := Gone(known, readings);
    ReceiveLast(view, readings + gone, false, now, SeriesOf(r));
    LastOfConcat(readings, gone, SeriesOf(r));
    GoneLast(known, readings, SeriesOf(r));
  }

  /** A reading over a window of so many milliseconds. */
  function Over(r: Reading, ms: int): Reading {
    r.(windowSeconds := ms as real / 1000.0)
  }

  /** After any history, a readable sensor is served over one window and then, with nothing else of that
      sensor, over another of whole milliseconds, and both batches arrive: the old window's series holds
      a failed sample without a value, and the new one the sensor's own measurement, both at the
      scrape's time. */
  lemma WindowChanges(
    history: seq<Scraped>, xs: seq<Reading>, ys: seq<Reading>, r: Reading, m: int, n: int, t: int, u: int)
    requires Readable(r.measurement) && m != n && forall i | 0 <= i < |ys| :: ys[i].sensor != r.sensor
    ensures var one, two := Scraped(Served(xs + [Over(r, m)]), t, false), Scraped(Served(ys + [Over(r, n)]), u, false);
            var view := After(history + [one] + [two]).view;
            var kind := if r.measurement.Watts? then "real_power" else "state";
            var nothing := if r.measurement.Watts? then Watts(None) else PowerState(None);
            && Holds(view, Series(r.sensor, r.boundary, kind, m),
                     Sample(Series(r.sensor, r.boundary, kind, m), r.mapping, r.supply, false, nothing, u))
            && Holds(view, Series(r.sensor, r.boundary, kind, n),
                     Sample(Series(r.sensor, r.boundary, kind, n), r.mapping, r.supply, true, r.measurement, u))
  {
    var before, now := Over(r, m), Over(r, n);
    var one, two := Scraped(Served(xs + [before]), t, false), Scraped(Served(ys + [now]), u, false);
    var middle := history + [one];
    assert (middle + [two])[..|middle|] == middle && middle[..|history|] == history;
    WholeMs(before, m);
    WholeMs(now, n);
    LastServed(xs, before);
    LastServed(ys, now);
    OtherSensors(ys, now, SeriesOf(before));
    LastOfServed(ys + [now], SeriesOf(before));
    OneScrape(After(middle).known, After(middle).view, two.result, u, SeriesOf(now));
    GoneHolds(After(middle).known, After(middle).view, ys + [now], u, before);
  }

  /** Over every history a receiver holds of each series a sample of that series, and one that is valid
      exactly when it carries a value. */
  lemma {:induction false} ValidExactlyWithValue(history: seq<Scraped>, s: Series)
    requires s in After(history).view
    ensures var sample := After(history).view[s];
            sample.series == s && (sample.valid <==> Readable(sample.measurement))
    decreases |history|
  {
    var n := |history| - 1;
    var before, last := After(history[..n]), history[n];
    if s in before.view { ValidExactlyWithValue(history[..n], s); }
    if !last.dropped {
      var readings := if last.result.Served? then last.result.readings + Gone(before.known, last.result.readings)
                      else before.known;
      ReceiveLast(before.view, readings, last.result.ScrapeFailed?, last.now, s);
      LastOfServed(readings, s);
    }
  }
}
