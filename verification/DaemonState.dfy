/** The daemon's home, relocation and reload machine (agent/src/main.rs, with client identity from
    agent/src/transport.rs) as a state and the steps that change it.

    Workers keep the client they were started with and may hear from its home at any time, so their
    answers are steps of their own. Loading the configuration, the resolver's reply, building a
    client, and writing or unlinking the persisted home are decided by the event.
 */
module DaemonState {
  import opened Options
  import opened Home

  // ---------------------------------------------------------------- clients, listeners, passes

  /** What makes two clients send alike. */
  datatype Settings = Settings(
    home: Origin, intakeKey: string, installationId: string, requestTimeout: nat, maxRetryAttempts: nat)

  /** A client and the cell in which it and its clones note that their home said `moved`. */
  datatype Client = Client(settings: Settings, signal: nat)

  function SettingsFor(config: Config, origin: Origin): Settings {
    Settings(origin, config.intakeKey, config.installationId, config.requestTimeout, config.maxRetryAttempts)
  }

  datatype Endpoint = Endpoint(home: Origin, intakeKey: string, installationId: string, timeout: nat)

  function EnabledJobs(config: Config): set<string> {
    ({"inventory.collect"} + config.osquery.queries) * config.jobs.enabled
  }

  /** Where the notice socket connects to, if any job is enabled at all. */
  function StartListener(client: Client, config: Config): Option<Endpoint> {
    var s := client.settings;
    if EnabledJobs(config) == {} then None
    else Some(Endpoint(s.home, s.intakeKey, s.installationId, s.requestTimeout))
  }

  /** What a job pass is built from. */
  datatype Inputs = Inputs(client: Client, labels: map<string, string>, jobs: JobPolicy, osquery: Osquery)

  datatype Pass = Pass(generation: nat, inputs: Inputs)

  // ---------------------------------------------------------------- relocation

  const RETRY_INITIAL: nat := 30_000
  const RETRY_MAX: nat := 900_000

  /** A pending relocation: when to ask again and how long the wait after that is. */
  datatype Relocation = Relocation(notBefore: int, delay: nat)

  function BackOff(r: Relocation, now: int): Relocation {
    Relocation(now + r.delay, if 2 * r.delay < RETRY_MAX then 2 * r.delay else RETRY_MAX)
  }

  datatype Purpose = ForReload(newConfig: Config) | ForRelocation

  /** A resolution in flight: why, the configuration it asks for, and the one current at its start. */
  datatype Resolution = Resolution(purpose: Purpose, asked: Config, startedUnder: Config)

  // ---------------------------------------------------------------- the state

  datatype State = State(
    config: Config,
    home: Home,
    file: Option<Home>,              // home.json
    client: Client,
    relocation: Option<Relocation>,
    resolution: Option<Resolution>,
    generation: nat,
    listener: Option<Endpoint>,
    signals: nat,                    // signal cells made so far
    raised: set<nat>,                // cells holding a `moved` not yet read
    discardFailed: bool,             // the unlink at the start of the last relocation failed
    issued: set<Client>,             // every client a worker may hold
    heard: set<nat>,                 // cells on which `moved` was ever heard
    passes: seq<Pass>)               // every job pass started

  function InputsOf(s: State): Inputs {
    Inputs(s.client, s.config.labels, s.config.jobs, s.config.osquery)
  }

  /** The state after startup resolved a home that answers and persisted it. */
  function Started(config: Config, home: Home): State {
    var client := Client(SettingsFor(config, home.home), 0);
    State(config, home, Some(home), client, None, None, 0, StartListener(client, config),
          1, {}, false, {client}, {}, [])
  }

  // ---------------------------------------------------------------- the steps

  /** A client that would be built now: it keeps the current signal exactly at the current home. */
  function ClientFor(s: State, config: Config, origin: Origin): Client {
    Client(SettingsFor(config, origin), if origin == s.client.settings.home then s.client.signal else s.signals)
  }

  /** Something that a pass or the socket was made from is different. */
  predicate ChangesJobs(s: State, config: Config, client: Client) {
    || client.settings != s.client.settings
    || config.labels != s.config.labels
    || config.jobs != s.config.jobs
    || config.osquery != s.config.osquery
  }

  /** A new live client: passes built before are out of date and the socket is reopened. */
  function WithClient(s: State, client: Client): State {
    s.(client := client,
       generation := s.generation + 1,
       listener := StartListener(client, s.config),
       signals := if client.signal == s.signals then s.signals + 1 else s.signals,
       issued := s.issued + {client})
  }

  /** The client changes only together with something a pass is built from. */
  function Adopt(s: State, config: Config, home: Home, client: Client): State {
    var t := s.(config := config, home := home);
    if ChangesJobs(s, config, client) then WithClient(t, client) else t
  }

  datatype Event =
    | Reload(loaded: Option<Config>, readable: bool, buildable: bool)
    | NoticeMoved(now: int, unlinkOk: bool)
    | Finish(now: int, reply: Reply, buildable: bool, persistOk: bool)
    | StartRelocation(now: int)
    | SpawnPass
    | Hear(client: Client)
    | DeleteHome

  /** Nothing happens while a resolution is in flight. The home for the new configuration is looked up
      in home.json, or, with a move pending, in memory, where it still counts if it answers. */
  function ReloadStep(s: State, loaded: Option<Config>, readable: bool, buildable: bool): State {
    if s.resolution.Some? || loaded.None? || (s.relocation.None? && !readable) then s
    else
      var config := loaded.value;
      var known :=
        if s.relocation.None? then Persisted(config, s.file)
        else if Answers(s.home, config) then Some(s.home) else None;
      if known.None? then s.(resolution := Some(Resolution(ForReload(config), config, s.config)))
      else if buildable then Adopt(s, config, known.value, ClientFor(s, config, known.value.home))
      else s
  }

  function NoticeStep(s: State, now: int, unlinkOk: bool): State {
    var t := s.(raised := s.raised - {s.client.signal});
    if s.client.signal in s.raised && s.relocation.None? then
      t.(relocation := Some(Relocation(now, RETRY_INITIAL)),
         file := if unlinkOk then None else s.file,
         discardFailed := !unlinkOk)
    else t
  }

  function Deferred(s: State, now: int): State {
    if s.relocation.Some? then s.(relocation := Some(BackOff(s.relocation.value, now))) else s
  }

  /** A pending move keeps its home out of home.json even when the resolver names it again. */
  function FinishReload(s: State, config: Config, home: Option<Home>, buildable: bool, persistOk: bool): State {
    if home.None? then s
    else
      var stillMoved := s.relocation.Some? && home.value.home == s.home.home;
      if !buildable || (!stillMoved && !persistOk) then s
      else
        var t := if stillMoved then s else s.(file := home);
        var u := if home.value.home != s.home.home then t.(relocation := None) else t;
        Adopt(u, config, home.value, ClientFor(s, config, home.value.home))
  }

  function FinishRelocation(s: State, now: int, home: Option<Home>, buildable: bool, persistOk: bool): State {
    if home.None? || home.value.home == s.home.home || !buildable || !persistOk then Deferred(s, now)
    else
      WithClient(s.(file := home, home := home.value, relocation := None),
                 ClientFor(s, s.config, home.value.home))
  }

  function FinishStep(s: State, now: int, reply: Reply, buildable: bool, persistOk: bool): State {
    if s.resolution.None? then s
    else
      var r := s.resolution.value;
      var t := s.(resolution := None);
      match r.purpose
      case ForReload(config) => FinishReload(t, config, Fetch(r.asked, reply), buildable, persistOk)
      case ForRelocation => FinishRelocation(t, now, Fetch(r.asked, reply), buildable, persistOk)
  }

  function StartStep(s: State, now: int): State {
    if s.resolution.None? && s.relocation.Some? && now >= s.relocation.value.notBefore
    then s.(resolution := Some(Resolution(ForRelocation, s.config, s.config)))
    else s
  }

  /** Only a client some worker was given can hear anything. */
  function Step(s: State, e: Event): State {
    match e
    case Reload(loaded, readable, buildable) => ReloadStep(s, loaded, readable, buildable)
    case NoticeMoved(now, unlinkOk) => NoticeStep(s, now, unlinkOk)
    case Finish(now, reply, buildable, persistOk) => FinishStep(s, now, reply, buildable, persistOk)
    case StartRelocation(now) => StartStep(s, now)
    case SpawnPass => s.(passes := s.passes + [Pass(s.generation, InputsOf(s))])
    case Hear(client) =>
      if client in s.issued then s.(raised := s.raised + {client.signal}, heard := s.heard + {client.signal}) else s
    case DeleteHome => s.(file := None)
  }

  function Run(s: State, events: seq<Event>): State {
    if events == [] then s else Step(Run(s, events[..|events| - 1]), events[|events| - 1])
  }

  // ---------------------------------------------------------------- what every step keeps

  /** The home, client and listener are those the configuration asks for. */
  ghost predicate Current(s: State) {
    && Answers(s.home, s.config)
    && s.client.settings == SettingsFor(s.config, s.home.home)
    && s.listener == StartListener(s.client, s.config)
  }

  /** A resolution in flight was started under the configuration still current, and one started
      for a move is only in flight while the move is pending. */
  ghost predicate ResolvesForCurrent(s: State) {
    s.resolution.Some? ==>
      var r := s.resolution.value;
      && r.startedUnder == s.config
      && (match r.purpose
          case ForReload(config) => r.asked == config
          case ForRelocation => r.asked == s.config && s.relocation.Some?)
  }

  /** While a move is pending home.json does not name the home that said so; otherwise it names
      the current home or is missing. */
  ghost predicate FileHonest(s: State) {
    && (s.relocation.Some? && s.file.Some? ==> s.discardFailed && s.file.value.home == s.home.home)
    && (s.relocation.None? && s.file.Some? ==> s.file.value == s.home)
    && (s.relocation.Some? ==> RETRY_INITIAL <= s.relocation.value.delay <= RETRY_MAX)
  }

  /** Signals belong to one stay at one home, and `moved` on the current one is never lost: it is
      waiting to be read or a relocation is pending, and neither happens otherwise. */
  ghost predicate SignalsKept(s: State) {
    && s.client in s.issued
    && (forall c | c in s.issued :: c.signal < s.signals)
    && (forall c | c in s.issued && c.signal == s.client.signal :: c.settings.home == s.home.home)
    && s.raised <= s.heard
    && (forall n | n in s.heard :: n < s.signals)
    && (s.relocation.Some? || s.client.signal in s.raised <==> s.client.signal in s.heard)
  }

  /** A pass holding the current generation has the inputs a new pass would get. */
  ghost predicate PassesCurrent(s: State) {
    forall p | p in s.passes ::
      p.generation <= s.generation && (p.generation == s.generation ==> p.inputs == InputsOf(s))
  }

  ghost predicate Good(s: State) {
    Current(s) && ResolvesForCurrent(s) && FileHonest(s) && SignalsKept(s) && PassesCurrent(s)
  }

  lemma StartedGood(config: Config, home: Home)
    requires Answers(home, config)
    ensures Good(Started(config, home))
  {
  }

  /** Adopting a home at the current origin: a worker holding any client of it is still heard. */
  lemma AdoptSameGood(s: State, config: Config, home: Home)
    requires Current(s) && s.resolution.None? && SignalsKept(s) && PassesCurrent(s)
    requires Answers(home, config) && home.home == s.home.home && FileHonest(s.(home := home))
    ensures Good(Adopt(s, config, home, ClientFor(s, config, home.home)))
  {
    var t := Adopt(s, config, home, ClientFor(s, config, home.home));
    assert t.client.signal == s.client.signal;
    assert SignalsKept(t);
    assert PassesCurrent(t);
  }

  /** Moving to another origin: the new client keeps its own signal and nothing is pending. */
  lemma AdoptMovedGood(s: State, config: Config, home: Home)
    requires Current(s) && s.resolution.None? && SignalsKept(s) && PassesCurrent(s)
    requires Answers(home, config) && home.home != s.home.home
    ensures Good(Adopt(s.(file := Some(home), relocation := None), config, home, ClientFor(s, config, home.home)))
  {
    var t := s.(file := Some(home), relocation := None);
    var client := ClientFor(s, config, home.home);
    assert ChangesJobs(t, config, client);
    assert client.signal !in s.heard;
  }

  lemma ReloadGood(s: State, loaded: Option<Config>, readable: bool, buildable: bool)
    requires Good(s)
    ensures Good(ReloadStep(s, loaded, readable, buildable))
  {
    var t := ReloadStep(s, loaded, readable, buildable);
    if t != s && t.resolution == s.resolution {
      AdoptSameGood(s, loaded.value, s.home);
    }
  }

  lemma NoticeGood(s: State, now: int, unlinkOk: bool)
    requires Good(s)
    ensures Good(NoticeStep(s, now, unlinkOk))
  {
  }

  lemma FinishReloadGood(s: State, config: Config, reply: Reply, buildable: bool, persistOk: bool)
    requires Good(s) && s.resolution.None?
    ensures Good(FinishReload(s, config, Fetch(config, reply), buildable, persistOk))
  {
    var home := Fetch(config, reply);
    if home.Some? && home.value.home != s.home.home {
      AdoptMovedGood(s, config, home.value);
    } else if home.Some? && s.relocation.Some? {
      AdoptSameGood(s, config, home.value);
    } else if home.Some? {
      AdoptSameGood(s.(file := home), config, home.value);
    }
  }

  lemma FinishRelocationGood(s: State, now: int, reply: Reply, buildable: bool, persistOk: bool)
    requires Good(s) && s.resolution.None?
    ensures Good(FinishRelocation(s, now, Fetch(s.config, reply), buildable, persistOk))
  {
  }

  lemma FinishGood(s: State, now: int, reply: Reply, buildable: bool, persistOk: bool)
    requires Good(s)
    ensures Good(FinishStep(s, now, reply, buildable, persistOk))
  {
    if s.resolution.Some? {
      var t := s.(resolution := None);
      assert Good(t);
      match s.resolution.value.purpose
      case ForReload(config) => FinishReloadGood(t, config, reply, buildable, persistOk);
      case ForRelocation => FinishRelocationGood(t, now, reply, buildable, persistOk);
    }
  }

  lemma HearGood(s: State, client: Client)
    requires Good(s)
    ensures Good(Step(s, Hear(client)))
  {
  }

  lemma PassGood(s: State)
    requires Good(s)
    ensures Good(Step(s, SpawnPass))
  {
  }

  lemma StepGood(s: State, e: Event)
    requires Good(s)
    ensures Good(Step(s, e))
  {
    match e
    case Reload(loaded, readable, buildable) => ReloadGood(s, loaded, readable, buildable);
    case NoticeMoved(now, unlinkOk) => NoticeGood(s, now, unlinkOk);
    case Finish(now, reply, buildable, persistOk) => FinishGood(s, now, reply, buildable, persistOk);
    case StartRelocation(now) =>
    case SpawnPass => PassGood(s);
    case Hear(client) => HearGood(s, client);
    case DeleteHome =>
  }

  // ---------------------------------------------------------------- what one step may change

  /** What a pass sends and runs. */
  function Sent(s: State): (Settings, map<string, string>, JobPolicy, Osquery) {
    (s.client.settings, s.config.labels, s.config.jobs, s.config.osquery)
  }

  ghost predicate GenerationFollows(s: State, t: State) {
    && t.generation == s.generation + (if Sent(t) == Sent(s) then 0 else 1)
    && (Sent(t) == Sent(s) ==> t.client == s.client && t.listener == s.listener)
  }

  ghost predicate SignalFollows(s: State, t: State) {
    && (t.client.signal == s.client.signal <==> t.home.home == s.home.home)
    && (t.client.signal == s.client.signal || t.client.signal == s.signals)
    && s.signals <= t.signals
    && s.issued <= t.issued
  }

  ghost predicate MoveFollows(s: State, t: State) {
    s.relocation.Some? && t.relocation.None? ==> t.home.home != s.home.home && t.file == Some(t.home)
  }

  ghost predicate Follows(s: State, t: State) {
    GenerationFollows(s, t) && SignalFollows(s, t) && MoveFollows(s, t)
  }

  /** `before` and `s` differ only in the file, the pending move and the resolution. */
  lemma AdoptFollows(before: State, s: State, config: Config, home: Home)
    requires Good(before)
    requires s == before.(file := s.file, relocation := s.relocation, resolution := s.resolution)
    requires before.relocation.Some? && s.relocation.None? ==> home.home != s.home.home && s.file == Some(home)
    ensures Follows(before, Adopt(s, config, home, ClientFor(before, config, home.home)))
  {
    var client := ClientFor(before, config, home.home);
    var t := Adopt(s, config, home, client);
    if ChangesJobs(s, config, client) {
      assert Sent(t) != Sent(before);
    } else {
      assert t.client == s.client;
    }
  }

  lemma ReloadFollows(s: State, loaded: Option<Config>, readable: bool, buildable: bool)
    requires Good(s)
    ensures Follows(s, ReloadStep(s, loaded, readable, buildable))
  {
    if loaded.Some? { AdoptFollows(s, s, loaded.value, s.home); }
  }

  lemma FinishReloadFollows(
    before: State, s: State, config: Config, home: Option<Home>, buildable: bool, persistOk: bool)
    requires Good(before) && s == before.(resolution := None)
    ensures Follows(before, FinishReload(s, config, home, buildable, persistOk))
  {
    if home.Some? {
      if home.value.home != s.home.home {
        AdoptFollows(before, s.(file := home, relocation := None), config, home.value);
      } else if s.relocation.Some? {
        AdoptFollows(before, s, config, home.value);
      } else {
        AdoptFollows(before, s.(file := home), config, home.value);
      }
    }
  }

  lemma FinishRelocationFollows(
    before: State, s: State, now: int, home: Option<Home>, buildable: bool, persistOk: bool)
    requires Good(before) && s == before.(resolution := None)
    ensures Follows(before, FinishRelocation(s, now, home, buildable, persistOk))
  {
  }

  /** The other steps leave the client, the generation and the home alone. */
  lemma QuietFollows(s: State, e: Event)
    requires !e.Reload? && !e.Finish?
    ensures Follows(s, Step(s, e))
  {
  }

  lemma StepFollows(s: State, e: Event)
    requires Good(s)
    ensures Follows(s, Step(s, e))
  {
    match e
    case Reload(loaded, readable, buildable) => ReloadFollows(s, loaded, readable, buildable);
    case Finish(now, reply, buildable, persistOk) =>
      if s.resolution.Some? {
        var r, t := s.resolution.value, s.(resolution := None);
        match r.purpose
        case ForReload(config) => FinishReloadFollows(s, t, config, Fetch(r.asked, reply), buildable, persistOk);
        case ForRelocation => FinishRelocationFollows(s, t, now, Fetch(r.asked, reply), buildable, persistOk);
      }
    case _ => QuietFollows(s, e);
  }

  // ---------------------------------------------------------------- whole runs

  ghost predicate Reachable(s: State) {
    exists config, home, events :: Answers(home, config) && s == Run(Started(config, home), events)
  }

  lemma {:induction false} RunGood(s: State, events: seq<Event>)
    requires Good(s)
    ensures Good(Run(s, events))
    decreases |events|
  {
    if events != [] {
      RunGood(s, events[..|events| - 1]);
      StepGood(Run(s, events[..|events| - 1]), events[|events| - 1]);
    }
  }

  lemma ReachableGood(s: State)
    requires Reachable(s)
    ensures Good(s)
  {
    var config, home, events :| Answers(home, config) && s == Run(Started(config, home), events);
    StartedGood(config, home);
    RunGood(Started(config, home), events);
  }

  /** In every reachable state with a move pending, home.json does not name the home that said so
      unless its unlink failed, and then it is what home.json names, if anything; and a resolution
      in flight was started under the configuration still current. */
  lemma PendingMoveIsForgotten(s: State)
    requires Reachable(s) && s.relocation.Some?
    ensures !s.discardFailed ==> s.file.None?
    ensures s.file.Some? ==> s.file.value.home == s.home.home
    ensures s.resolution.Some? ==> s.resolution.value.startedUnder == s.config
  {
    ReachableGood(s);
  }

  /** Only adopting a different home, already persisted, ends a pending move. */
  lemma OnlyAnotherHomeEndsAMove(s: State, e: Event)
    requires Reachable(s) && s.relocation.Some? && Step(s, e).relocation.None?
    ensures Step(s, e).home.home != s.home.home && Step(s, e).file == Some(Step(s, e).home)
  {
    ReachableGood(s);
    StepFollows(s, e);
  }

  /** After every step the live client sends like one built afresh from the configuration and home. */
  lemma ClientIsCurrent(s: State)
    requires Reachable(s)
    ensures s.client.settings == ClientFor(s, s.config, s.home.home).settings
    ensures ClientFor(s, s.config, s.home.home) == s.client
    ensures Answers(s.home, s.config) && s.listener == StartListener(s.client, s.config)
  {
    ReachableGood(s);
  }

  /** In every reachable state the client sends to the current home, with the key, installation, timeout
      and attempts of the current configuration; there is a listener exactly when some known job is
      enabled, and it connects as the client does. */
  lemma SendsItsConfiguration(s: State)
    requires Reachable(s)
    ensures s.client.settings.home == s.home.home
    ensures s.client.settings.intakeKey == s.config.intakeKey
    ensures s.client.settings.installationId == s.config.installationId
    ensures s.client.settings.requestTimeout == s.config.requestTimeout
    ensures s.client.settings.maxRetryAttempts == s.config.maxRetryAttempts
    ensures s.listener.Some? <==>
            exists job ::
              job in s.config.jobs.enabled && (job == "inventory.collect" || job in s.config.osquery.queries)
    ensures s.listener.Some? ==>
              var e := s.listener.value;
              && e.home == s.home.home && e.intakeKey == s.config.intakeKey
              && e.installationId == s.config.installationId && e.timeout == s.config.requestTimeout
  {
    ReachableGood(s);
    var jobs := EnabledJobs(s.config);
    forall job
      ensures job in jobs <==>
              job in s.config.jobs.enabled && (job == "inventory.collect" || job in s.config.osquery.queries)
    {
    }
    if jobs != {} {
      var job :| job in jobs;
    }
  }

  /** What a pass sends is the same in two states: the home's origin, the client's part of the
      configuration, and the labels, jobs and queries. */
  ghost predicate SendsAlike(s: State, t: State) {
    && t.home.home == s.home.home
    && t.config.intakeKey == s.config.intakeKey && t.config.installationId == s.config.installationId
    && t.config.requestTimeout == s.config.requestTimeout && t.config.maxRetryAttempts == s.config.maxRetryAttempts
    && t.config.labels == s.config.labels && t.config.jobs == s.config.jobs && t.config.osquery == s.config.osquery
  }

  /** A step advances the generation exactly when one of these changed; otherwise the client and the
      socket stay as they are. */
  lemma GenerationAdvancesExactly(s: State, e: Event)
    requires Reachable(s)
    ensures var t := Step(s, e);
            && t.generation == s.generation + (if SendsAlike(s, t) then 0 else 1)
            && (SendsAlike(s, t) ==> t.client == s.client && t.listener == s.listener)
  {
    var t := Step(s, e);
    ReachableStep(s, e);
    SendsItsConfiguration(s);
    SendsItsConfiguration(t);
    GenerationTracksInputs(s, e);
    assert Sent(t) == Sent(s) <==> SendsAlike(s, t);
  }

  /** The generation advances exactly on the steps that change what a pass is built from. */
  lemma GenerationTracksInputs(s: State, e: Event)
    requires Reachable(s)
    ensures Step(s, e).generation == s.generation + if Sent(Step(s, e)) == Sent(s) then 0 else 1
    ensures Sent(Step(s, e)) == Sent(s) ==> Step(s, e).client == s.client && Step(s, e).listener == s.listener
  {
    ReachableGood(s);
    StepFollows(s, e);
  }

  /** So a pass that still holds the current generation has the inputs a new pass would get, after
      any number of reloads, moves and late answers. */
  lemma CurrentPassHasCurrentInputs(s: State, p: Pass)
    requires Reachable(s) && p in s.passes && p.generation == s.generation
    ensures p.inputs.client == s.client && p.inputs.labels == s.config.labels
    ensures p.inputs.jobs == s.config.jobs && p.inputs.osquery == s.config.osquery
  {
    ReachableGood(s);
  }

  /** A move is pending or waiting to be noticed exactly when the home was heard to say so through
      a client sharing the current client's signal, and every such client sends to the current
      home. */
  lemma MoveHeardIffPending(s: State)
    requires Reachable(s)
    ensures s.relocation.Some? || s.client.signal in s.raised <==> s.client.signal in s.heard
    ensures forall c | c in s.issued && c.signal == s.client.signal :: c.settings.home == s.home.home
  {
    ReachableGood(s);
  }

  /** A relocation starts only by reading a `moved` noted on the current signal. */
  lemma RelocationStartsFromCurrentHome(s: State, e: Event)
    requires Reachable(s) && s.relocation.None? && Step(s, e).relocation.Some?
    ensures e.NoticeMoved? && s.client.signal in s.raised && s.client.signal in s.heard
    ensures Step(s, e).home == s.home && Step(s, e).client == s.client
  {
    ReachableGood(s);
  }

  /** The signal changes exactly when the home does, and then to one no client had. */
  lemma SignalChangesWithHome(s: State, e: Event)
    requires Reachable(s)
    ensures Step(s, e).client.signal == s.client.signal <==> Step(s, e).home.home == s.home.home
    ensures Step(s, e).client.signal == s.client.signal || Step(s, e).client.signal == s.signals
    ensures s.signals <= Step(s, e).signals && s.issued <= Step(s, e).issued
  {
    ReachableGood(s);
    StepFollows(s, e);
  }

  lemma ReachableStep(s: State, e: Event)
    requires Reachable(s)
    ensures Reachable(Step(s, e))
  {
    var config, home, events :| Answers(home, config) && s == Run(Started(config, home), events);
    assert (events + [e])[..|events|] == events;
    assert Step(s, e) == Run(Started(config, home), events + [e]);
  }

  lemma {:induction false} ReachableRun(s: State, events: seq<Event>)
    requires Reachable(s)
    ensures Reachable(Run(s, events))
    decreases |events|
  {
    if events != [] {
      ReachableRun(s, events[..|events| - 1]);
      ReachableStep(Run(s, events[..|events| - 1]), events[|events| - 1]);
    }
  }

  /** What a client of another signal hears leaves the relocation as it would have been. */
  lemma OtherSignalIgnored(s: State, late: Client, now: int, unlinkOk: bool)
    requires late.signal != s.client.signal
    ensures NoticeStep(Step(s, Hear(late)), now, unlinkOk).relocation == NoticeStep(s, now, unlinkOk).relocation
    ensures NoticeStep(Step(s, Hear(late)), now, unlinkOk).file == NoticeStep(s, now, unlinkOk).file
  {
  }

  /** A signal that is not current never becomes current again, not even after moving back to its
      home, so a late answer from a stay already left never starts a relocation. */
  lemma LateAnswersAreIgnored(s: State, events: seq<Event>, late: Client, now: int, unlinkOk: bool)
    requires Reachable(s) && late in s.issued && late.signal != s.client.signal
    ensures var t := Run(s, events);
            && late in t.issued && late.signal != t.client.signal
            && NoticeStep(Step(t, Hear(late)), now, unlinkOk).relocation == NoticeStep(t, now, unlinkOk).relocation
  {
    StaySignalNeverReturns(s, events, late);
    OtherSignalIgnored(Run(s, events), late, now, unlinkOk);
  }

  lemma {:induction false} StaySignalNeverReturns(s: State, events: seq<Event>, late: Client)
    requires Reachable(s) && late in s.issued && late.signal != s.client.signal
    ensures late in Run(s, events).issued && late.signal != Run(s, events).client.signal
    decreases |events|
  {
    if events != [] {
      var before, e := Run(s, events[..|events| - 1]), events[|events| - 1];
      StaySignalNeverReturns(s, events[..|events| - 1], late);
      ReachableRun(s, events[..|events| - 1]);
      IssuedSignals(before, late);
      SignalChangesWithHome(before, e);
    }
  }

  lemma IssuedSignals(s: State, c: Client)
    requires Reachable(s) && c in s.issued
    ensures c.signal < s.signals
  {
    ReachableGood(s);
  }

  /** At shutdown a `moved` still waiting on the current signal discards the persisted home. */
  function Stopped(s: State, unlinkOk: bool): State {
    if s.client.signal in s.raised && unlinkOk then s.(file := None) else s
  }

  /** A stop touches nothing but home.json, and that only when a move is still to be read. */
  lemma StopKeepsHome(s: State, unlinkOk: bool)
    requires Reachable(s)
    ensures Stopped(s, unlinkOk) == s.(file := Stopped(s, unlinkOk).file)
    ensures Stopped(s, unlinkOk).file != s.file ==>
              unlinkOk && s.client.signal in s.raised && s.client.signal in s.heard && Stopped(s, unlinkOk).file.None?
  {
    ReachableGood(s);
  }

  /** Nothing heard is lost at shutdown: the next start asks the resolver again. */
  lemma StopForgetsMovedHome(s: State)
    requires Reachable(s) && s.client.signal in s.heard && (s.relocation.Some? ==> !s.discardFailed)
    ensures Stopped(s, true).file.None?
  {
    ReachableGood(s);
  }

  // ---------------------------------------------------------------- home.json while a move is pending

  /** A move that begins leaves home.json naming its home exactly when the file was there and could
      not be unlinked. */
  lemma MoveBegins(s: State, now: int, unlinkOk: bool)
    requires Reachable(s) && s.relocation.None? && s.client.signal in s.raised
    ensures var t := Step(s, NoticeMoved(now, unlinkOk));
            && t.relocation.Some? && t.home == s.home
            && (t.file.Some? <==> s.file.Some? && !unlinkOk)
            && (t.file.Some? ==> t.file.value == s.home)
  {
    ReachableGood(s);
  }

  /** No step of `events` from `s` leaves the move no longer pending. */
  ghost predicate StaysPending(s: State, events: seq<Event>) {
    s.relocation.Some? && forall n | 0 <= n <= |events| :: Run(s, events[..n]).relocation.Some?
  }

  lemma AdoptKeepsFile(s: State, config: Config, home: Home, client: Client)
    ensures var t := Adopt(s, config, home, client); t.file == s.file && t.home == home && t.relocation == s.relocation
  {
  }

  lemma PendingReload(s: State, loaded: Option<Config>, readable: bool, buildable: bool)
    requires s.relocation.Some?
    ensures var t := ReloadStep(s, loaded, readable, buildable); t.file == s.file && t.home.home == s.home.home
  {
    if loaded.Some? { AdoptKeepsFile(s, loaded.value, s.home, ClientFor(s, loaded.value, s.home.home)); }
  }

  lemma PendingFinish(s: State, now: int, reply: Reply, buildable: bool, persistOk: bool)
    requires s.relocation.Some?
    ensures var t := FinishStep(s, now, reply, buildable, persistOk);
            t.relocation.Some? ==> t.file == s.file && t.home.home == s.home.home
  {
    if s.resolution.Some? && s.resolution.value.purpose.ForReload? {
      var config, home := s.resolution.value.purpose.newConfig, Fetch(s.resolution.value.asked, reply);
      var t := s.(resolution := None);
      if home.Some? {
        var client := ClientFor(t, config, home.value.home);
        AdoptKeepsFile(t, config, home.value, client);
        AdoptKeepsFile(t.(file := home, relocation := None), config, home.value, client);
      }
    }
  }

  lemma PendingStep(s: State, e: Event)
    requires s.relocation.Some? && Step(s, e).relocation.Some?
    ensures Step(s, e).file == if e.DeleteHome? then None else s.file
    ensures Step(s, e).home.home == s.home.home
  {
    match e
    case Reload(loaded, readable, buildable) => PendingReload(s, loaded, readable, buildable);
    case Finish(now, reply, buildable, persistOk) => PendingFinish(s, now, reply, buildable, persistOk);
    case _ =>
  }

  /** While the move stays pending, home.json stays as the move left it until somebody deletes it. */
  lemma {:induction false} PendingFile(s: State, events: seq<Event>)
    requires StaysPending(s, events)
    ensures Run(s, events).file == if DeleteHome in events then None else s.file
    ensures Run(s, events).home.home == s.home.home
    decreases |events|
  {
    if events != [] {
      var n := |events| - 1;
      assert events == events[..n] + [events[n]];
      assert forall m | 0 <= m <= n :: events[..n][..m] == events[..m];
      assert events[..|events|] == events;
      PendingFile(s, events[..n]);
      assert Run(s, events[..n]).relocation.Some? && Run(s, events).relocation.Some?;
      PendingStep(Run(s, events[..n]), events[n]);
    }
  }

  /** A start, a moved answer and an unlink that fails: home.json names the home that said moved. */
  lemma FailedUnlinkKeepsMovedHome(config: Config, home: Home) returns (s: State)
    requires Answers(home, config)
    ensures Reachable(s) && s.relocation.Some? && s.client.signal in s.heard && s.file == Some(s.home) == Some(home)
  {
    var start := Started(config, home);
    assert start == Run(start, []);
    ReachableStep(start, Hear(start.client));
    var told := Step(start, Hear(start.client));
    ReachableStep(told, NoticeMoved(0, false));
    s := Step(told, NoticeMoved(0, false));
  }

  // ---------------------------------------------------------------- what the parts of a step promise

  /** Once noticed, every move heard from the current home is pending and none is unread. */
  lemma NoticedAll(s: State, now: int, unlinkOk: bool)
    requires SignalsKept(s)
    ensures var t := NoticeStep(s, now, unlinkOk);
            && t.client.signal !in t.raised && (t.relocation.Some? <==> t.client.signal in t.heard)
            && (s.relocation.None? && t.relocation.Some? ==> t.relocation.value == Relocation(now, 30_000))
  {
  }

  /** A reload's reply can be used: it names an allowed home whose client can be built and which can be
      persisted, unless it is the home that said moved, which is not. */
  predicate Resolves(s: State, config: Config, reply: Reply, buildable: bool, persistOk: bool) {
    && reply.Reply? && Allowed(reply.origin, config) && buildable
    && (persistOk || (s.relocation.Some? && reply.origin == s.home.home))
  }

  /** A resolved reload is adopted whole or not at all; a pending move ends only with another home,
      already in home.json, and otherwise leaves home.json alone. */
  lemma ReloadTakenUp(s: State, config: Config, reply: Reply, buildable: bool, persistOk: bool)
    requires Good(s) && s.resolution.None?
    ensures var t := FinishReload(s, config, Fetch(config, reply), buildable, persistOk);
            && Good(t)
            && (t == s || (t.config == config && Answers(t.home, config)))
            && (Resolves(s, config, reply, buildable, persistOk) ==>
                  t.config == config && Fetch(config, reply) == Some(t.home))
            && (!Resolves(s, config, reply, buildable, persistOk) ==> t == s)
            && (Usable(s.(config := config), reply, buildable, persistOk) ==>
                  t.config == config && t.relocation.None? && Fetch(config, reply) == Some(t.home) == t.file)
            && (s.relocation.Some? && t.relocation.None? ==> t.home.home != s.home.home && t.file == Some(t.home))
            && (s.relocation.Some? && t.relocation.Some? ==> t.file == s.file && t.home.home == s.home.home)
  {
    FinishReloadGood(s, config, reply, buildable, persistOk);
    var home := Fetch(config, reply);
    if home.Some? {
      var client := ClientFor(s, config, home.value.home);
      AdoptKeepsFile(s, config, home.value, client);
      AdoptKeepsFile(s.(file := home), config, home.value, client);
      AdoptKeepsFile(s.(file := home, relocation := None), config, home.value, client);
    }
  }

  /** The reply names another home that is allowed, its client can be built and it can be persisted. */
  predicate Usable(s: State, reply: Reply, buildable: bool, persistOk: bool) {
    var home := Fetch(s.config, reply);
    home.Some? && home.value.home != s.home.home && buildable && persistOk
  }

  /** A usable reply, and no other, ends a move: the home it names is taken up and persisted, under a
      signal nobody has heard on. Any other leaves all but the next attempt as it was. */
  lemma MoveTakenUp(s: State, now: int, reply: Reply, buildable: bool, persistOk: bool)
    requires Good(s) && s.resolution.None?
    ensures var t := FinishRelocation(s, now, Fetch(s.config, reply), buildable, persistOk);
            && Good(t)
            && (t.home.home != s.home.home <==> Usable(s, reply, buildable, persistOk))
            && (t.home.home != s.home.home ==>
                  && Fetch(s.config, reply) == Some(t.home) == t.file
                  && t.relocation.None? && t.client.signal !in t.heard && t.generation == s.generation + 1)
            && (t.home.home == s.home.home ==> t == s.(relocation := t.relocation))
            && (t.home.home == s.home.home && s.relocation.Some? ==>
                  t.relocation.Some? && now + RETRY_INITIAL <= t.relocation.value.notBefore <= now + RETRY_MAX)
  {
    FinishRelocationGood(s, now, reply, buildable, persistOk);
  }

  /** What a reload does, told from the state before: nothing while a resolution is in flight, without a
      configuration, or when home.json is needed and cannot be read. With the home in home.json, or
      with a move pending the home in use, still answering, it is adopted at once if its client can be
      built. Otherwise a resolution for it starts and nothing else changes. */
  lemma ReloadExactly(s: State, config: Config, readable: bool, buildable: bool)
    requires Good(s)
    ensures Step(s, Reload(None, readable, buildable)) == s
    ensures var t := Step(s, Reload(Some(config), readable, buildable));
            var known := if s.relocation.Some? then true else s.file.Some?;
            if s.resolution.Some? || (s.relocation.None? && !readable) then t == s
            else if known && Answers(s.home, config) then
              if buildable then t.config == config && t.home == s.home && t.resolution.None? else t == s
            else
              && t == s.(resolution := t.resolution)
              && t.resolution == Some(Resolution(ForReload(config), config, s.config))
  {
  }

  /** A move's resolution starts exactly when the move is due and none is in flight. */
  lemma StartsExactlyWhenDue(s: State, now: int)
    ensures var t := Step(s, StartRelocation(now));
            && t == s.(resolution := t.resolution)
            && (t != s <==> s.resolution.None? && s.relocation.Some? && now >= s.relocation.value.notBefore)
            && (t != s ==> t.resolution == Some(Resolution(ForRelocation, s.config, s.config)))
  {
  }

  /** A pending move after resolutions that failed at `times`. */
  function AfterFailures(s: State, times: seq<int>): State {
    if times == [] then s
    else FinishRelocation(AfterFailures(s, times[..|times| - 1]), times[|times| - 1], None, false, false)
  }

  /** How long a move waits after its failed resolution number `k`, from zero: half a minute, doubling
      up to a quarter of an hour. */
  function MoveWait(k: nat): nat {
    match k
    case 0 => 30_000
    case 1 => 60_000
    case 2 => 120_000
    case 3 => 240_000
    case 4 => 480_000
    case _ => 900_000
  }

  /** After every number of failures, the next attempt is due exactly the wait of the last one later. */
  lemma {:induction false} MoveWaits(s: State, times: seq<int>)
    requires s.relocation.Some? && s.relocation.value.delay == 30_000
    ensures var r := AfterFailures(s, times).relocation;
            && r.Some? && r.value.delay == MoveWait(|times|)
            && (times != [] ==> r.value.notBefore == times[|times| - 1] + MoveWait(|times| - 1))
    decreases |times|
  {
    if times != [] { MoveWaits(s, times[..|times| - 1]); }
  }

  // ---------------------------------------------------------------- appending runs

  lemma {:induction false} RunAppend(s: State, first: seq<Event>, second: seq<Event>)
    ensures Run(s, first + second) == Run(Run(s, first), second)
    decreases |second|
  {
    if second == [] {
      assert first + second == first;
    } else {
      var n := |second| - 1;
      assert (first + second)[..|first| + n] == first + second[..n];
      RunAppend(s, first, second[..n]);
    }
  }

  /** Whether every unlink in a run succeeds. */
  predicate UnlinksOk(events: seq<Event>) {
    forall i | 0 <= i < |events| && events[i].NoticeMoved? :: events[i].unlinkOk
  }

  lemma {:induction false} NoFailedUnlink(s: State, events: seq<Event>)
    requires !s.discardFailed && UnlinksOk(events)
    ensures !Run(s, events).discardFailed
    decreases |events|
  {
    if events != [] {
      var n := |events| - 1;
      assert forall i | 0 <= i < n :: events[..n][i] == events[i];
      NoFailedUnlink(s, events[..n]);
      KeepsDiscarded(Run(s, events[..n]), events[n]);
    }
  }

  lemma KeepsDiscarded(s: State, e: Event)
    requires !s.discardFailed && (e.NoticeMoved? ==> e.unlinkOk)
    ensures !Step(s, e).discardFailed
  {
  }

  /** With every unlink succeeding, home.json names after a stop nothing but the current home, and
      only if it was never heard to say moved. */
  lemma StopLeavesHonestFile(s: State)
    requires Reachable(s) && !s.discardFailed
    ensures var file := Stopped(s, true).file; file.Some? ==> file.value == s.home && s.client.signal !in s.heard
  {
    ReachableGood(s);
  }
}
