/** The daemon loop (agent/src/main.rs): the variables it updates, the parts of an iteration, each
    proved to be the corresponding step of `DaemonState`, and the loop itself up to the stop.
 */
module Daemon {
  import opened Options
  import opened Home
  import opened DaemonState

  // ---------------------------------------------------------------- what an iteration meets

  /** What may happen beside the loop at any moment: a worker hears `moved` through the client it
      holds, or somebody deletes home.json. */
  datatype Outside = Heard(client: Client) | Deleted

  /** A due job: a check-in, which may lease work, a reload with what it finds, or delivery work,
      which touches none of the loop's variables. */
  datatype Job = CheckIn(leases: bool) | ReloadDue(loaded: Option<Config>, readable: bool, buildable: bool) | Delivery

  /** How a resolution in flight ended. */
  datatype Finished = Finished(now: int, reply: Reply, buildable: bool, persistOk: bool)

  /** One iteration: the due jobs with what happens after each, and the rest in the loop's order. */
  datatype Tick = Tick(
    jobs: seq<(Job, seq<Outside>)>,
    noticedAt: int, unlinkOk: bool, afterNotice: seq<Outside>,
    finished: Option<Finished>, afterFinish: seq<Outside>,
    startAt: int, leases: bool, asleep: seq<Outside>)

  function OutsideEvent(o: Outside): Event {
    match o
    case Heard(client) => Hear(client)
    case Deleted => DeleteHome
  }

  function OutsideEvents(happened: seq<Outside>): seq<Event> {
    seq(|happened|, i requires 0 <= i < |happened| => OutsideEvent(happened[i]))
  }

  function JobEvents(job: Job): seq<Event> {
    match job
    case CheckIn(leases) => if leases then [SpawnPass] else []
    case ReloadDue(loaded, readable, buildable) => [Reload(loaded, readable, buildable)]
    case Delivery => []
  }

  function JobsEvents(jobs: seq<(Job, seq<Outside>)>): seq<Event> {
    if jobs == [] then []
    else
      var n := |jobs| - 1;
      JobsEvents(jobs[..n]) + JobEvents(jobs[n].0) + OutsideEvents(jobs[n].1)
  }

  function FinishEvents(finished: Option<Finished>): seq<Event> {
    match finished
    case None => []
    case Some(f) => [Finish(f.now, f.reply, f.buildable, f.persistOk)]
  }

  /** The events of one iteration, in the loop's order. */
  function TickEvents(t: Tick): seq<Event> {
    JobsEvents(t.jobs)
    + ([NoticeMoved(t.noticedAt, t.unlinkOk)] + OutsideEvents(t.afterNotice))
    + (FinishEvents(t.finished) + OutsideEvents(t.afterFinish))
    + ([StartRelocation(t.startAt)] + (if t.leases then [SpawnPass] else []) + OutsideEvents(t.asleep))
  }

  function TicksEvents(ticks: seq<Tick>): seq<Event> {
    if ticks == [] then [] else TicksEvents(ticks[..|ticks| - 1]) + TickEvents(ticks[|ticks| - 1])
  }

  /** A move that is due to be resolved is being resolved. */
  predicate DueInFlight(s: State, now: int) {
    s.relocation.Some? && now >= s.relocation.value.notBefore ==> s.resolution.Some?
  }

  /** An iteration takes up an answer for a move: one in flight at its start, with a usable reply. */
  ghost predicate Answered(s: State, t: Tick) {
    && s.resolution.Some? && s.resolution.value.purpose == ForRelocation
    && t.finished.Some?
    && Usable(s, t.finished.value.reply, t.finished.value.buildable, t.finished.value.persistOk)
  }

  /** The home it names is the one in use, no move is pending, and home.json names no other. */
  ghost predicate Moved(s: State, t: Tick, end: State)
    requires t.finished.Some?
  {
    && Fetch(s.config, t.finished.value.reply) == Some(end.home)
    && end.home.home != s.home.home
    && end.relocation.None?
    && (end.file.None? || end.file == Some(end.home))
  }

  /** A move heard from the home in use by the end of the jobs is pending, or made, at the end of the same
      iteration. */
  ghost predicate TakenNoticeOf(s: State, t: Tick, end: State) {
    var jobs := Run(s, JobsEvents(t.jobs));
    jobs.client.signal in jobs.heard ==> end.relocation.Some? || end.home.home != jobs.home.home
  }

  lemma RunOne(s: State, e: Event)
    ensures Run(s, [e]) == Step(s, e)
  {
    assert [e][..0] == [];
    assert Run(s, []) == s;
  }

  class Process {
    var config: Config
    var home: Home
    var file: Option<Home>
    var client: Client
    var relocation: Option<Relocation>
    var resolution: Option<Resolution>
    var generation: nat
    var listener: Option<Endpoint>
    var signals: nat
    var raised: set<nat>
    var issued: set<Client>
    ghost var discardFailed: bool
    ghost var heard: set<nat>
    ghost var passes: seq<Pass>

    ghost function View(): State
      reads this
    {
      State(config, home, file, client, relocation, resolution, generation, listener,
            signals, raised, discardFailed, issued, heard, passes)
    }

    ghost predicate Valid()
      reads this
    {
      Reachable(View())
    }

    /** Startup, once a home was resolved and persisted. */
    constructor (config: Config, home: Home)
      requires Answers(home, config)
      ensures Valid() && View() == Started(config, home)
      ensures this.config == config && this.home == home && file == Some(home) && relocation.None?
      ensures client.settings.home == home.home && client.signal !in heard && !discardFailed
    {
      var client := Client(SettingsFor(config, home.home), 0);
      this.config, this.home, this.file := config, home, Some(home);
      this.client := client;
      relocation, resolution, generation := None, None, 0;
      listener := StartListener(client, config);
      signals, raised := 1, {};
      discardFailed, issued, heard, passes := false, {client}, {}, [];
      new;
      assert View() == Run(Started(config, home), []);
    }

    // -------------------------------------------------------------- clients

    /** A client for `origin`. It shares the current signal exactly at the current home, and whoever
        shares its signal sends to `origin`. */
    method BuildClient(config: Config, origin: Origin) returns (built: Client)
      requires Current(View()) && SignalsKept(View())
      ensures built == ClientFor(View(), config, origin)
      ensures built.settings.home == origin && built.settings.intakeKey == config.intakeKey
      ensures built.settings.installationId == config.installationId
      ensures built.settings.requestTimeout == config.requestTimeout
      ensures built.settings.maxRetryAttempts == config.maxRetryAttempts
      ensures built.signal == client.signal <==> origin == home.home
      ensures forall c | c in issued && c.signal == built.signal :: c.settings.home == built.settings.home == origin
      ensures built.signal in heard ==> origin == home.home
    {
      var settings := SettingsFor(config, origin);
      var signal := signals;
      if settings.home == client.settings.home {
        signal := client.signal;
      }
      built := Client(settings, signal);
    }

    /** Makes a client live. No pass started before holds the new generation, and no later client
        can be given its signal by accident. */
    method ReplaceClient(newClient: Client)
      requires newClient.signal <= signals && forall c | c in issued :: c.signal < signals
      requires forall p | p in passes :: p.generation <= generation
      modifies this`client, this`generation, this`listener, this`signals, this`issued
      ensures View() == WithClient(old(View()), newClient)
      ensures forall p | p in passes :: p.generation < generation
      ensures client in issued && (forall c | c in issued :: c.signal < signals)
    {
      if newClient.signal == signals {
        signals := signals + 1;
      }
      client := newClient;
      generation := generation + 1;
      listener := None;
      listener := StartListener(client, config);
      issued := issued + {newClient};
    }

    /** Makes a configuration, its home and a client for them current. The live client sends like the
        new one in any case; when nothing a pass is built from changed, it stays the old one. */
    method AdoptReload(newConfig: Config, newHome: Home, newClient: Client)
      requires newClient.signal <= signals && forall c | c in issued :: c.signal < signals
      requires forall p | p in passes :: p.generation <= generation
      modifies this`config, this`home, this`client, this`generation, this`listener, this`signals, this`issued
      ensures View() == Adopt(old(View()), newConfig, newHome, newClient)
      ensures client.settings == newClient.settings && config == newConfig && home == newHome
      ensures Sent(View()) == Sent(old(View())) ==>
                client == old(client) && generation == old(generation) && listener == old(listener)
      ensures Sent(View()) != Sent(old(View())) ==>
                && client == newClient && listener == StartListener(client, config)
                && forall p | p in passes :: p.generation < generation
    {
      var jobsChanged :=
        || client.settings != newClient.settings
        || config.labels != newConfig.labels
        || config.jobs != newConfig.jobs
        || config.osquery != newConfig.osquery;
      config := newConfig;
      home := newHome;
      if jobsChanged {
        ReplaceClient(newClient);
      }
    }

    // -------------------------------------------------------------- the parts of an iteration

    /** The reload job. */
    method ReloadJob(loaded: Option<Config>, readable: bool, buildable: bool)
      requires Valid()
      modifies this
      ensures Valid() && View() == Step(old(View()), Reload(loaded, readable, buildable))
    {
      ReachableGood(View());
      ReachableStep(View(), Reload(loaded, readable, buildable));
      if resolution.Some? || loaded.None? {
        return;
      }
      var newConfig := loaded.value;
      var known: Option<Home> := None;
      if relocation.Some? {
        if Answers(home, newConfig) {
          known := Some(home);
        }
      } else if readable {
        known := Persisted(newConfig, file);
      } else {
        return;
      }
      if known.None? {
        resolution := Some(Resolution(ForReload(newConfig), newConfig, config));
      } else if buildable {
        var newClient := BuildClient(newConfig, known.value.home);
        AdoptReload(newConfig, known.value, newClient);
      }
    }

    /** Reads and clears the current client's signal. With no move pending it reads true exactly when
        the current home was heard to say moved; no other signal is touched. */
    method TakeMoved() returns (moved: bool)
      requires SignalsKept(View())
      modifies this`raised
      ensures moved == (client.signal in old(raised)) && raised == old(raised) - {client.signal}
      ensures relocation.None? ==> (moved <==> client.signal in heard)
      ensures moved ==> forall c | c in issued && c.signal == client.signal :: c.settings.home == home.home
    {
      moved := client.signal in raised;
      raised := raised - {client.signal};
    }

    /** Afterwards every move heard from the current home is pending and none is unread. */
    method NoticeMoves(now: int, unlinkOk: bool)
      requires Valid()
      modifies this
      ensures Valid() && View() == Step(old(View()), NoticeMoved(now, unlinkOk))
      ensures client.signal !in raised && (relocation.Some? <==> client.signal in heard)
    {
      ghost var before := View();
      assert SignalsKept(before) by { ReachableGood(before); }
      ReachableStep(before, NoticeMoved(now, unlinkOk));
      var moved := TakeMoved();
      if moved && relocation.None? {
        if unlinkOk {
          file := None;
        }
        discardFailed := !unlinkOk;
        relocation := Some(Relocation(now, RETRY_INITIAL));
      }
      NoticedAll(before, now, unlinkOk);
    }

    /** Defers the next resolution of a pending move: it stays pending, is not asked for again before
        the shortest wait nor later than the longest, and no wait is shorter than the last. */
    method DeferRelocation(now: int)
      requires relocation.Some? ==> RETRY_INITIAL <= relocation.value.delay <= RETRY_MAX
      modifies this`relocation
      ensures View() == Deferred(old(View()), now)
      ensures relocation.Some? <==> old(relocation).Some?
      ensures relocation.Some? ==>
                && now + RETRY_INITIAL <= relocation.value.notBefore <= now + RETRY_MAX
                && old(relocation).value.delay <= relocation.value.delay <= RETRY_MAX
    {
      if relocation.Some? {
        relocation := Some(BackOff(relocation.value, now));
      }
    }

    /** Takes up the home resolved for a reloaded configuration: all of it or nothing. A pending move
        ends only with another home, already in home.json, and otherwise leaves home.json alone. */
    method TakeUpReload(newConfig: Config, reply: Reply, buildable: bool, persistOk: bool)
      requires Good(View()) && resolution.None?
      modifies this
      ensures View() == FinishReload(old(View()), newConfig, Fetch(newConfig, reply), buildable, persistOk)
      ensures Good(View())
      ensures View() == old(View()) || (config == newConfig && Answers(home, newConfig))
      ensures old(relocation).Some? && relocation.None? ==> home.home != old(home).home && file == Some(home)
      ensures old(relocation).Some? && relocation.Some? ==> file == old(file) && home.home == old(home).home
    {
      ghost var before := View();
      UseReload(newConfig, Fetch(newConfig, reply), buildable, persistOk);
      ReloadTakenUp(before, newConfig, reply, buildable, persistOk);
    }

    method UseReload(newConfig: Config, fetched: Option<Home>, buildable: bool, persistOk: bool)
      requires Current(View()) && SignalsKept(View()) && PassesCurrent(View())
      modifies this
      ensures View() == FinishReload(old(View()), newConfig, fetched, buildable, persistOk)
    {
      if fetched.None? || !buildable {
        return;
      }
      var newHome := fetched.value;
      var stillMoved := relocation.Some? && newHome.home == home.home;
      var newClient := BuildClient(newConfig, newHome.home);
      if !stillMoved {
        if !persistOk {
          return;
        }
        file := fetched;
      }
      if newHome.home != home.home {
        relocation := None;
      }
      AdoptReload(newConfig, newHome, newClient);
    }

    /** Takes up the answer to a move: another home, once persisted, ends the move under a
        signal nobody has heard on; anything else leaves all but the next attempt as it was. */
    method TakeUpMove(now: int, reply: Reply, buildable: bool, persistOk: bool)
      requires Good(View()) && resolution.None?
      modifies this
      ensures View() == FinishRelocation(old(View()), now, Fetch(config, reply), buildable, persistOk)
      ensures Good(View()) && config == old(config)
      ensures home.home != old(home).home ==>
                && relocation.None? && file == Some(home) && client.signal !in heard
                && generation == old(generation) + 1
      ensures home.home == old(home).home ==> View() == old(View()).(relocation := relocation)
      ensures home.home == old(home).home && old(relocation).Some? ==>
                relocation.Some? && now + RETRY_INITIAL <= relocation.value.notBefore <= now + RETRY_MAX
    {
      ghost var before := View();
      UseMove(now, Fetch(config, reply), buildable, persistOk);
      MoveTakenUp(before, now, reply, buildable, persistOk);
    }

    method UseMove(now: int, fetched: Option<Home>, buildable: bool, persistOk: bool)
      requires Current(View()) && SignalsKept(View()) && PassesCurrent(View()) && FileHonest(View())
      modifies this
      ensures View() == FinishRelocation(old(View()), now, fetched, buildable, persistOk)
    {
      if fetched.None? || fetched.value.home == home.home || !buildable || !persistOk {
        DeferRelocation(now);
        return;
      }
      var newClient := BuildClient(config, fetched.value.home);
      file := fetched;
      home := fetched.value;
      relocation := None;
      ReplaceClient(newClient);
    }

    /** Takes up a finished resolution. */
    method FinishResolution(now: int, reply: Reply, buildable: bool, persistOk: bool)
      requires Valid()
      modifies this
      ensures Valid() && View() == Step(old(View()), Finish(now, reply, buildable, persistOk))
    {
      ReachableGood(View());
      ReachableStep(View(), Finish(now, reply, buildable, persistOk));
      if resolution.None? {
        return;
      }
      var finished := resolution.value;
      resolution := None;
      match finished.purpose {
        case ForReload(newConfig) => TakeUpReload(newConfig, reply, buildable, persistOk);
        case ForRelocation => TakeUpMove(now, reply, buildable, persistOk);
      }
    }

    /** Afterwards a move that is due has a resolution in flight. */
    method ResolveMove(now: int)
      requires Valid()
      modifies this`resolution
      ensures Valid() && View() == Step(old(View()), StartRelocation(now))
      ensures DueInFlight(View(), now)
    {
      ReachableStep(View(), StartRelocation(now));
      if resolution.None? && relocation.Some? && now >= relocation.value.notBefore {
        resolution := Some(Resolution(ForRelocation, config, config));
      }
    }

    /** Starts a job pass; it runs with what the daemon holds now. */
    method SpawnJobPass() returns (pass: Pass)
      requires Valid()
      modifies this`passes
      ensures Valid() && View() == Step(old(View()), SpawnPass)
      ensures pass.generation == generation && pass.inputs.client == client
      ensures pass.inputs.labels == config.labels && pass.inputs.jobs == config.jobs
      ensures pass.inputs.osquery == config.osquery && passes == old(passes) + [pass]
    {
      ReachableStep(View(), SpawnPass);
      pass := Pass(generation, Inputs(client, config.labels, config.jobs, config.osquery));
      passes := passes + [pass];
    }

    /** A worker holding `held` hears an answer, whenever that is. */
    method NotingMoved(held: Client, moved: bool)
      requires Valid() && held in issued
      modifies this`raised, this`heard
      ensures Valid() && View() == if moved then Step(old(View()), Hear(held)) else old(View())
    {
      if moved {
        ReachableStep(View(), Hear(held));
        raised := raised + {held.signal};
        heard := heard + {held.signal};
      }
    }

    // -------------------------------------------------------------- the loop

    /** Lets what happens outside happen. */
    method Happen(happened: seq<Outside>)
      requires Valid()
      modifies this`raised, this`heard, this`file
      ensures Valid() && View() == Run(old(View()), OutsideEvents(happened))
    {
      var i := 0;
      assert View() == Run(View(), OutsideEvents(happened[..0]));
      while i < |happened|
        invariant 0 <= i <= |happened|
        invariant Valid() && View() == Run(old(View()), OutsideEvents(happened[..i]))
      {
        OutsideNext(happened, i);
        RunNext(old(View()), OutsideEvents(happened[..i]), OutsideEvent(happened[i]));
        HappenOne(happened[i]);
        i := i + 1;
      }
      assert happened[..i] == happened;
    }

    /** Only a client that some worker was given can hear anything. */
    method HappenOne(happened: Outside)
      requires Valid()
      modifies this`raised, this`heard, this`file
      ensures Valid() && View() == Step(old(View()), OutsideEvent(happened))
    {
      match happened {
        case Heard(held) =>
          if held in issued {
            NotingMoved(held, true);
          }
        case Deleted =>
          ReachableStep(View(), DeleteHome);
          file := None;
      }
    }

    method DoJob(job: Job)
      requires Valid()
      modifies this
      ensures Valid() && View() == Run(old(View()), JobEvents(job))
    {
      match job {
        case CheckIn(leases) =>
          RunOne(View(), SpawnPass);
          if leases {
            var pass := SpawnJobPass();
          }
        case ReloadDue(loaded, readable, buildable) =>
          RunOne(View(), Reload(loaded, readable, buildable));
          ReloadJob(loaded, readable, buildable);
        case Delivery =>
      }
    }

    /** The due jobs, in order. */
    method DoJobs(jobs: seq<(Job, seq<Outside>)>)
      requires Valid()
      modifies this
      ensures Valid() && View() == Run(old(View()), JobsEvents(jobs))
    {
      var i := 0;
      assert View() == Run(View(), JobsEvents(jobs[..0]));
      while i < |jobs|
        invariant 0 <= i <= |jobs|
        invariant Valid() && View() == Run(old(View()), JobsEvents(jobs[..i]))
      {
        JobsNext(old(View()), jobs, i);
        DoJob(jobs[i].0);
        Happen(jobs[i].1);
        i := i + 1;
      }
      assert jobs[..i] == jobs;
    }

    method NoticePart(now: int, unlinkOk: bool, happened: seq<Outside>)
      requires Valid()
      modifies this
      ensures Valid() && View() == Run(old(View()), [NoticeMoved(now, unlinkOk)] + OutsideEvents(happened))
    {
      RunFirst(View(), NoticeMoved(now, unlinkOk), OutsideEvents(happened));
      NoticeMoves(now, unlinkOk);
      Happen(happened);
    }

    method FinishPart(finished: Option<Finished>, happened: seq<Outside>)
      requires Valid()
      modifies this
      ensures Valid() && View() == Run(old(View()), FinishEvents(finished) + OutsideEvents(happened))
    {
      RunAppend(View(), FinishEvents(finished), OutsideEvents(happened));
      if finished.Some? {
        var f := finished.value;
        RunOne(View(), Finish(f.now, f.reply, f.buildable, f.persistOk));
        FinishResolution(f.now, f.reply, f.buildable, f.persistOk);
      }
      Happen(happened);
    }

    method StartPart(now: int, leases: bool, happened: seq<Outside>)
      requires Valid()
      modifies this
      ensures Valid()
      ensures View() ==
              Run(old(View()), [StartRelocation(now)] + (if leases then [SpawnPass] else []) + OutsideEvents(happened))
      ensures DueInFlight(View(), now)
    {
      ghost var pass: seq<Event> := if leases then [SpawnPass] else [];
      RunAppend(View(), [StartRelocation(now)] + pass, OutsideEvents(happened));
      RunFirst(View(), StartRelocation(now), pass);
      ResolveMove(now);
      if leases {
        RunOne(View(), SpawnPass);
        var started := SpawnJobPass();
      }
      Happen(happened);
    }

    /** One iteration, with anything happening outside between its parts. At its end a move that is
        due has a resolution in flight, and one that was answered has been made. */
    method Iterate(t: Tick)
      requires Valid()
      modifies this
      ensures Valid() && View() == Run(old(View()), TickEvents(t)) && DueInFlight(View(), t.startAt)
      ensures Answered(old(View()), t) ==> Moved(old(View()), t, View())
      ensures TakenNoticeOf(old(View()), t, View())
    {
      ReachableGood(View());
      HeardIsNoticed(View(), t);
      if Answered(View(), t) {
        AnswerIsTakenUp(View(), t);
      }
      TickParts(View(), t);
      DoJobs(t.jobs);
      NoticePart(t.noticedAt, t.unlinkOk, t.afterNotice);
      FinishPart(t.finished, t.afterFinish);
      StartPart(t.startAt, t.leases, t.asleep);
    }

    /** Shutdown, once every worker has ended: a home heard to say moved does not stay in home.json,
        unless its unlink failed when the move began. */
    method Stop(unlinkOk: bool)
      requires Valid()
      modifies this`raised, this`file
      ensures file == Stopped(old(View()), unlinkOk).file
      ensures unlinkOk && client.signal in heard && (relocation.Some? ==> !discardFailed) ==> file.None?
    {
      ReachableGood(View());
      if unlinkOk && client.signal in heard && (relocation.Some? ==> !discardFailed) {
        StopForgetsMovedHome(View());
      }
      var moved := TakeMoved();
      if moved && unlinkOk {
        file := None;
      }
    }

    /** The iterations until the daemon is told to stop. */
    method Iterations(ticks: seq<Tick>) returns (ghost ends: seq<State>)
      requires Valid()
      modifies this
      ensures Valid() && View() == Run(old(View()), TicksEvents(ticks)) && Ended(old(View()), ticks, ends)
    {
      ends := [];
      var i := 0;
      ghost var start := View();
      assert View() == Run(start, TicksEvents(ticks[..0]));
      while i < |ticks|
        invariant 0 <= i <= |ticks|
        invariant Valid() && View() == Run(start, TicksEvents(ticks[..i])) && Ended(start, ticks[..i], ends)
        invariant View() == Begin(start, ends, i)
      {
        TicksNext(start, ticks, i);
        ghost var before := View();
        Iterate(ticks[i]);
        assert EndsWell(before, ticks[i], View());
        ChainedNext(EndsWell, start, ticks, i, ends, View());
        ends := ends + [View()];
        i := i + 1;
      }
      assert ticks[..i] == ticks;
    }

    /** The daemon from its start to its end: the iterations, what still happens while its workers
        end, and the stop. `ends` are the states at the end of each iteration. */
    method Loop(ticks: seq<Tick>, stopping: seq<Outside>, unlinkOk: bool) returns (ghost ends: seq<State>)
      requires Valid()
      modifies this
      ensures Ended(old(View()), ticks, ends)
      ensures file == Stopped(Run(old(View()), TicksEvents(ticks) + OutsideEvents(stopping)), unlinkOk).file
      ensures unlinkOk && !old(discardFailed) && (forall i | 0 <= i < |ticks| :: ticks[i].unlinkOk) ==>
                (file.Some? ==> file.value == home && client.signal !in heard)
    {
      ghost var start := View();
      ends := Iterations(ticks);
      RunAppend(start, TicksEvents(ticks), OutsideEvents(stopping));
      Happen(stopping);
      if unlinkOk && !start.discardFailed && (forall i | 0 <= i < |ticks| :: ticks[i].unlinkOk) {
        LoopHonest(start, ticks, stopping, View());
      }
      Stop(unlinkOk);
    }
  }

  /** An iteration led from `before` to `end`, reachable, with a due move in flight, an answered one
      made, and one heard before its end taken notice of. */
  ghost predicate EndsWell(before: State, t: Tick, end: State) {
    && end == Run(before, TickEvents(t)) && Reachable(end) && DueInFlight(end, t.startAt)
    && (Answered(before, t) ==> Moved(before, t, end))
    && TakenNoticeOf(before, t, end)
  }

  /** Where step `i` starts. */
  function Begin<S>(start: S, ends: seq<S>, i: nat): S
    requires i <= |ends|
  {
    if i == 0 then start else ends[i - 1]
  }

  /** Each step leads from the end of the one before to its own end. */
  ghost predicate Chained<S, T>(leads: (S, T, S) -> bool, start: S, steps: seq<T>, ends: seq<S>) {
    |ends| == |steps| && forall i | 0 <= i < |ends| :: leads(Begin(start, ends, i), steps[i], ends[i])
  }

  lemma ChainedNext<S, T>(leads: (S, T, S) -> bool, start: S, steps: seq<T>, i: nat, ends: seq<S>, end: S)
    requires i < |steps| && Chained(leads, start, steps[..i], ends) && leads(Begin(start, ends, i), steps[i], end)
    ensures Chained(leads, start, steps[..i + 1], ends + [end])
  {
    var more, done := ends + [end], steps[..i + 1];
    forall j | 0 <= j < |more| ensures leads(Begin(start, more, j), done[j], more[j]) {
      assert Begin(start, more, j) == Begin(start, ends, j);
      if j < i {
        assert leads(Begin(start, ends, j), steps[..i][j], ends[j]);
      }
    }
  }

  /** Every iteration ended well, each starting where the one before ended. */
  ghost predicate Ended(start: State, ticks: seq<Tick>, ends: seq<State>) {
    Chained(EndsWell, start, ticks, ends)
  }

  // ---------------------------------------------------------------- events in order

  lemma RunNext(s: State, events: seq<Event>, e: Event)
    ensures Run(s, events + [e]) == Step(Run(s, events), e)
  {
    assert (events + [e])[..|events|] == events;
  }

  lemma RunFirst(s: State, e: Event, events: seq<Event>)
    ensures Run(s, [e] + events) == Run(Step(s, e), events)
  {
    RunAppend(s, [e], events);
    RunOne(s, e);
  }

  lemma OutsideNext(happened: seq<Outside>, i: nat)
    requires i < |happened|
    ensures OutsideEvents(happened[..i + 1]) == OutsideEvents(happened[..i]) + [OutsideEvent(happened[i])]
  {
  }

  lemma JobsNext(s: State, jobs: seq<(Job, seq<Outside>)>, i: nat)
    requires i < |jobs|
    ensures Run(s, JobsEvents(jobs[..i + 1])) ==
            Run(Run(Run(s, JobsEvents(jobs[..i])), JobEvents(jobs[i].0)), OutsideEvents(jobs[i].1))
  {
    assert jobs[..i + 1][..i] == jobs[..i];
    RunAppend(s, JobsEvents(jobs[..i]) + JobEvents(jobs[i].0), OutsideEvents(jobs[i].1));
    RunAppend(s, JobsEvents(jobs[..i]), JobEvents(jobs[i].0));
  }

  lemma TickParts(s: State, t: Tick)
    ensures var jobs := Run(s, JobsEvents(t.jobs));
            var noticed := Run(jobs, [NoticeMoved(t.noticedAt, t.unlinkOk)] + OutsideEvents(t.afterNotice));
            var finished := Run(noticed, FinishEvents(t.finished) + OutsideEvents(t.afterFinish));
            Run(s, TickEvents(t)) ==
            Run(finished,
                [StartRelocation(t.startAt)] + (if t.leases then [SpawnPass] else []) + OutsideEvents(t.asleep))
  {
    var a := JobsEvents(t.jobs);
    var b := [NoticeMoved(t.noticedAt, t.unlinkOk)] + OutsideEvents(t.afterNotice);
    var c := FinishEvents(t.finished) + OutsideEvents(t.afterFinish);
    var d := [StartRelocation(t.startAt)] + (if t.leases then [SpawnPass] else []) + OutsideEvents(t.asleep);
    RunAppend(s, a, b);
    RunAppend(s, a + b, c);
    RunAppend(s, a + b + c, d);
  }

  lemma TicksNext(s: State, ticks: seq<Tick>, i: nat)
    requires i < |ticks|
    ensures Run(s, TicksEvents(ticks[..i + 1])) == Run(Run(s, TicksEvents(ticks[..i])), TickEvents(ticks[i]))
  {
    assert ticks[..i + 1][..i] == ticks[..i];
    RunAppend(s, TicksEvents(ticks[..i]), TickEvents(ticks[i]));
  }

  // ---------------------------------------------------------------- an answer within an iteration

  predicate NoFinish(events: seq<Event>) {
    forall i | 0 <= i < |events| :: !events[i].Finish?
  }

  lemma {:induction false} JobsFinishNothing(jobs: seq<(Job, seq<Outside>)>)
    ensures NoFinish(JobsEvents(jobs))
    decreases |jobs|
  {
    if jobs != [] { JobsFinishNothing(jobs[..|jobs| - 1]); }
  }

  /** Until it is finished, a resolution keeps the configuration and the home it was started under. */
  lemma {:induction false} InFlight(s: State, events: seq<Event>)
    requires s.resolution.Some? && NoFinish(events)
    ensures var t := Run(s, events); t.config == s.config && t.home == s.home && t.resolution == s.resolution
    decreases |events|
  {
    if events != [] { InFlight(s, events[..|events| - 1]); }
  }

  /** The events that begin no move and take up nothing. */
  predicate Quiet(events: seq<Event>) {
    forall i | 0 <= i < |events| ::
      events[i].Hear? || events[i].DeleteHome? || events[i].StartRelocation? || events[i].SpawnPass?
  }

  lemma {:induction false} QuietRun(s: State, events: seq<Event>)
    requires s.relocation.None? && Quiet(events)
    ensures var t := Run(s, events);
            t.home == s.home && t.relocation.None? && (t.file == s.file || t.file.None?)
    decreases |events|
  {
    if events != [] { QuietRun(s, events[..|events| - 1]); }
  }

  function BeforeFinish(t: Tick): seq<Event> {
    JobsEvents(t.jobs) + ([NoticeMoved(t.noticedAt, t.unlinkOk)] + OutsideEvents(t.afterNotice))
  }

  function AfterFinish(t: Tick): seq<Event> {
    OutsideEvents(t.afterFinish)
    + ([StartRelocation(t.startAt)] + (if t.leases then [SpawnPass] else []) + OutsideEvents(t.asleep))
  }

  lemma AroundFinish(t: Tick)
    ensures NoFinish(BeforeFinish(t)) && Quiet(AfterFinish(t))
    ensures TickEvents(t) == BeforeFinish(t) + (FinishEvents(t.finished) + AfterFinish(t))
  {
    JobsFinishNothing(t.jobs);
  }

  lemma FinishMoves(s: State, f: Finished)
    requires Usable(s, f.reply, f.buildable, f.persistOk)
    requires s.resolution.Some? && s.resolution.value.purpose == ForRelocation && s.resolution.value.asked == s.config
    ensures var t := Step(s, Finish(f.now, f.reply, f.buildable, f.persistOk));
            t.relocation.None? && Fetch(s.config, f.reply) == Some(t.home) == t.file
  {
  }

  /** A usable answer for a move in flight is taken up within the iteration that finishes it, whatever
      else happens in it. */
  lemma AnswerIsTakenUp(s: State, t: Tick)
    requires ResolvesForCurrent(s) && Answered(s, t)
    ensures Moved(s, t, Run(s, TickEvents(t)))
  {
    var f := t.finished.value;
    var first, rest, finish := BeforeFinish(t), AfterFinish(t), Finish(f.now, f.reply, f.buildable, f.persistOk);
    AroundFinish(t);
    InFlight(s, first);
    RunAppend(s, first, [finish] + rest);
    RunFirst(Run(s, first), finish, rest);
    FinishMoves(Run(s, first), f);
    QuietRun(Step(Run(s, first), finish), rest);
  }

  lemma PendingOne(s: State, e: Event)
    requires Good(s) && s.relocation.Some? && !e.Reload?
    ensures var t := Step(s, e);
            && Good(t)
            && (t.relocation.Some? ==> t.home.home == s.home.home)
            && (t.relocation.None? ==> e.Finish? && t.home.home != s.home.home)
  {
    StepGood(s, e);
    if e.Finish? && s.resolution.Some? && s.resolution.value.purpose.ForReload? {
      ReloadTakenUp(s.(resolution := None), s.resolution.value.purpose.newConfig, e.reply, e.buildable, e.persistOk);
    }
  }

  /** A pending move stays pending unless another home is taken up. */
  lemma {:induction false} PendingOrMoved(s: State, events: seq<Event>)
    requires Good(s) && s.relocation.Some?
    requires forall i | 0 <= i < |events| :: events[i].Finish? ==> Quiet(events[i + 1..])
    requires forall i | 0 <= i < |events| :: !events[i].Reload?
    ensures var t := Run(s, events); t.relocation.Some? || t.home.home != s.home.home
    decreases |events|
  {
    if events != [] {
      var first, rest := events[0], events[1..];
      assert events == [first] + rest;
      RunFirst(s, first, rest);
      PendingOne(s, first);
      var t := Step(s, first);
      if t.relocation.Some? {
        assert forall i | 0 <= i < |rest| :: rest[i] == events[i + 1] && rest[i + 1..] == events[i + 1..][1..];
        forall i | 0 <= i < |rest| ensures rest[i].Finish? ==> Quiet(rest[i + 1..]) {
          assert rest[i + 1..] == events[(i + 1) + 1..];
        }
        PendingOrMoved(t, rest);
      } else {
        assert events[0 + 1..] == rest;
        QuietRun(t, rest);
      }
    }
  }

  lemma FromNotice(t: Tick) returns (events: seq<Event>)
    ensures TickEvents(t) == JobsEvents(t.jobs) + ([NoticeMoved(t.noticedAt, t.unlinkOk)] + events)
    ensures forall i | 0 <= i < |events| :: events[i].Finish? ==> Quiet(events[i + 1..])
    ensures forall i | 0 <= i < |events| :: !events[i].Reload?
  {
    var before, finish, after := OutsideEvents(t.afterNotice), FinishEvents(t.finished), AfterFinish(t);
    AroundFinish(t);
    events := before + (finish + after);
    forall i | 0 <= i < |events| && events[i].Finish? ensures Quiet(events[i + 1..]) {
      assert i == |before| && |finish| == 1;
      assert events[i + 1..] == after;
    }
  }

  /** A move heard by the end of the jobs is taken notice of in the same iteration. */
  lemma HeardIsNoticed(s: State, t: Tick)
    requires Good(s)
    ensures TakenNoticeOf(s, t, Run(s, TickEvents(t)))
  {
    var jobs, notice := Run(s, JobsEvents(t.jobs)), NoticeMoved(t.noticedAt, t.unlinkOk);
    var rest := FromNotice(t);
    RunGood(s, JobsEvents(t.jobs));
    RunAppend(s, JobsEvents(t.jobs), [notice] + rest);
    RunFirst(jobs, notice, rest);
    NoticedAll(jobs, t.noticedAt, t.unlinkOk);
    StepGood(jobs, notice);
    if jobs.client.signal in jobs.heard {
      PendingOrMoved(Step(jobs, notice), rest);
    }
  }

  // ---------------------------------------------------------------- unlinks in a run

  lemma UnlinksAppend(a: seq<Event>, b: seq<Event>)
    requires UnlinksOk(a) && UnlinksOk(b)
    ensures UnlinksOk(a + b)
  {
  }

  lemma {:induction false} JobsUnlinkNothing(jobs: seq<(Job, seq<Outside>)>)
    ensures UnlinksOk(JobsEvents(jobs))
    decreases |jobs|
  {
    if jobs != [] {
      var n := |jobs| - 1;
      JobsUnlinkNothing(jobs[..n]);
      UnlinksAppend(JobsEvents(jobs[..n]), JobEvents(jobs[n].0));
      UnlinksAppend(JobsEvents(jobs[..n]) + JobEvents(jobs[n].0), OutsideEvents(jobs[n].1));
    }
  }

  lemma TickUnlinks(t: Tick)
    requires t.unlinkOk
    ensures UnlinksOk(TickEvents(t))
  {
    var b := [NoticeMoved(t.noticedAt, t.unlinkOk)] + OutsideEvents(t.afterNotice);
    var c := FinishEvents(t.finished) + OutsideEvents(t.afterFinish);
    var d := [StartRelocation(t.startAt)] + (if t.leases then [SpawnPass] else []) + OutsideEvents(t.asleep);
    JobsUnlinkNothing(t.jobs);
    UnlinksAppend(JobsEvents(t.jobs), b);
    UnlinksAppend(JobsEvents(t.jobs) + b, c);
    UnlinksAppend(JobsEvents(t.jobs) + b + c, d);
  }

  lemma {:induction false} TicksUnlink(ticks: seq<Tick>)
    requires forall i | 0 <= i < |ticks| :: ticks[i].unlinkOk
    ensures UnlinksOk(TicksEvents(ticks))
    decreases |ticks|
  {
    if ticks != [] {
      var n := |ticks| - 1;
      TicksUnlink(ticks[..n]);
      TickUnlinks(ticks[n]);
      UnlinksAppend(TicksEvents(ticks[..n]), TickEvents(ticks[n]));
    }
  }

  lemma LoopUnlinks(ticks: seq<Tick>, stopping: seq<Outside>)
    requires forall i | 0 <= i < |ticks| :: ticks[i].unlinkOk
    ensures UnlinksOk(TicksEvents(ticks) + OutsideEvents(stopping))
  {
    TicksUnlink(ticks);
    UnlinksAppend(TicksEvents(ticks), OutsideEvents(stopping));
  }

  lemma LoopHonest(start: State, ticks: seq<Tick>, stopping: seq<Outside>, last: State)
    requires !start.discardFailed && forall i | 0 <= i < |ticks| :: ticks[i].unlinkOk
    requires last == Run(start, TicksEvents(ticks) + OutsideEvents(stopping)) && Reachable(last)
    ensures var file := Stopped(last, true).file;
            file.Some? ==> file.value == last.home && last.client.signal !in last.heard
  {
    assert !last.discardFailed by {
      LoopUnlinks(ticks, stopping);
      NoFailedUnlink(start, TicksEvents(ticks) + OutsideEvents(stopping));
    }
    StopLeavesHonestFile(last);
  }
}
