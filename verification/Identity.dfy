/** The installation identity (agent/src/identity.rs): any number of processes racing a first start
    over one state directory, each step of which may be the last before a crash.
 */
module Identity {
  import opened Options

  type Uuid = nat

  /** What a file holds: an identity written whole, or anything else. */
  datatype Content = Whole(id: Uuid) | Damaged

  /** How far a process has come. Its temporary file is its own. */
  datatype Progress =
    | Starting
    | Creating(candidate: Uuid)
    | Writing(candidate: Uuid, temporary: Content)
    | Linking(candidate: Uuid, temporary: Content)
    | Reading
    | Returned(id: Uuid)
    | Failed
    | Crashed

  datatype Process = Process(explicit: Option<Uuid>, at: Progress)

  /** The identity file and the processes that ever ran, by name. */
  datatype State = State(file: Option<Content>, processes: map<nat, Process>)

  /** A link that succeeds may still fail to reach the disk with its directory. */
  datatype LinkEnd = Linked | Unsynced | NotLinked

  datatype Event =
    | Spawn(p: nat, explicit: Option<Uuid>)
    | Look(p: nat, random: Uuid)
    | Create(p: nat, ok: bool)
    | Write(p: nat, ok: bool)
    | Link(p: nat, end: LinkEnd)
    | Read(p: nat, ok: bool)
    | Crash(p: nat)

  function EnsureOverrideMatches(explicit: Option<Uuid>, persisted: Uuid): Progress {
    if explicit.Some? && explicit.value != persisted then Failed else Returned(persisted)
  }

  function Move(s: State, p: nat, at: Progress): State
    requires p in s.processes
  {
    s.(processes := s.processes[p := s.processes[p].(at := at)])
  }

  /** An existing file is read; a missing one is to be created from the explicit identity or a
      random one. */
  function LookStep(s: State, p: nat, random: Uuid): State
    requires p in s.processes && s.processes[p].at.Starting?
  {
    if s.file.Some? then Move(s, p, Reading)
    else
      var explicit := s.processes[p].explicit;
      Move(s, p, Creating(if explicit.Some? then explicit.value else random))
  }

  /** The hard link names the temporary file unless the name is taken, which is as good. */
  function LinkStep(s: State, p: nat, end: LinkEnd): State
    requires p in s.processes && s.processes[p].at.Linking?
  {
    var next := Move(s, p, if end.Linked? then Reading else Failed);
    if s.file.None? && !end.NotLinked? then next.(file := Some(s.processes[p].at.temporary)) else next
  }

  function ReadStep(s: State, p: nat, ok: bool): State
    requires p in s.processes && s.processes[p].at.Reading?
  {
    if ok && s.file.Some? && s.file.value.Whole?
    then Move(s, p, EnsureOverrideMatches(s.processes[p].explicit, s.file.value.id))
    else Move(s, p, Failed)
  }

  predicate Enabled(s: State, e: Event) {
    match e
    case Spawn(p, _) => p !in s.processes
    case Look(p, _) => p in s.processes && s.processes[p].at.Starting?
    case Create(p, _) => p in s.processes && s.processes[p].at.Creating?
    case Write(p, _) => p in s.processes && s.processes[p].at.Writing?
    case Link(p, _) => p in s.processes && s.processes[p].at.Linking?
    case Read(p, _) => p in s.processes && s.processes[p].at.Reading?
    case Crash(p) => p in s.processes && !s.processes[p].at.Returned?
  }

  function Step(s: State, e: Event): State
    requires Enabled(s, e)
  {
    match e
    case Spawn(p, explicit) => s.(processes := s.processes[p := Process(explicit, Starting)])
    case Look(p, random) => LookStep(s, p, random)
    case Create(p, ok) =>
      Move(s, p, if ok then Writing(s.processes[p].at.candidate, Damaged) else Failed)
    case Write(p, ok) =>
      var candidate := s.processes[p].at.candidate;
      Move(s, p, if ok then Linking(candidate, Whole(candidate)) else Failed)
    case Link(p, end) => LinkStep(s, p, end)
    case Read(p, ok) => ReadStep(s, p, ok)
    case Crash(p) => Move(s, p, Crashed)
  }

  /** `s` is where the enabled events of a schedule lead from a directory holding `found`. */
  ghost predicate IsRun(found: Option<Content>, events: seq<Event>, s: State)
    decreases |events|
  {
    if events == [] then s == State(found, map[])
    else
      var n := |events| - 1;
      exists before :: IsRun(found, events[..n], before) && Enabled(before, events[n]) && s == Step(before, events[n])
  }

  // ---------------------------------------------------------------- what every step keeps

  /** What a process has may be linked only whole, an explicit identity is its candidate, and what
      it returned is in the file and matches what it was told. */
  ghost predicate Honest(file: Option<Content>, p: Process) {
    match p.at
    case Creating(candidate) => p.explicit.Some? ==> candidate == p.explicit.value
    case Writing(candidate, _) => p.explicit.Some? ==> candidate == p.explicit.value
    case Linking(candidate, temporary) =>
      temporary == Whole(candidate) && (p.explicit.Some? ==> candidate == p.explicit.value)
    case Reading => file.Some?
    case Returned(id) => file == Some(Whole(id)) && (p.explicit.Some? ==> id == p.explicit.value)
    case _ => true
  }

  ghost predicate Good(found: Option<Content>, s: State) {
    && (forall p | p in s.processes :: Honest(s.file, s.processes[p]))
    && (found.Some? ==> s.file == found)
    && (found.None? && s.file.Some? ==> s.file.value.Whole?)
  }

  lemma StepGood(found: Option<Content>, s: State, e: Event)
    requires Good(found, s) && Enabled(s, e)
    ensures Good(found, Step(s, e))
    ensures s.file.Some? ==> Step(s, e).file == s.file
  {
  }

  lemma {:induction false} RunGood(found: Option<Content>, events: seq<Event>, s: State)
    requires IsRun(found, events, s)
    ensures Good(found, s)
    decreases |events|
  {
    if events != [] {
      var n := |events| - 1;
      var before :| IsRun(found, events[..n], before) && Enabled(before, events[n]) && s == Step(before, events[n]);
      RunGood(found, events[..n], before);
      StepGood(found, before, events[n]);
    }
  }

  /** A link onto a free name leaves the candidate there, written whole, even when its directory could
      not be synced; a taken name is left as it is. Only a synced link lets the process read on. */
  lemma LinkLeavesFile(found: Option<Content>, events: seq<Event>, s: State, p: nat, end: LinkEnd)
    requires IsRun(found, events, s) && p in s.processes && s.processes[p].at.Linking?
    ensures var t := Step(s, Link(p, end));
            && t.file == (if s.file.Some? then s.file else if end == NotLinked then None
                          else Some(Whole(s.processes[p].at.candidate)))
            && t.processes[p].at == (if end == Linked then Reading else Failed)
  {
    RunGood(found, events, s);
    assert Honest(s.file, s.processes[p]);
  }

  // ---------------------------------------------------------------- agreement

  /** All processes that succeed return the same identity, the one in the file. */
  lemma Agreement(found: Option<Content>, events: seq<Event>, s: State, p: nat, q: nat)
    requires IsRun(found, events, s)
    requires p in s.processes && s.processes[p].at.Returned? && q in s.processes && s.processes[q].at.Returned?
    ensures s.processes[p].at.id == s.processes[q].at.id
    ensures s.file == Some(Whole(s.processes[p].at.id))
  {
    RunGood(found, events, s);
    assert Honest(s.file, s.processes[p]) && Honest(s.file, s.processes[q]);
  }

  /** Two different explicit identities never both succeed. */
  lemma DifferentOverridesNeverBothSucceed(found: Option<Content>, events: seq<Event>, s: State, p: nat, q: nat)
    requires IsRun(found, events, s)
    requires p in s.processes && s.processes[p].explicit.Some? && q in s.processes && s.processes[q].explicit.Some?
    requires s.processes[p].explicit != s.processes[q].explicit
    ensures !(s.processes[p].at.Returned? && s.processes[q].at.Returned?)
  {
    RunGood(found, events, s);
    assert Honest(s.file, s.processes[p]) && Honest(s.file, s.processes[q]);
  }

  /** A schedule leads to one state. */
  lemma {:induction false} RunsAreDetermined(found: Option<Content>, events: seq<Event>, s: State, t: State)
    requires IsRun(found, events, s) && IsRun(found, events, t)
    ensures s == t
    decreases |events|
  {
    if events != [] {
      var n := |events| - 1;
      var b :| IsRun(found, events[..n], b) && Enabled(b, events[n]) && s == Step(b, events[n]);
      var c :| IsRun(found, events[..n], c) && Enabled(c, events[n]) && t == Step(c, events[n]);
      RunsAreDetermined(found, events[..n], b, c);
    }
  }

  /** Once linked the identity never changes, whatever else runs, fails or crashes; so what one
      process returned every later one returns too. */
  lemma {:induction false} IdentityNeverChanges(
    found: Option<Content>, events: seq<Event>, more: seq<Event>, s: State, t: State)
    requires IsRun(found, events, s) && s.file.Some? && IsRun(found, events + more, t)
    ensures t.file == s.file
    decreases |more|
  {
    if more == [] {
      assert events + more == events;
      RunsAreDetermined(found, events, s, t);
    } else {
      var n := |events + more| - 1;
      assert (events + more)[..n] == events + more[..|more| - 1];
      var before :| IsRun(found, (events + more)[..n], before) && Enabled(before, (events + more)[n])
                    && t == Step(before, (events + more)[n]);
      IdentityNeverChanges(found, events, more[..|more| - 1], s, before);
      RunGood(found, events + more[..|more| - 1], before);
      StepGood(found, before, (events + more)[n]);
    }
  }

  // ---------------------------------------------------------------- one start among others

  lemma RunNext(found: Option<Content>, events: seq<Event>, s: State, e: Event)
    requires IsRun(found, events, s) && Enabled(s, e)
    ensures IsRun(found, events + [e], Step(s, e))
    ensures s.file.Some? ==> Step(s, e).file == s.file
  {
    assert (events + [e])[..|events|] == events;
    RunGood(found, events, s);
    StepGood(found, s, e);
  }

  /** What other processes try to do while one start looks, creates, writes, links and reads. */
  datatype Meanwhile = Meanwhile(
    looking: seq<Event>, creating: seq<Event>, writing: seq<Event>, linking: seq<Event>, reading: seq<Event>)

  predicate Others(p: nat, schedule: seq<Event>) {
    forall i | 0 <= i < |schedule| :: schedule[i].p != p
  }

  predicate OthersOnly(p: nat, m: Meanwhile) {
    && Others(p, m.looking) && Others(p, m.creating) && Others(p, m.writing)
    && Others(p, m.linking) && Others(p, m.reading)
  }

  /** How the steps of one start end. */
  datatype Ends = Ends(createOk: bool, writeOk: bool, link: LinkEnd, readOk: bool)

  predicate AllWell(ends: Ends) {
    ends.createOk && ends.writeOk && ends.link.Linked? && ends.readOk
  }

  /** What a start that meets no failure returns of the file it reads at its end. */
  function Verdict(file: Option<Content>, explicit: Option<Uuid>): Option<Uuid> {
    if file.Some? && file.value.Whole? && (explicit.None? || explicit.value == file.value.id)
    then Some(file.value.id)
    else None
  }

  class StateDirectory {
    var file: Option<Content>
    var processes: map<nat, Process>
    ghost const found: Option<Content>
    ghost var events: seq<Event>

    ghost function View(): State
      reads this
    {
      State(file, processes)
    }

    /** The directory is where a schedule of racing processes leads. */
    ghost predicate Valid()
      reads this
    {
      IsRun(found, events, View())
    }

    constructor (found: Option<Content>)
      ensures Valid() && file == this.found == found && processes == map[]
    {
      this.found := found;
      file, processes, events := found, map[], [];
    }

    /** Other processes take whatever steps of theirs are enabled. */
    method Let(schedule: seq<Event>, p: nat)
      requires Valid() && Others(p, schedule)
      modifies this
      ensures Valid()
      ensures p in processes <==> p in old(processes)
      ensures p in processes ==> processes[p] == old(processes)[p]
      ensures old(file).Some? || schedule == [] ==> file == old(file)
    {
      for i := 0 to |schedule|
        invariant Valid()
        invariant p in processes <==> p in old(processes)
        invariant p in processes ==> processes[p] == old(processes)[p]
        invariant old(file).Some? || schedule == [] ==> file == old(file)
      {
        var e := schedule[i];
        if Enabled(State(file, processes), e) {
          RunNext(found, events, View(), e);
          var next := Step(State(file, processes), e);
          file, processes, events := next.file, next.processes, events + [e];
        }
      }
    }

    /** Records that process `p` has come to `at`, by the event `e`. */
    ghost method Note(e: Event, before: State)
      requires IsRun(found, events, before) && Enabled(before, e) && View() == Step(before, e)
      modifies this`events
      ensures Valid()
      ensures before.file.Some? ==> file == before.file
    {
      RunNext(found, events, before, e);
      events := events + [e];
    }

    /** Creates, writes and links the process's own file, others acting in between. */
    method PersistNew(p: nat, explicit: Option<Uuid>, candidate: Uuid, m: Meanwhile, ends: Ends) returns (ok: bool)
      requires Valid() && OthersOnly(p, m) && p in processes && processes[p] == Process(explicit, Creating(candidate))
      modifies this
      ensures Valid() && p in processes
      ensures processes[p] == Process(explicit, if ok then Reading else Failed)
      ensures old(file).Some? ==> file == old(file)
      ensures ok <==> ends.createOk && ends.writeOk && ends.link.Linked?
      ensures ok && old(file).None? && m.creating == m.writing == m.linking == [] ==> file == Some(Whole(candidate))
    {
      Let(m.creating, p);
      ghost var before := View();
      processes := processes[p := Process(explicit, if ends.createOk then Writing(candidate, Damaged) else Failed)];
      Note(Create(p, ends.createOk), before);
      if !ends.createOk {
        return false;
      }
      Let(m.writing, p);
      before := View();
      processes := processes[
        p := Process(explicit, if ends.writeOk then Linking(candidate, Whole(candidate)) else Failed)];
      Note(Write(p, ends.writeOk), before);
      if !ends.writeOk {
        return false;
      }
      Let(m.linking, p);
      before := View();
      if file.None? && !ends.link.NotLinked? {
        file := Some(Whole(candidate));
      }
      ok := ends.link.Linked?;
      processes := processes[p := Process(explicit, if ok then Reading else Failed)];
      Note(Link(p, ends.link), before);
    }

    /** Reads the linked file and compares it with what the process was told. */
    method ReadBack(p: nat, explicit: Option<Uuid>, others: seq<Event>, readOk: bool) returns (identity: Option<Uuid>)
      requires Valid() && Others(p, others) && p in processes && processes[p] == Process(explicit, Reading)
      modifies this
      ensures Valid() && p in processes
      ensures processes[p] == Process(explicit, if identity.Some? then Returned(identity.value) else Failed)
      ensures old(file).Some? || others == [] ==> file == old(file)
      ensures identity == if readOk then Verdict(file, explicit) else None
    {
      Let(others, p);
      ghost var before := View();
      identity := if readOk then Verdict(file, explicit) else None;
      processes := processes[p := Process(explicit, if identity.Some? then Returned(identity.value) else Failed)];
      Note(Read(p, readOk), before);
    }

    /** One start among any number of others. It is part of a run of them all, so every theorem about
        runs holds of what it returns; with no failure of its own it returns the identity in the file,
        unless that is not the one it was told to have. */
    method LoadOrCreate(p: nat, explicit: Option<Uuid>, random: Uuid, m: Meanwhile, ends: Ends)
      returns (identity: Option<Uuid>)
      requires Valid() && p !in processes && OthersOnly(p, m)
      modifies this
      ensures Valid() && p in processes && processes[p].explicit == explicit
      ensures processes[p].at == if identity.Some? then Returned(identity.value) else Failed
      ensures identity.Some? ==> file == Some(Whole(identity.value)) && (explicit.Some? ==> identity == explicit)
      ensures old(file).Some? ==> file == old(file)
      ensures AllWell(ends) ==> identity == Verdict(file, explicit)
      ensures AllWell(ends) && old(file).None? && m == Meanwhile([], [], [], [], []) ==>
                identity == Some(if explicit.Some? then explicit.value else random)
    {
      ghost var before := View();
      processes := processes[p := Process(explicit, Starting)];
      Note(Spawn(p, explicit), before);
      Let(m.looking, p);
      before := View();
      if file.Some? {
        processes := processes[p := Process(explicit, Reading)];
        Note(Look(p, random), before);
      } else {
        var candidate := if explicit.Some? then explicit.value else random;
        processes := processes[p := Process(explicit, Creating(candidate))];
        Note(Look(p, random), before);
        var persisted := PersistNew(p, explicit, candidate, m, ends);
        if !persisted {
          return None;
        }
      }
      identity := ReadBack(p, explicit, m.reading, ends.readOk);
    }
  }
}
