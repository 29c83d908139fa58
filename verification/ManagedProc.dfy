/**
  The table of managed server processes (scripts/_reyn_web_proc.py), as a machine whose steps are the
  points between which a signal can arrive. A process stands for its whole process group.
 */
module ManagedProc {
  import opened Wrappers

  type Pid = nat

  datatype Signal = Term | Interrupt | Hangup

  const CATCHABLE: set<Signal> := {Term, Interrupt, Hangup}

  /** Where the driver program stands. */
  datatype Point =
    | Outside                              // in the driver's own code
    | Installing(pending: seq<Signal>)     // in `_install_handlers`, `atexit` registered
    | Starting                             // handlers installed, before `Popen`
    | Started(child: Pid)                  // `Popen` has returned, before `append`
    | Stopping(child: Pid)                 // in `stop_reyn_web`, before `_terminate`
    | Stopped(child: Pid)                  // after `_terminate`, before the removal

  /**
    `cleanup` holds what `_cleanup_all` has yet to terminate, while it runs; `exiting` says that the
    `atexit` hooks have begun.
   */
  datatype State = State(
    managed: seq<Pid>, installed: bool, handled: set<Signal>, alive: set<Pid>, ever: set<Pid>,
    at: Point, cleanup: Option<seq<Pid>>, exiting: bool, gone: bool)

  datatype Event =
    | CallSpawn                            // `spawn_reyn_web` is entered
    | InstallNext(works: bool)             // one turn of the loop over the signals
    | SetInstalled
    | Popen(child: Pid)
    | PopenFails
    | Append
    | CallStop(proc: Pid)                  // `stop_reyn_web`, or the end of a `managed_reyn_web` block
    | Terminate
    | Remove
    | ChildExits(pid: Pid)
    | Raise(signal: Signal)                // a signal reaches the driver
    | Exit                                 // normal exit or unhandled exception: the `atexit` hook runs
    | CleanNext
    | CleanEnd

  const INITIAL := State([], false, {}, {}, {}, Outside, None, false, false)

  function RemoveFirst(s: seq<Pid>, p: Pid): (r: seq<Pid>)
    ensures p !in s ==> r == s
    ensures forall q :: q in s && q != p ==> q in r
    ensures forall q :: q in r ==> q in s
  {
    if s == [] then []
    else if s[0] == p then s[1..]
    else [s[0]] + RemoveFirst(s[1..], p)
  }

  lemma {:induction false} RemovedForGood(s: seq<Pid>, p: Pid)
    requires NoDuplicates(s)
    ensures p !in RemoveFirst(s, p) && NoDuplicates(RemoveFirst(s, p))
  {
    if s == [] || s[0] == p {
    } else {
      var rest := RemoveFirst(s[1..], p);
      RemovedForGood(s[1..], p);
      forall j | 0 <= j < |rest| ensures rest[j] != s[0] {
        assert rest[j] in rest;
      }
    }
  }

  /** The driver runs its own code: it is neither dead nor inside a cleanup. */
  predicate Running(s: State) {
    !s.gone && s.cleanup.None?
  }

  predicate Enabled(s: State, e: Event) {
    match e
    case CallSpawn => Running(s) && s.at == Outside
    case InstallNext(_) => Running(s) && s.at.Installing? && s.at.pending != []
    case SetInstalled => Running(s) && s.at == Installing([])
    case Popen(child) => Running(s) && s.at == Starting && child !in s.ever
    case PopenFails => Running(s) && s.at == Starting
    case Append => Running(s) && s.at.Started?
    case CallStop(proc) => Running(s) && s.at == Outside && proc in s.ever
    case Terminate => Running(s) && s.at.Stopping?
    case Remove => Running(s) && s.at.Stopped?
    case ChildExits(p) => p in s.alive
    case Raise(_) => !s.gone
    case Exit => Running(s) && s.at == Outside
    case CleanNext => !s.gone && s.cleanup.Some? && s.cleanup.value != []
    case CleanEnd => !s.gone && s.cleanup == Some([])
  }

  /** The interpreter unwinds, by an unhandled KeyboardInterrupt too, and runs the `atexit` hook. */
  function Leave(s: State): State {
    s.(exiting := true, cleanup := Some(s.managed))
  }

  function Next(s: State, e: Event): State
    requires Enabled(s, e)
  {
    match e
    case CallSpawn => s.(at := if s.installed then Starting else Installing([Term, Interrupt, Hangup]))
    case InstallNext(works) =>
      s.(at := Installing(s.at.pending[1..]), handled := s.handled + if works then {s.at.pending[0]} else {})
    case SetInstalled => s.(at := Starting, installed := true)
    case Popen(child) => s.(at := Started(child), alive := s.alive + {child}, ever := s.ever + {child})
    case PopenFails => s.(at := Outside)
    case Append => s.(at := Outside, managed := s.managed + [s.at.child])
    case CallStop(proc) => s.(at := Stopping(proc))
    case Terminate => s.(at := Stopped(s.at.child), alive := s.alive - {s.at.child})
    case Remove => s.(at := Outside, managed := RemoveFirst(s.managed, s.at.child))
    case ChildExits(p) => s.(alive := s.alive - {p})
    case Raise(signal) =>
      if signal in s.handled then s.(cleanup := Some(s.managed))
      else if signal == Interrupt && !s.exiting then Leave(s)
      else s.(gone := true)
    case Exit => Leave(s)
    case CleanNext => s.(cleanup := Some(s.cleanup.value[1..]), alive := s.alive - {s.cleanup.value[0]})
    case CleanEnd => s.(cleanup := None, managed := [], gone := true)
  }

  /** The state after a run, if every step of it is possible. */
  function Run(s: State, events: seq<Event>): Option<State>
    decreases |events|
  {
    if events == [] then Some(s)
    else if !Enabled(s, events[0]) then None
    else Run(Next(s, events[0]), events[1..])
  }

  // ---- the invariant of every run ----

  /** A live process is managed, except between `Popen` and `append`. */
  predicate LiveIsManaged(s: State) {
    forall p :: p in s.alive ==> p in s.managed || s.at == Started(p)
  }

  predicate NoDuplicates(s: seq<Pid>) {
    forall i, j :: 0 <= i < j < |s| ==> s[i] != s[j]
  }

  predicate Sound(s: State) {
    && LiveIsManaged(s)
    && s.alive <= s.ever
    && (s.at.Started? ==> s.at.child !in s.managed && s.at.child in s.ever)
    && (s.at.Stopped? ==> s.at.child !in s.alive)
    && (forall p :: p in s.managed ==> p in s.ever)
    && NoDuplicates(s.managed)
    && (s.ever != {} ==> s.installed)
    && (s.at.Starting? || s.at.Started? ==> s.installed)
    && (s.cleanup.Some? ==> forall p :: p in s.alive && p in s.managed ==> p in s.cleanup.value)
  }

  lemma NewIsNoDuplicate(s: seq<Pid>, p: Pid)
    requires NoDuplicates(s) && p !in s
    ensures NoDuplicates(s + [p])
  {}

  lemma NothingIsNoDuplicate()
    ensures NoDuplicates([])
  {}

  lemma {:induction false} StepIsSound(s: State, e: Event)
    requires Sound(s) && Enabled(s, e)
    ensures Sound(Next(s, e))
  {
    hide RemoveFirst, NoDuplicates;
    var t := Next(s, e);
    if e == Append {
      NewIsNoDuplicate(s.managed, s.at.child);
    }
    if t.managed == [] {
      NothingIsNoDuplicate();
    }
    if e == Remove {
      RemovedForGood(s.managed, s.at.child);
    }
    if e == CleanNext {
      assert forall p :: p in s.cleanup.value && p != s.cleanup.value[0] ==> p in t.cleanup.value;
    }
  }

  /** Whatever happens, and wherever a signal strikes. */
  lemma {:induction false} EveryRunIsSound(s: State, events: seq<Event>)
    requires Sound(s) && Run(s, events).Some?
    ensures Sound(Run(s, events).value)
    decreases |events|
  {
    if events == [] {
    } else {
      StepIsSound(s, events[0]);
      EveryRunIsSound(Next(s, events[0]), events[1..]);
    }
  }

  // ---- what a driver leaves behind ----

  /**
    No signal is raised that ends the driver without a cleanup: it is handled, or it is an interrupt
    that still runs the `atexit` hook. Before the first `Popen` any signal will do.
   */
  predicate Orderly(s: State, e: Event) {
    e.Raise? ==> e.signal in s.handled || (e.signal == Interrupt && !s.exiting) || s.ever == {}
  }

  predicate OrderlyRun(s: State, events: seq<Event>)
    requires Run(s, events).Some?
    decreases |events|
  {
    events == [] || (Orderly(s, events[0]) && OrderlyRun(Next(s, events[0]), events[1..]))
  }

  /** What the events so far say about the process in the window, and about what a dead driver left. */
  ghost predicate Traced(s: State, past: seq<Event>) {
    && Sound(s)
    && (s.at.Started? ==> (s.at.child in s.alive <==> ChildExits(s.at.child) !in past))
    && (forall c :: ChildExits(c) in past ==> c in s.ever)
    && (s.cleanup.Some? ==> forall p :: p in s.cleanup.value ==> p in s.managed)
    && (s.gone ==> forall p :: p in s.alive ==> s.at == Started(p))
  }

  lemma StepIsTraced(s: State, past: seq<Event>, e: Event)
    requires Traced(s, past) && Enabled(s, e) && Orderly(s, e)
    ensures Traced(Next(s, e), past + [e])
  {
    StepIsSound(s, e);
    var t := Next(s, e);
    forall c ensures ChildExits(c) in past + [e] <==> ChildExits(c) in past || e == ChildExits(c) {}
    if e == CleanNext {
      assert forall p :: p in t.cleanup.value ==> p in s.cleanup.value;
    }
  }

  lemma {:induction false} EveryRunIsTraced(s: State, past: seq<Event>, events: seq<Event>)
    requires Traced(s, past) && Run(s, events).Some? && OrderlyRun(s, events)
    ensures Traced(Run(s, events).value, past + events)
    decreases |events|
  {
    hide Traced, Orderly, Next, Enabled;
    if events == [] {
      assert past + events == past;
    } else {
      StepIsTraced(s, past, events[0]);
      EveryRunIsTraced(Next(s, events[0]), past + [events[0]], events[1..]);
      assert past + [events[0]] + events[1..] == past + events;
    }
  }

  /**
    However an orderly run ends (by a signal at any point, during a cleanup too, or by itself), a
    process outlives the driver exactly when the end fell between its `Popen` and its `append` and it
    did not exit by itself.
   */
  lemma OrphanIffInWindow(events: seq<Event>, p: Pid)
    requires Run(INITIAL, events).Some? && Run(INITIAL, events).value.gone && OrderlyRun(INITIAL, events)
    ensures p in Run(INITIAL, events).value.alive <==>
      Run(INITIAL, events).value.at == Started(p) && ChildExits(p) !in events
  {
    hide Run, OrderlyRun;
    EveryRunIsTraced(INITIAL, [], events);
    assert [] + events == events;
  }

  predicate AllInstallsWork(events: seq<Event>) {
    forall e :: e in events && e.InstallNext? ==> e.works
  }

  /** Every signal is either still to be installed or already handled. */
  predicate Guarded(s: State) {
    && (s.installed ==> s.handled == CATCHABLE)
    && (s.at.Installing? ==> forall sig :: sig in s.handled || sig in s.at.pending)
  }

  lemma {:induction false} EverySignal()
    ensures forall sig: Signal :: sig in CATCHABLE && sig in [Term, Interrupt, Hangup]
  {
    forall sig: Signal ensures sig in CATCHABLE && sig in [Term, Interrupt, Hangup] {
      match sig
      case Term =>
      case Interrupt =>
      case Hangup =>
    }
  }

  lemma {:induction false} StepIsGuarded(s: State, e: Event)
    requires Guarded(s) && Enabled(s, e) && (e.InstallNext? ==> e.works)
    ensures Guarded(Next(s, e))
  {
    var t := Next(s, e);
    EverySignal();
    match e
    case CallSpawn =>
      assert !s.installed ==> t.at.pending == [Term, Interrupt, Hangup];
    case InstallNext(_) =>
      assert forall sig :: sig in s.at.pending ==> sig == s.at.pending[0] || sig in s.at.pending[1..];
    case _ =>
  }

  lemma {:induction false} GuardedRunIsOrderly(s: State, events: seq<Event>)
    requires Sound(s) && Guarded(s) && AllInstallsWork(events) && Run(s, events).Some?
    ensures OrderlyRun(s, events)
    decreases |events|
  {
    if events == [] {
    } else {
      hide Next, Enabled, Sound;
      var e, rest := events[0], events[1..];
      assert e in events && forall e :: e in rest ==> e in events;
      SoundIsOrderly(s, e);
      StepIsSound(s, e);
      StepIsGuarded(s, e);
      GuardedRunIsOrderly(Next(s, e), rest);
    }
  }

  lemma SoundIsOrderly(s: State, e: Event)
    requires Sound(s) && Guarded(s)
    ensures Orderly(s, e)
  {
    EverySignal();
  }

  /** When every handler could be installed, every run is orderly. */
  lemma InstalledRunsAreOrderly(events: seq<Event>)
    requires AllInstallsWork(events) && Run(INITIAL, events).Some?
    ensures OrderlyRun(INITIAL, events)
  {
    GuardedRunIsOrderly(INITIAL, events);
  }

  lemma {:induction false} RunAppend(s: State, a: seq<Event>, b: seq<Event>)
    requires Run(s, a).Some?
    ensures Run(s, a + b) == Run(Run(s, a).value, b)
    decreases |a|
  {
    hide Next, Enabled;
    if a == [] {
      assert a + b == b;
    } else {
      assert (a + b)[0] == a[0] && (a + b)[1..] == a[1..] + b;
      RunAppend(Next(s, a[0]), a[1..], b);
    }
  }

  lemma RunCons(s: State, e: Event, rest: seq<Event>, events: seq<Event>)
    requires Enabled(s, e) && events == [e] + rest
    ensures Run(s, events) == Run(Next(s, e), rest)
  {
    hide Next, Enabled;
    assert events[1..] == rest;
  }

  lemma RunNothing(s: State)
    ensures Run(s, []) == Some(s)
  {}

  function CleanSteps(n: nat): (r: seq<Event>)
    ensures forall e :: e in r ==> e == CleanNext || e == CleanEnd
  {
    if n == 0 then [CleanEnd] else [CleanNext] + CleanSteps(n - 1)
  }

  /** An undisturbed cleanup terminates everything on its list and nothing else. */
  lemma {:induction false} CleanupRuns(s: State, todo: seq<Pid>)
    requires !s.gone && s.cleanup == Some(todo)
    ensures Run(s, CleanSteps(|todo|)) ==
      Some(s.(cleanup := None, managed := [], gone := true, alive := s.alive - set p | p in todo))
    decreases |todo|
  {
    if todo == [] {
      RunCons(s, CleanEnd, [], [CleanEnd]);
      assert [CleanEnd] + [] == [CleanEnd];
      assert s.alive - (set p | p in todo) == s.alive;
    } else {
      var t := Next(s, CleanNext);
      CleanupRuns(t, todo[1..]);
      RunCons(s, CleanNext, CleanSteps(|todo| - 1), [CleanNext] + CleanSteps(|todo| - 1));
      assert (set p | p in todo) == {todo[0]} + set p | p in todo[1..];
      assert t.alive - (set p | p in todo[1..]) == s.alive - (set p | p in todo);
    }
  }

  /** From any sound state, a signal that starts a cleanup leaves nothing alive but a process in the window. */
  lemma SignalClearsTheTable(s: State, signal: Signal)
    requires Sound(s) && !s.gone && (signal in s.handled || (signal == Interrupt && !s.exiting))
    ensures
      var end := Run(s, [Raise(signal)] + CleanSteps(|s.managed|));
      end.Some? && end.value.gone && forall p :: p in end.value.alive <==> p in s.alive && s.at == Started(p)
  {
    hide Run;
    RunCons(s, Raise(signal), CleanSteps(|s.managed|), [Raise(signal)] + CleanSteps(|s.managed|));
    CleanupRuns(Next(s, Raise(signal)), s.managed);
  }

  /** The window is real: wherever a call stands before `Popen`, a signal right after it orphans the process. */
  lemma WindowOrphans(s: State, child: Pid, signal: Signal)
    requires Sound(s) && Enabled(s, Popen(child)) && (signal in s.handled || (signal == Interrupt && !s.exiting))
    ensures
      var end := Run(s, [Popen(child)] + ([Raise(signal)] + CleanSteps(|s.managed|)));
      end.Some? && end.value.gone && forall p :: p in end.value.alive <==> p == child
  {
    hide Run;
    var t := Next(s, Popen(child));
    StepIsSound(s, Popen(child));
    var rest := [Raise(signal)] + CleanSteps(|s.managed|);
    RunCons(s, Popen(child), rest, [Popen(child)] + rest);
    SignalClearsTheTable(t, signal);
  }

  /** A signal that has no handler and is no interrupt orphans even a process that is managed. */
  lemma FailedInstallOrphans(s: State, child: Pid, signal: Signal)
    requires Enabled(s, Popen(child)) && signal !in s.handled && signal != Interrupt
    ensures
      var end := Run(s, [Popen(child), Append, Raise(signal)]);
      end.Some? && end.value.gone && child in end.value.managed && child in end.value.alive
  {
    hide Run;
    var t := Next(s, Popen(child));
    var u := Next(t, Append);
    RunCons(s, Popen(child), [Append, Raise(signal)], [Popen(child), Append, Raise(signal)]);
    RunCons(t, Append, [Raise(signal)], [Append, Raise(signal)]);
    RunCons(u, Raise(signal), [], [Raise(signal)]);
    RunNothing(Next(u, Raise(signal)));
  }

  /** Without a handler the first interrupt runs the `atexit` hook, and a second one cuts it short. */
  lemma SecondInterruptOrphans(s: State, child: Pid)
    requires Enabled(s, Popen(child)) && Interrupt !in s.handled && !s.exiting
    ensures
      var end := Run(s, [Popen(child), Append, Raise(Interrupt), Raise(Interrupt)]);
      end.Some? && end.value.gone && child in end.value.managed && child in end.value.alive
  {
    hide Run;
    var t := Next(s, Popen(child));
    var u := Next(t, Append);
    var v := Next(u, Raise(Interrupt));
    var twice := [Raise(Interrupt), Raise(Interrupt)];
    RunCons(s, Popen(child), [Append] + twice, [Popen(child), Append, Raise(Interrupt), Raise(Interrupt)]);
    RunCons(t, Append, twice, [Append] + twice);
    RunCons(u, Raise(Interrupt), [Raise(Interrupt)], twice);
    RunCons(v, Raise(Interrupt), [], [Raise(Interrupt)]);
    RunNothing(Next(v, Raise(Interrupt)));
  }

  // ---- the functions of the module, undisturbed ----

  /** The signals whose handlers the platform and the thread allow to install. */
  function Working(works: Signal -> bool): set<Signal> {
    set sig | sig in CATCHABLE && works(sig)
  }

  function InstallSteps(works: Signal -> bool): seq<Event> {
    [CallSpawn, InstallNext(works(Term)), InstallNext(works(Interrupt)), InstallNext(works(Hangup)), SetInstalled]
  }

  /** `_install_handlers` sets its flag whether the handlers could be installed or not. */
  lemma InstallRuns(s: State, works: Signal -> bool)
    requires Enabled(s, CallSpawn) && !s.installed
    ensures Run(s, InstallSteps(works)) ==
      Some(s.(installed := true, handled := s.handled + Working(works), at := Starting))
  {
    hide Run, Next, Enabled, Working;
    var h1 := s.handled + if works(Term) then {Term} else {};
    var h2 := h1 + if works(Interrupt) then {Interrupt} else {};
    var h3 := h2 + if works(Hangup) then {Hangup} else {};
    var loop := InstallSteps(works)[1..];
    assert [Term, Interrupt, Hangup][1..] == [Interrupt, Hangup] && [Interrupt, Hangup][1..] == [Hangup];
    assert [Hangup][1..] == [] && loop[1..][1..][1..] == [SetInstalled];
    FirstStepRuns(s, InstallSteps(works));
    TurnRuns(s, [Term, Interrupt, Hangup], s.handled, works(Term), loop);
    TurnRuns(s, [Interrupt, Hangup], h1, works(Interrupt), loop[1..]);
    TurnRuns(s, [Hangup], h2, works(Hangup), loop[1..][1..]);
    LastStepRuns(s.(at := Installing([]), handled := h3));
    WorkingIs(works);
    assert h3 == s.handled + Working(works);
  }

  lemma WorkingIs(works: Signal -> bool)
    ensures Working(works) ==
      (if works(Term) then {Term} else {}) + (if works(Interrupt) then {Interrupt} else {})
      + (if works(Hangup) then {Hangup} else {})
  {
    EverySignal();
  }

  lemma FirstStepRuns(s: State, events: seq<Event>)
    requires Enabled(s, CallSpawn) && !s.installed && events != [] && events[0] == CallSpawn
    ensures Run(s, events) == Run(s.(at := Installing([Term, Interrupt, Hangup]), handled := s.handled), events[1..])
    ensures Running(s)
  {}

  /** One turn of the loop over the signals. */
  lemma TurnRuns(s: State, pending: seq<Signal>, handled: set<Signal>, works: bool, events: seq<Event>)
    requires Running(s) && pending != [] && events != [] && events[0] == InstallNext(works)
    ensures Run(s.(at := Installing(pending), handled := handled), events) ==
      Run(s.(at := Installing(pending[1..]), handled := handled + if works then {pending[0]} else {}), events[1..])
  {}

  lemma LastStepRuns(d: State)
    requires Running(d) && d.at == Installing([])
    ensures Run(d, [SetInstalled]) == Some(d.(at := Starting, installed := true))
  {
    RunCons(d, SetInstalled, [], [SetInstalled]);
    RunNothing(Next(d, SetInstalled));
  }

  function SpawnSteps(installed: bool, works: Signal -> bool, child: Pid): seq<Event> {
    (if installed then [CallSpawn] else InstallSteps(works)) + [Popen(child), Append]
  }

  class Manager {
    var managed: seq<Pid>
    var installed: bool
    var handled: set<Signal>
    var alive: set<Pid>
    var ever: set<Pid>

    constructor ()
      ensures Snapshot() == INITIAL
    {
      managed, installed, handled, alive, ever := [], false, {}, {}, {};
    }

    function Snapshot(): State
      reads this
    {
      State(managed, installed, handled, alive, ever, Outside, None, false, false)
    }

    method Terminate(proc: Pid)
      modifies this`alive
      ensures alive == old(alive) - {proc}
    {
      if proc !in alive {
        return;
      }
      alive := alive - {proc};
    }

    /** Goes through a copy of the list, then empties it. */
    method CleanupAll()
      modifies this`alive, this`managed
      ensures managed == [] && alive == old(alive) - set p | p in old(managed)
    {
      var procs := managed;
      for i := 0 to |procs|
        invariant managed == procs && alive == old(alive) - set p | p in procs[..i]
      {
        assert procs[..i + 1] == procs[..i] + [procs[i]];
        Terminate(procs[i]);
      }
      assert procs[..|procs|] == procs;
      managed := [];
    }

    /** Idempotent: the flag is set once. A handler that cannot be installed is passed over. */
    method InstallHandlers(works: Signal -> bool)
      modifies this`handled, this`installed
      ensures installed && handled == if old(installed) then old(handled) else old(handled) + Working(works)
    {
      if installed {
        return;
      }
      ghost var before := handled;
      var signals := [Term, Interrupt, Hangup];
      for i := 0 to |signals|
        invariant !installed && handled == before + set sig | sig in signals[..i] && works(sig)
      {
        assert signals[..i + 1] == signals[..i] + [signals[i]];
        if works(signals[i]) {
          handled := handled + {signals[i]};
        }
      }
      assert signals[..|signals|] == signals;
      EverySignal();
      installed := true;
    }

    method SpawnReynWeb(works: Signal -> bool, child: Pid)
      requires child !in ever
      modifies this
      ensures Run(old(Snapshot()), SpawnSteps(old(installed), works, child)) == Some(Snapshot())
      ensures managed == old(managed) + [child] && alive == old(alive) + {child}
    {
      hide Run;
      ghost var before := Snapshot();
      InstallHandlers(works);
      alive, ever := alive + {child}, ever + {child};
      managed := managed + [child];
      SpawnRuns(before, works, child);
    }

    /** Terminates the process and deregisters it; a second call changes nothing. */
    method StopReynWeb(proc: Pid)
      requires proc in ever && NoDuplicates(managed)
      modifies this`alive, this`managed
      ensures Run(old(Snapshot()), [CallStop(proc), Event.Terminate, Remove]) == Some(Snapshot())
      ensures proc !in alive && proc !in managed && NoDuplicates(managed)
      ensures proc !in old(alive) && proc !in old(managed) ==> Snapshot() == old(Snapshot())
    {
      hide Run;
      ghost var before := Snapshot();
      Terminate(proc);
      if proc in managed {
        managed := RemoveFirst(managed, proc);
      }
      RemovedForGood(before.managed, proc);
      StopRuns(before, proc);
    }
  }

  lemma SpawnRuns(s: State, works: Signal -> bool, child: Pid)
    requires Running(s) && s.at == Outside && child !in s.ever
    ensures Run(s, SpawnSteps(s.installed, works, child)) == Some(s.(
      managed := s.managed + [child], installed := true,
      handled := if s.installed then s.handled else s.handled + Working(works),
      alive := s.alive + {child}, ever := s.ever + {child}))
  {
    hide Run;
    var steps := if s.installed then [CallSpawn] else InstallSteps(works);
    var ready := s.(installed := true, handled := if s.installed then s.handled else s.handled + Working(works), at := Starting);
    if s.installed {
      RunCons(s, CallSpawn, [], [CallSpawn]);
      RunNothing(ready);
      assert [CallSpawn] + [] == steps;
    } else {
      InstallRuns(s, works);
    }
    RunAppend(s, steps, [Popen(child), Append]);
    var started := Next(ready, Popen(child));
    RunCons(ready, Popen(child), [Append], [Popen(child), Append]);
    RunCons(started, Append, [], [Append]);
    RunNothing(Next(started, Append));
  }

  lemma StopRuns(s: State, proc: Pid)
    requires Running(s) && s.at == Outside && proc in s.ever
    ensures Run(s, [CallStop(proc), Terminate, Remove]) ==
      Some(s.(alive := s.alive - {proc}, managed := RemoveFirst(s.managed, proc)))
  {
    hide Run;
    var a := Next(s, CallStop(proc));
    var b := Next(a, Terminate);
    RunCons(s, CallStop(proc), [Terminate, Remove], [CallStop(proc), Terminate, Remove]);
    RunCons(a, Terminate, [Remove], [Terminate, Remove]);
    RunCons(b, Remove, [], [Remove]);
    RunNothing(Next(b, Remove));
  }
}
