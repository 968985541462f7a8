/**
 The data plane manager: it replaces the running generation by a freshly built one, stopping the
 old before starting the new, with three points at which a rebuild can fail.
 */
module DataPlane {
  import opened Wrappers
  import opened Lifecycle

  /** ManagerStatus; an absent generation is the empty string. */
  datatype Status = Status(running: bool, generation: Option<nat>, reason: string, failed: bool)

  const NO_STATUS := Status(false, None, "", false)

  /**
   The manager's state. `detached` are the generations that Stop took off the manager but whose own
   Stop call has not been made yet: Stop releases the lock in between.
   */
  datatype ManagerState = ManagerState(
    current: Option<State>,
    status: Status,
    detached: seq<State>,
    built: nat,
    trace: seq<Event>)

  const INITIAL := ManagerState(None, NO_STATUS, [], 0, [])

  /** What the builder returns: an error, or a fresh generation with the given components. */
  datatype Build = BuildFails | Builds(components: seq<Name>)

  datatype Outcome = BuildFailed | OldStopFailed | NextStartFailed | Rebuilt

  /** Which components fail in a rebuild: stopping the old, starting the next, rolling the next back. */
  datatype Faults = Faults(stop: set<Name>, start: set<Name>, rollback: set<Name>)

  function GenerationOf(plane: Option<State>): Option<nat> {
    if plane.Some? then Some(plane.value.generation) else None
  }

  function Fresh(generation: nat, components: seq<Name>): State {
    State(generation, components, [], false)
  }

  function Rebuilding(s: ManagerState, build: Build, reason: string, faults: Faults): (ManagerState, Outcome) {
    if build.BuildFails? then
      (s.(status := Status(false, GenerationOf(s.current), reason, true)), BuildFailed)
    else
      var counted := s.(built := s.built + 1);
      var next := Fresh(s.built, build.components);
      if s.current.Some? then
        var stop := Stopping(s.current.value, faults.stop);
        var stopped := counted.(trace := s.trace + stop.events);
        if !stop.ok then
          (stopped.(current := Some(stop.state), status := Status(true, GenerationOf(s.current), reason, true)),
           OldStopFailed)
        else Launch(stopped.(current := None), next, reason, faults)
      else Launch(counted, next, reason, faults)
  }

  /** The last part of a rebuild, with the old generation out of the way. */
  function Launch(s: ManagerState, next: State, reason: string, faults: Faults): (ManagerState, Outcome) {
    var start := Starting(next, faults.start, faults.rollback);
    var started := s.(trace := s.trace + start.events);
    if !start.ok then (started.(status := Status(false, None, reason, true)), NextStartFailed)
    else (started.(current := Some(start.state), status := Status(true, Some(next.generation), reason, false)), Rebuilt)
  }

  /** Manager.Stop under its lock. */
  function Detach(s: ManagerState): ManagerState {
    s.(current := None, status := Status(false, None, "stop", false),
       detached := if s.current.Some? then s.detached + [s.current.value] else s.detached)
  }

  /** Manager.Stop after it released its lock: the plane's own Stop. */
  function Release(s: ManagerState, i: nat, fails: set<Name>): ManagerState
    requires i < |s.detached|
  {
    s.(detached := s.detached[..i] + s.detached[i + 1..],
       trace := s.trace + Stopping(s.detached[i], fails).events)
  }

  // ---------------------------------------------------------------- runs

  datatype Action =
    | DoRebuild(build: Build, reason: string, faults: Faults)
    | DoDetach
    | DoRelease(index: nat, fails: set<Name>)

  function Step(s: ManagerState, a: Action): ManagerState {
    match a
    case DoRebuild(build, reason, faults) => Rebuilding(s, build, reason, faults).0
    case DoDetach => Detach(s)
    case DoRelease(i, fails) => if i < |s.detached| then Release(s, i, fails) else s
  }

  function Run(actions: seq<Action>): ManagerState {
    if actions == [] then INITIAL else Step(Run(actions[..|actions| - 1]), actions[|actions| - 1])
  }

  /** No rebuild begins while a stopped generation still waits for its own Stop call. */
  predicate Serialized(actions: seq<Action>) {
    actions == [] ||
    var n := |actions| - 1;
    Serialized(actions[..n]) && (actions[n].DoRebuild? ==> Run(actions[..n]).detached == [])
  }

  /** The one generation that can have components up. */
  function Live(s: ManagerState): Option<State> {
    if s.current.Some? then s.current
    else if s.detached != [] then Some(s.detached[0])
    else None
  }

  function Up(s: ManagerState): seq<(nat, Name)> {
    if Live(s).Some? then Tagged(Live(s).value.generation, Live(s).value.started) else []
  }

  predicate Ordered(trace: seq<Event>) {
    forall i, j | 0 <= i < j < |trace| :: trace[i].generation <= trace[j].generation
  }

  predicate Below(trace: seq<Event>, bound: nat) {
    forall i | 0 <= i < |trace| :: trace[i].generation <= bound
  }

  ghost predicate Inv(s: ManagerState) {
    && (s.current.Some? ==> s.detached == []) && |s.detached| <= 1
    && (Live(s).Some? ==> Settled(Live(s).value) && Live(s).value.generation < s.built)
    && Outstanding(s.trace) == Some(Up(s))
    && Ordered(s.trace)
    && (if Live(s).Some? then Below(s.trace, Live(s).value.generation)
        else s.trace == [] || (s.built > 0 && Below(s.trace, s.built - 1)))
  }

  predicate Of(events: seq<Event>, generation: nat) {
    forall i | 0 <= i < |events| :: events[i].generation == generation
  }

  lemma {:induction false} StopEventsOf(generation: nat, names: seq<Name>, fails: set<Name>)
    ensures Of(StopEvents(generation, names, fails), generation)
    decreases |names|
  {
    if names != [] {
      StopEventsOf(generation, names[..|names| - 1], fails);
    }
  }

  lemma {:induction false} StartEventsOf(generation: nat, names: seq<Name>)
    ensures Of(StartEvents(generation, names), generation)
  {
    if names != [] {
      StartEventsOf(generation, names[..|names| - 1]);
    }
  }

  lemma StartingOf(plane: State, fails: set<Name>, rollback: set<Name>)
    ensures Of(Starting(plane, fails, rollback).events, plane.generation)
  {
    hide StartEvents, StopEvents, Startable;
    var n := Startable(plane.components, fails);
    StartEventsOf(plane.generation, plane.components[..n]);
    StopEventsOf(plane.generation, plane.started + plane.components[..n], rollback);
  }

  lemma OrderedAppend(trace: seq<Event>, events: seq<Event>, generation: nat)
    requires Ordered(trace) && Below(trace, generation) && Of(events, generation)
    ensures Ordered(trace + events) && Below(trace + events, generation)
  {
  }

  /** Stopping a plane that is the live one leaves it, or its removal, in order. */
  lemma StopLive(s: ManagerState, plane: State, fails: set<Name>)
    requires Inv(s) && Live(s) == Some(plane)
    ensures
      var stop := Stopping(plane, fails);
      && Outstanding(s.trace + stop.events) == Some([])
      && Ordered(s.trace + stop.events) && Below(s.trace + stop.events, plane.generation)
      && stop.state == plane.(started := [], running := false)
  {
    hide Outstanding, StopEvents;
    StopLeavesNothing(plane, fails, s.trace);
    StopEventsOf(plane.generation, plane.started, fails);
    OrderedAppend(s.trace, Stopping(plane, fails).events, plane.generation);
  }

  lemma LaunchKeeps(s: ManagerState, next: State, reason: string, faults: Faults)
    requires s.current.None? && s.detached == [] && next.generation + 1 == s.built
    requires next == Fresh(next.generation, next.components)
    requires Outstanding(s.trace) == Some([]) && Ordered(s.trace) && Below(s.trace, next.generation)
    ensures Inv(Launch(s, next, reason, faults).0)
  {
    hide Outstanding, Starting, Of, Ordered, Below;
    assert Tagged(next.generation, next.started) == [];
    StartOnEmpty(next, faults.start, faults.rollback, s.trace);
    StartingOf(next, faults.start, faults.rollback);
    var start := Starting(next, faults.start, faults.rollback);
    OrderedAppend(s.trace, start.events, next.generation);
    GenerationKept(next, faults.start, faults.rollback);
    assert Tagged(next.generation, []) == [];
  }

  lemma GenerationKept(plane: State, fails: set<Name>, rollback: set<Name>)
    ensures Starting(plane, fails, rollback).state.generation == plane.generation
    ensures !Starting(plane, fails, rollback).ok ==> Starting(plane, fails, rollback).state.started == []
  {
  }

  lemma BelowWeaken(trace: seq<Event>, bound: nat, higher: nat)
    requires Below(trace, bound) && bound <= higher
    ensures Below(trace, higher)
  {
  }

  lemma RebuildKeeps(s: ManagerState, build: Build, reason: string, faults: Faults)
    requires Inv(s) && s.detached == []
    ensures Inv(Rebuilding(s, build, reason, faults).0)
  {
    hide Outstanding, Stopping, Launch, Ordered, Below;
    if build.Builds? {
      var next := Fresh(s.built, build.components);
      if s.current.Some? {
        var plane := s.current.value;
        StopLive(s, plane, faults.stop);
        var stop := Stopping(plane, faults.stop);
        assert Tagged(plane.generation, []) == [];
        if stop.ok {
          BelowWeaken(s.trace + stop.events, plane.generation, s.built);
          LaunchKeeps(s.(built := s.built + 1, trace := s.trace + stop.events, current := None), next, reason, faults);
        }
      } else {
        if s.trace != [] {
          BelowWeaken(s.trace, s.built - 1, s.built);
        } else {
          assert Below([], s.built) by { NothingBelow(s.built); }
        }
        LaunchKeeps(s.(built := s.built + 1), next, reason, faults);
      }
    }
  }

  lemma NothingBelow(bound: nat)
    ensures Below([], bound)
  {
  }

  lemma StepKeeps(s: ManagerState, a: Action)
    requires Inv(s) && (a.DoRebuild? ==> s.detached == [])
    ensures Inv(Step(s, a))
  {
    hide Outstanding, Stopping, Rebuilding, Ordered, Below;
    match a
    case DoRebuild(build, reason, faults) => RebuildKeeps(s, build, reason, faults);
    case DoDetach =>
    case DoRelease(i, fails) =>
      if i < |s.detached| {
        StopLive(s, s.detached[0], fails);
        BelowWeaken(s.trace + Stopping(s.detached[0], fails).events, s.detached[0].generation, s.built - 1);
      }
  }

  lemma {:induction false} RunKeeps(actions: seq<Action>)
    requires Serialized(actions)
    ensures Inv(Run(actions))
  {
    if actions != [] {
      var n := |actions| - 1;
      RunKeeps(actions[..n]);
      StepKeeps(Run(actions[..n]), actions[n]);
    }
  }

  // ---------------------------------------------------------------- what every serialized run guarantees

  /**
   Generation handover: over every serialized run, with any build, start and stop failures, starts
   and stops nest, the components that are up all belong to one generation, which is the current
   one or the one being stopped, and everything a generation does comes before anything of a later
   one.
   */
  lemma Handover(actions: seq<Action>)
    requires Serialized(actions)
    ensures
      var s := Run(actions);
      && Outstanding(s.trace) == Some(Up(s))
      && (forall i, j | 0 <= i < j < |s.trace| :: s.trace[i].generation <= s.trace[j].generation)
      && (s.detached == [] && s.current.None? ==> Outstanding(s.trace) == Some([]))
      && (s.current.Some? ==> Settled(s.current.value) && s.detached == [])
  {
    RunKeeps(actions);
  }

  /** A rebuild that succeeds has all its components up and nothing else. */
  lemma RebuiltIsUp(actions: seq<Action>, components: seq<Name>, reason: string, faults: Faults)
    requires Serialized(actions) && Run(actions).detached == []
    requires Rebuilding(Run(actions), Builds(components), reason, faults).1 == Rebuilt
    ensures
      var s := Rebuilding(Run(actions), Builds(components), reason, faults).0;
      && Outstanding(s.trace) == Some(Tagged(Run(actions).built, components))
      && s.status == Status(true, Some(Run(actions).built), reason, false)
  {
    hide Outstanding;
    RunKeeps(actions);
    RebuildKeeps(Run(actions), Builds(components), reason, faults);
  }

  /**
   Once stopping the old generation failed, the old generation has nothing left to stop, so later
   rebuilds that build always get past the stop step; failed builds in between do not change that.
   */
  lemma StopFailsOnce(s: ManagerState, build: Build, reason: string, faults: Faults,
                      retry: Build, again: string, more: Faults)
    requires Rebuilding(s, build, reason, faults).1 == OldStopFailed
           || (s.current.Some? && s.current.value.started == [] && Rebuilding(s, build, reason, faults).1 == BuildFailed)
    ensures
      var after := Rebuilding(s, build, reason, faults).0;
      && after.current.Some? && after.current.value.started == []
      && Rebuilding(after, retry, again, more).1 != OldStopFailed
  {
  }

  /**
   The recorded status is right about whether a generation is running, except after two failures
   while one is running: a failed build, and a component of the old one that fails to stop.
   */
  lemma StatusTruth(s: ManagerState, build: Build, reason: string, faults: Faults)
    requires s.current.Some? ==> Settled(s.current.value)
    ensures
      var after := Rebuilding(s, build, reason, faults).0;
      (after.status.running <==> after.current.Some? && after.current.value.running)
      <==> !(&& s.current.Some? && s.current.value.running
             && (build.BuildFails? || !StopsCleanly(s.current.value.started, faults.stop)))
  {
    hide StartEvents, StopEvents, Startable;
    if build.Builds? {
      StartedRuns(Fresh(s.built, build.components), faults.start, faults.rollback);
    }
  }

  lemma StartedRuns(plane: State, fails: set<Name>, rollback: set<Name>)
    ensures Starting(plane, fails, rollback).ok ==> Starting(plane, fails, rollback).state.running
  {
  }

  /**
   What a rebuild comes to, by the point at which it fails, if any: the build, a component of the old
   generation that does not stop, or one of the next that does not start.
   */
  lemma RebuildExact(s: ManagerState, build: Build, reason: string, faults: Faults)
    requires s.current.Some? ==> Settled(s.current.value)
    ensures
      var (after, outcome) := Rebuilding(s, build, reason, faults);
      var stops := s.current.Some? ==> StopsCleanly(s.current.value.started, faults.stop);
      var starts := build.Builds? && forall i | 0 <= i < |build.components| :: build.components[i] !in faults.start;
      && (outcome.BuildFailed? <==> build.BuildFails?)
      && (outcome.OldStopFailed? <==> build.Builds? && !stops)
      && (outcome.NextStartFailed? <==> build.Builds? && stops && !starts)
      && after.detached == s.detached
      && after.status.reason == reason
      && after.status.failed == !outcome.Rebuilt?
      && after.status.generation == GenerationOf(after.current)
      && match outcome
         case BuildFailed => after.current == s.current && after.trace == s.trace
         case OldStopFailed =>
           && s.current.Some? && after.current == Some(s.current.value.(started := [], running := false))
         case NextStartFailed => after.current == None
         case Rebuilt => after.current == Some(State(s.built, build.components, build.components, true))
  {
    hide StartEvents, StopEvents, Startable;
    if build.Builds? {
      StartableAll(build.components, faults.start);
      assert [] + build.components[..|build.components|] == build.components;
    }
  }

  /** What the components see of it: the old ones stop, and then the next ones start. */
  lemma RebuildTrace(s: ManagerState, components: seq<Name>, reason: string, faults: Faults)
    ensures
      var (after, outcome) := Rebuilding(s, Builds(components), reason, faults);
      var stop := if s.current.Some? then Stopping(s.current.value, faults.stop).events else [];
      var start := if outcome.OldStopFailed? then []
                   else Starting(State(s.built, components, [], false), faults.start, faults.rollback).events;
      after.trace == s.trace + stop + start
  {
    hide StartEvents, StopEvents, Startable, StopsCleanly;
    assert s.trace + [] == s.trace;
  }

  /** In every run the status names the generation that the manager holds. */
  lemma {:induction false} StatusNamesCurrent(actions: seq<Action>)
    ensures Run(actions).status.generation == GenerationOf(Run(actions).current)
  {
    if actions != [] {
      hide StartEvents, StopEvents, Startable, StopsCleanly;
      StatusNamesCurrent(actions[..|actions| - 1]);
      GenerationsMatch(Run(actions[..|actions| - 1]), actions[|actions| - 1]);
    }
  }

  lemma GenerationsMatch(s: ManagerState, a: Action)
    requires s.status.generation == GenerationOf(s.current)
    ensures Step(s, a).status.generation == GenerationOf(Step(s, a).current)
  {
    hide StartEvents, StopEvents, Startable, StopsCleanly;
  }

  /** Stop takes the current generation off, reports that nothing runs, and then stops just that one. */
  lemma StopExact(s: ManagerState, i: nat, fails: set<Name>)
    ensures
      var taken := Step(s, DoDetach);
      && taken.current == None && taken.trace == s.trace
      && taken.status == Status(false, None, "stop", false)
      && taken.detached == if s.current.Some? then s.detached + [s.current.value] else s.detached
    ensures i < |s.detached| ==>
      var after := Step(s, DoRelease(i, fails));
      && after.detached == s.detached[..i] + s.detached[i + 1..]
      && after.current == s.current && after.status == s.status
      && s.trace <= after.trace
      && StopsBack(after.trace[|s.trace|..], s.detached[i].generation, s.detached[i].started, fails)
  {
    if i < |s.detached| {
      StopTrace(s.detached[i], fails);
      assert Step(s, DoRelease(i, fails)).trace[|s.trace|..] == Stopping(s.detached[i], fails).events;
    }
  }

  /**
   What a rebuild does while the generation taken off by Stop is still up: two generations are up
   afterwards exactly when the rebuild succeeds, the old one has components and so has the new.
   */
  lemma OverlapExactly(actions: seq<Action>, components: seq<Name>, reason: string, faults: Faults)
    requires Serialized(actions) && Run(actions).detached != []
    ensures
      var s := Run(actions);
      var (after, outcome) := Rebuilding(s, Builds(components), reason, faults);
      && Outstanding(after.trace)
         == Some(Up(s) + if outcome.Rebuilt? then Tagged(s.built, components) else [])
      && (outcome.Rebuilt? <==> forall i | 0 <= i < |components| :: components[i] !in faults.start)
      && forall e <- Up(s) :: e.0 < s.built
  {
    hide Outstanding, Starting, Ordered, Below;
    RunKeeps(actions);
    var s := Run(actions);
    var next := Fresh(s.built, components);
    assert Tagged(s.built, []) == [] && Up(s) + [] == Up(s);
    StartAllOrNothing(next, faults.start, faults.rollback, s.trace, Up(s));
    GenerationKept(next, faults.start, faults.rollback);
  }

  /**
   Without serialization the handover fails: a rebuild that gets the lock between Stop's release
   of it and the plane's own stop brings a second generation up beside the first.
   */
  lemma UnserializedOverlaps(a: Name, b: Name)
    ensures
      var none := Faults({}, {}, {});
      var s := Run([DoRebuild(Builds([a]), "one", none), DoDetach, DoRebuild(Builds([b]), "two", none)]);
      && !Serialized([DoRebuild(Builds([a]), "one", none), DoDetach, DoRebuild(Builds([b]), "two", none)])
      && Outstanding(s.trace) == Some([(0, a), (1, b)])
  {
    var none := Faults({}, {}, {});
    var x, y := DoRebuild(Builds([a]), "one", none), DoRebuild(Builds([b]), "two", none);
    OneComponent(0, a);
    OneComponent(1, b);
    assert [x, DoDetach, y][..2] == [x, DoDetach] && [x, DoDetach][..1] == [x] && [x][..0] == [];
    assert Run([x]) == Step(INITIAL, x);
    assert Run([x, DoDetach]) == Step(Run([x]), DoDetach);
    var s := Run([x, DoDetach, y]);
    assert s == Step(Run([x, DoDetach]), y);
    assert [] + [Started(0, a)] == [Started(0, a)];
    assert s.trace == [Started(0, a)] + [Started(1, b)];
    OutstandingStep([], Started(0, a));
    OutstandingStep([Started(0, a)], Started(1, b));
    assert [] + [(0, a)] == [(0, a)] && [(0, a)] + [(1, b)] == [(0, a), (1, b)];
  }

  lemma OneComponent(generation: nat, name: Name)
    ensures Starting(Fresh(generation, [name]), {}, {})
         == Effect(State(generation, [name], [name], true), [Started(generation, name)], true)
  {
    assert Startable([name], {}) == 1;
    assert [name][..1] == [name] && [name][..0] == [];
    assert StartEvents(generation, [name]) == [] + [Started(generation, name)];
    assert [] + [name] == [name];
  }

  // ---------------------------------------------------------------- the manager object

  class ServiceDataPlane {
    const lifecycle: Runtime

    constructor (lifecycle: Runtime)
      ensures this.lifecycle == lifecycle
    {
      this.lifecycle := lifecycle;
    }

    method Start(fails: set<Name>, rollback: set<Name>) returns (ok: bool)
      modifies lifecycle`started, lifecycle`running, lifecycle.journal
      ensures lifecycle.Abs() == Starting(old(lifecycle.Abs()), fails, rollback).state
      ensures ok == Starting(old(lifecycle.Abs()), fails, rollback).ok
      ensures lifecycle.journal.events
           == old(lifecycle.journal.events) + Starting(old(lifecycle.Abs()), fails, rollback).events
    {
      ok := lifecycle.Start(fails, rollback);
    }

    method Stop(fails: set<Name>) returns (ok: bool)
      modifies lifecycle`started, lifecycle`running, lifecycle.journal
      ensures lifecycle.Abs() == Stopping(old(lifecycle.Abs()), fails).state
      ensures ok == Stopping(old(lifecycle.Abs()), fails).ok
      ensures lifecycle.journal.events
           == old(lifecycle.journal.events) + Stopping(old(lifecycle.Abs()), fails).events
    {
      ok := lifecycle.Stop(fails);
    }
  }

  class Manager {
    const journal: Journal
    var current: ServiceDataPlane?
    var status: Status
    ghost var built: nat
    ghost var detached: seq<State>

    ghost predicate Valid()
      reads this
    {
      current != null ==> current.lifecycle.journal == journal
    }

    /** The state this manager is in, by value. */
    ghost function Abs(): ManagerState
      reads this, journal, if current == null then {} else {current.lifecycle}
    {
      ManagerState(if current == null then None else Some(current.lifecycle.Abs()), status, detached, built, journal.events)
    }

    constructor (journal: Journal)
      requires journal.events == []
      ensures Valid() && Abs() == INITIAL && this.journal == journal
    {
      this.journal := journal;
      current, status, built, detached := null, NO_STATUS, 0, [];
    }

    /** One rebuild, with the generation that the builder produced or None for its failure. */
    method Rebuild(next: ServiceDataPlane?, reason: string, faults: Faults) returns (ghost outcome: Outcome, ok: bool)
      requires Valid()
      requires next != null ==>
                 && next.lifecycle.journal == journal
                 && next.lifecycle.Abs() == Fresh(built, next.lifecycle.components)
                 && (current != null ==> next.lifecycle != current.lifecycle)
      modifies this, journal
      modifies if current == null then {} else {current.lifecycle}, if next == null then {} else {next.lifecycle}
      ensures Valid()
      ensures
        var build := if next == null then BuildFails else Builds(old(if next == null then [] else next.lifecycle.components));
        (Abs(), outcome) == Rebuilding(old(Abs()), build, reason, faults)
      ensures ok <==> outcome == Rebuilt
      ensures ok ==> current == next
    {
      hide Starting, Stopping;
      ok := false;
      if next == null {
        status := Status(false, CurrentGeneration(), reason, true);
        outcome := BuildFailed;
        return;
      }
      built := built + 1;
      if current != null {
        var stopped := current.Stop(faults.stop);
        if !stopped {
          status := Status(true, CurrentGeneration(), reason, true);
          outcome := OldStopFailed;
          return;
        }
        current := null;
      }
      var started := next.Start(faults.start, faults.rollback);
      if !started {
        status := Status(false, None, reason, true);
        outcome := NextStartFailed;
        return;
      }
      current := next;
      status := Status(true, Some(next.lifecycle.generation), reason, false);
      outcome := Rebuilt;
      ok := true;
    }

    /** Stop with nothing else going on: both halves of it. */
    method Stop(fails: set<Name>) returns (ok: bool)
      requires Valid() && detached == []
      modifies this, journal
      modifies if current == null then {} else {current.lifecycle}
      ensures Valid() && current == null
      ensures Abs() == (if old(current) == null then Detach(old(Abs())) else Release(Detach(old(Abs())), 0, fails))
      ensures ok == (old(current) == null
                     || StopsCleanly(old(if current == null then [] else current.lifecycle.started), fails))
    {
      var plane := TakeCurrent();
      if plane == null {
        return true;
      }
      ok := plane.Stop(fails);
      detached := [];
    }

    function CurrentGeneration(): Option<nat>
      reads this
    {
      if current == null then None else Some(current.lifecycle.generation)
    }

    /** Stop's critical section: takes the current generation off the manager. */
    method TakeCurrent() returns (plane: ServiceDataPlane?)
      requires Valid()
      modifies this
      ensures Valid() && plane == old(current)
      ensures Abs() == Detach(old(Abs()))
    {
      plane := current;
      if current != null {
        detached := detached + [current.lifecycle.Abs()];
      }
      current := null;
      status := Status(false, None, "stop", false);
    }
  }
}
