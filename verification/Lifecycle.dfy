/**
 The component lifecycle: ordered start with rollback, and stop in reverse order. Which components
 fail to start or to stop in a call is arbitrary and given to the call as a set of names.
 */
module Lifecycle {
  import opened Wrappers

  type Name = string

  /** What components saw, tagged with the generation of the runtime that owns them. */
  datatype Event =
    | Started(generation: nat, name: Name)
    | StartFailed(generation: nat, name: Name)
    | Stopped(generation: nat, name: Name, ok: bool)

  datatype State = State(generation: nat, components: seq<Name>, started: seq<Name>, running: bool)

  /** How many components come before the first one that fails to start. */
  function Startable(components: seq<Name>, fails: set<Name>): (n: nat)
    ensures n <= |components|
  {
    if components == [] || components[0] in fails then 0 else 1 + Startable(components[1..], fails)
  }

  function StartEvents(generation: nat, names: seq<Name>): seq<Event> {
    if names == [] then []
    else StartEvents(generation, names[..|names| - 1]) + [Started(generation, names[|names| - 1])]
  }

  /** The events of stopping `names`, last one first. */
  function StopEvents(generation: nat, names: seq<Name>, fails: set<Name>): seq<Event> {
    if names == [] then []
    else
      var last := names[|names| - 1];
      [Stopped(generation, last, last !in fails)] + StopEvents(generation, names[..|names| - 1], fails)
  }

  predicate StopsCleanly(names: seq<Name>, fails: set<Name>) {
    forall i | 0 <= i < |names| :: names[i] !in fails
  }

  // ---------------------------------------------------------------- the operations

  /** The state after an operation, the events it caused and whether it succeeded. */
  datatype Effect = Effect(state: State, events: seq<Event>, ok: bool)

  function Adding(s: State, name: Name): Effect {
    if name == "" || s.running || name in s.components then Effect(s, [], false)
    else Effect(s.(components := s.components + [name]), [], true)
  }

  function Starting(s: State, fails: set<Name>, stopFails: set<Name>): Effect {
    if s.running then Effect(s, [], true)
    else
      var n := Startable(s.components, fails);
      var up := s.started + s.components[..n];
      var starts := StartEvents(s.generation, s.components[..n]);
      if n == |s.components| then Effect(s.(started := up, running := true), starts, true)
      else Effect(s.(started := []),
                  starts + [StartFailed(s.generation, s.components[n])] + StopEvents(s.generation, up, stopFails),
                  false)
  }

  function Stopping(s: State, fails: set<Name>): Effect {
    Effect(s.(started := [], running := false),
           StopEvents(s.generation, s.started, fails),
           StopsCleanly(s.started, fails))
  }

  // ---------------------------------------------------------------- bracketing

  /** The components started and not yet stopped, newest last; None once a stop has no matching start. */
  function Outstanding(trace: seq<Event>): Option<seq<(nat, Name)>> {
    if trace == [] then Some([])
    else
      var init := Outstanding(trace[..|trace| - 1]);
      var e := trace[|trace| - 1];
      if init.None? then None
      else match e
        case Started(g, name) => Some(init.value + [(g, name)])
        case StartFailed(_, _) => init
        case Stopped(g, name, _) =>
          if init.value != [] && init.value[|init.value| - 1] == (g, name) then Some(init.value[..|init.value| - 1])
          else None
  }

  function Tagged(generation: nat, names: seq<Name>): seq<(nat, Name)> {
    seq(|names|, i requires 0 <= i < |names| => (generation, names[i]))
  }

  lemma OutstandingStep(trace: seq<Event>, e: Event)
    requires Outstanding(trace).Some?
    ensures Outstanding(trace + [e])
         == var open := Outstanding(trace).value;
            match e
            case Started(g, name) => Some(open + [(g, name)])
            case StartFailed(_, _) => Some(open)
            case Stopped(g, name, _) =>
              if open != [] && open[|open| - 1] == (g, name) then Some(open[..|open| - 1]) else None
  {
    assert (trace + [e])[..|trace|] == trace;
  }

  lemma {:induction false} StartsPush(trace: seq<Event>, generation: nat, names: seq<Name>)
    requires Outstanding(trace).Some?
    ensures Outstanding(trace + StartEvents(generation, names))
         == Some(Outstanding(trace).value + Tagged(generation, names))
  {
    hide Outstanding;
    if names == [] {
      assert trace + [] == trace;
      assert Outstanding(trace).value + Tagged(generation, names) == Outstanding(trace).value;
    } else {
      var n := |names| - 1;
      var init := StartEvents(generation, names[..n]);
      StartsPush(trace, generation, names[..n]);
      assert trace + (init + [Started(generation, names[n])]) == (trace + init) + [Started(generation, names[n])];
      OutstandingStep(trace + init, Started(generation, names[n]));
      var open, tags := Outstanding(trace).value, Tagged(generation, names[..n]);
      assert Tagged(generation, names) == tags + [(generation, names[n])];
      assert (open + tags) + [(generation, names[n])] == open + Tagged(generation, names);
    }
  }

  lemma {:induction false} StopsPop(trace: seq<Event>, generation: nat, names: seq<Name>, fails: set<Name>,
                                    below: seq<(nat, Name)>)
    requires Outstanding(trace) == Some(below + Tagged(generation, names))
    ensures Outstanding(trace + StopEvents(generation, names, fails)) == Some(below)
    decreases |names|
  {
    hide Outstanding;
    if names == [] {
      assert trace + [] == trace && below + Tagged(generation, names) == below;
    } else {
      var n := |names| - 1;
      var e := Stopped(generation, names[n], names[n] !in fails);
      var tags := Tagged(generation, names[..n]);
      assert Tagged(generation, names) == tags + [(generation, names[n])];
      assert StopEvents(generation, names, fails) == [e] + StopEvents(generation, names[..n], fails);
      hide StopEvents, Tagged;
      OutstandingStep(trace, e);
      assert below + (tags + [(generation, names[n])]) == (below + tags) + [(generation, names[n])];
      assert ((below + tags) + [(generation, names[n])])[..|below + tags|] == below + tags;
      StopsPop(trace + [e], generation, names[..n], fails, below);
      assert trace + ([e] + StopEvents(generation, names[..n], fails))
          == (trace + [e]) + StopEvents(generation, names[..n], fails);
    }
  }

  /** What holds between calls: all components are up, or none is. */
  predicate Settled(s: State) {
    if s.running then s.started == s.components else s.started == []
  }

  lemma {:induction false} StartableAll(components: seq<Name>, fails: set<Name>)
    ensures Startable(components, fails) == |components|
       <==> forall i | 0 <= i < |components| :: components[i] !in fails
  {
    if components != [] && components[0] !in fails {
      StartableAll(components[1..], fails);
      assert forall i | 0 < i < |components| :: components[i] == components[1..][i - 1];
    }
  }

  lemma {:induction false} StartableStops(components: seq<Name>, fails: set<Name>)
    ensures
      var n := Startable(components, fails);
      && (forall i | 0 <= i < n :: components[i] !in fails)
      && (n < |components| ==> components[n] in fails)
  {
    if components != [] && components[0] !in fails {
      StartableStops(components[1..], fails);
      assert forall i | 0 < i < |components| :: components[i] == components[1..][i - 1];
    }
  }

  /**
   Start either brings up every component, in order, or leaves none up, on top of whatever else is
   up in the process.
   */
  lemma StartAllOrNothing(s: State, fails: set<Name>, stopFails: set<Name>, trace: seq<Event>, below: seq<(nat, Name)>)
    requires Settled(s) && Outstanding(trace) == Some(below + Tagged(s.generation, s.started))
    ensures
      var effect := Starting(s, fails, stopFails);
      && Settled(effect.state)
      && effect.state.components == s.components
      && effect.ok == effect.state.running
      && (effect.ok <==> s.running || forall i | 0 <= i < |s.components| :: s.components[i] !in fails)
      && Outstanding(trace + effect.events) == Some(below + Tagged(s.generation, effect.state.started))
  {
    hide Outstanding, StartEvents, StopEvents, Startable;
    StartableAll(s.components, fails);
    if s.running {
      assert trace + [] == trace;
    } else {
      var n := Startable(s.components, fails);
      var up := s.components[..n];
      assert s.started + up == up && Tagged(s.generation, []) == [];
      assert below + [] == below;
      var starts := StartEvents(s.generation, up);
      StartsPush(trace, s.generation, up);
      if n < |s.components| {
        var failed := StartFailed(s.generation, s.components[n]);
        OutstandingStep(trace + starts, failed);
        StopsPop(trace + starts + [failed], s.generation, up, stopFails, below);
        assert trace + (starts + [failed] + StopEvents(s.generation, up, stopFails))
          == (trace + starts + [failed]) + StopEvents(s.generation, up, stopFails);
      } else {
        assert up == s.components;
      }
    }
  }

  lemma StartOnEmpty(s: State, fails: set<Name>, stopFails: set<Name>, trace: seq<Event>)
    requires Settled(s) && Outstanding(trace) == Some(Tagged(s.generation, s.started))
    ensures
      var effect := Starting(s, fails, stopFails);
      && Settled(effect.state)
      && effect.state.components == s.components
      && Outstanding(trace + effect.events) == Some(Tagged(s.generation, effect.state.started))
  {
    hide Outstanding, Starting, Settled;
    assert [] + Tagged(s.generation, s.started) == Tagged(s.generation, s.started);
    StartAllOrNothing(s, fails, stopFails, trace, []);
    var started := Starting(s, fails, stopFails).state.started;
    assert [] + Tagged(s.generation, started) == Tagged(s.generation, started);
  }

  /** Stop leaves nothing up, even when components fail to stop. */
  lemma StopLeavesNothing(s: State, fails: set<Name>, trace: seq<Event>)
    requires Outstanding(trace) == Some(Tagged(s.generation, s.started))
    ensures
      var effect := Stopping(s, fails);
      && Settled(effect.state) && !effect.state.running
      && Outstanding(trace + effect.events) == Some([])
  {
    assert [] + Tagged(s.generation, s.started) == Tagged(s.generation, s.started);
    StopsPop(trace, s.generation, s.started, fails, []);
  }

  // ---------------------------------------------------------------- whole runs

  datatype Call =
    | CallAdd(name: Name)
    | CallStart(fails: set<Name>, stopFails: set<Name>)
    | CallStop(stopFails: set<Name>)

  function Perform(s: State, call: Call): Effect {
    match call
    case CallAdd(name) => Adding(s, name)
    case CallStart(fails, stopFails) => Starting(s, fails, stopFails)
    case CallStop(stopFails) => Stopping(s, stopFails)
  }

  function Run(generation: nat, calls: seq<Call>): (State, seq<Event>) {
    if calls == [] then (State(generation, [], [], false), [])
    else
      var (s, trace) := Run(generation, calls[..|calls| - 1]);
      var effect := Perform(s, calls[|calls| - 1]);
      (effect.state, trace + effect.events)
  }

  ghost predicate Distinct(names: seq<Name>) {
    forall i, j | 0 <= i < j < |names| :: names[i] != names[j]
  }

  /**
   Over every run, whatever fails, starts and stops are properly nested, no component is stopped
   for a start that failed, the open starts are exactly `started`, and between calls that is all
   components while running and none otherwise.
   */
  lemma {:induction false} RunBrackets(generation: nat, calls: seq<Call>)
    ensures
      var (s, trace) := Run(generation, calls);
      && s.generation == generation
      && Settled(s)
      && Distinct(s.components)
      && Outstanding(trace) == Some(Tagged(generation, s.started))
  {
    if calls == [] {
      assert Tagged(generation, []) == [];
    } else {
      var n := |calls| - 1;
      RunBrackets(generation, calls[..n]);
      var (s, trace) := Run(generation, calls[..n]);
      match calls[n]
      case CallAdd(name) => assert trace + [] == trace;
      case CallStart(fails, stopFails) => StartOnEmpty(s, fails, stopFails, trace);
      case CallStop(stopFails) =>
        StopLeavesNothing(s, stopFails, trace);
        assert Tagged(generation, []) == [];
    }
  }

  /**
   Add, in every run: it succeeds exactly for a name that is not empty and not there yet, while the
   runtime is not running; then the component comes last, and otherwise nothing changes.
   */
  lemma AddExact(generation: nat, calls: seq<Call>, name: Name)
    ensures
      var s := Run(generation, calls).0;
      var effect := Perform(s, CallAdd(name));
      && (effect.ok <==> name != "" && !s.running && name !in s.components)
      && effect.events == []
      && effect.state == if effect.ok then s.(components := s.components + [name]) else s
  {
    hide Run;
  }

  /** The names that were added, in order: not empty, not there yet, and while nothing ran. */
  function Names(generation: nat, calls: seq<Call>): seq<Name> {
    if calls == [] then []
    else
      var n := |calls| - 1;
      var before := Names(generation, calls[..n]);
      if calls[n].CallAdd? && calls[n].name != "" && calls[n].name !in before && !Run(generation, calls[..n]).0.running
      then before + [calls[n].name]
      else before
  }

  /** In every run the components are the names that were added, in order. */
  lemma {:induction false} ComponentsAreAdds(generation: nat, calls: seq<Call>)
    ensures Run(generation, calls).0.components == Names(generation, calls)
  {
    if calls != [] {
      hide StartEvents, StopEvents, Startable, StopsCleanly;
      ComponentsAreAdds(generation, calls[..|calls| - 1]);
    }
  }

  // ---------------------------------------------------------------- what a call makes its components see

  lemma {:induction false} StartEventsAt(generation: nat, names: seq<Name>)
    ensures |StartEvents(generation, names)| == |names|
    ensures forall i | 0 <= i < |names| :: StartEvents(generation, names)[i] == Started(generation, names[i])
  {
    if names != [] {
      StartEventsAt(generation, names[..|names| - 1]);
    }
  }

  /** `stops` stop `names`, last one first. */
  predicate StopsBack(stops: seq<Event>, generation: nat, names: seq<Name>, fails: set<Name>) {
    && |stops| == |names|
    && forall i | 0 <= i < |stops| ::
         var name := names[|names| - 1 - i];
         stops[i] == Stopped(generation, name, name !in fails)
  }

  lemma {:induction false} StopEventsAt(generation: nat, names: seq<Name>, fails: set<Name>)
    ensures StopsBack(StopEvents(generation, names, fails), generation, names, fails)
    decreases |names|
  {
    if names != [] {
      var n := |names| - 1;
      StopEventsAt(generation, names[..n], fails);
      var rest, stops := StopEvents(generation, names[..n], fails), StopEvents(generation, names, fails);
      assert stops == [Stopped(generation, names[n], names[n] !in fails)] + rest;
      hide StopEvents;
      forall i | 0 <= i < |stops|
        ensures stops[i] == Stopped(generation, names[n - i], names[n - i] !in fails)
      {
        if i > 0 {
          assert stops[i] == rest[i - 1] && names[..n][n - 1 - (i - 1)] == names[n - i];
        }
      }
    }
  }

  /** The position of the first component that fails to start. */
  predicate FirstFailing(s: State, fails: set<Name>, n: nat) {
    n < |s.components| && s.components[n] in fails && forall i | 0 <= i < n :: s.components[i] !in fails
  }

  lemma {:induction false} StartableIs(components: seq<Name>, fails: set<Name>)
    ensures
      var n := Startable(components, fails);
      (forall i | 0 <= i < n :: components[i] !in fails) && (n < |components| ==> components[n] in fails)
  {
    if components != [] && components[0] !in fails {
      StartableIs(components[1..], fails);
      var n := Startable(components, fails);
      forall i | 0 <= i < n ensures components[i] !in fails {
        assert i > 0 ==> components[i] == components[1..][i - 1];
      }
    }
  }

  /**
   What the components see of a Start from rest: each is started once, in order, up to the first
   that fails; that one is reported, and those before it are stopped again, newest first. A runtime
   that is running makes them see nothing.
   */
  lemma StartTrace(s: State, fails: set<Name>, stopFails: set<Name>)
    requires Settled(s)
    ensures
      var events := Starting(s, fails, stopFails).events;
      && (s.running ==> events == [])
      && (!s.running && (forall i | 0 <= i < |s.components| :: s.components[i] !in fails) ==>
            |events| == |s.components|
            && forall i | 0 <= i < |events| :: events[i] == Started(s.generation, s.components[i]))
      && forall n: nat | !s.running && FirstFailing(s, fails, n) ::
           && |events| == 2 * n + 1
           && (forall i | 0 <= i < n :: events[i] == Started(s.generation, s.components[i]))
           && events[n] == StartFailed(s.generation, s.components[n])
           && StopsBack(events[n + 1..], s.generation, s.components[..n], stopFails)
  {
    hide StartEvents, StopEvents, Startable;
    if !s.running {
      var n := Startable(s.components, fails);
      var up := s.components[..n];
      StartableIs(s.components, fails);
      StartEventsAt(s.generation, up);
      assert s.started + up == up;
      StopEventsAt(s.generation, up, stopFails);
      forall m: nat | FirstFailing(s, fails, m) ensures m == n {
      }
    }
  }

  /** What they see of a Stop: those that are up are stopped, newest first; it succeeds if all of them do. */
  lemma StopTrace(s: State, fails: set<Name>)
    ensures
      var effect := Stopping(s, fails);
      && StopsBack(effect.events, s.generation, s.started, fails)
      && (effect.ok <==> forall i | 0 <= i < |s.started| :: s.started[i] !in fails)
      && effect.state.components == s.components && effect.state.generation == s.generation
  {
    hide StopEvents;
    StopEventsAt(s.generation, s.started, fails);
  }

  // ---------------------------------------------------------------- the runtime object

  /** The record of what all components of a process saw, in order. */
  class Journal {
    var events: seq<Event>

    constructor ()
      ensures events == []
    {
      events := [];
    }
  }

  class Runtime {
    const generation: nat
    const journal: Journal
    var components: seq<Name>
    var started: seq<Name>
    var running: bool

    function Abs(): State
      reads this
    {
      State(generation, components, started, running)
    }

    constructor (generation: nat, journal: Journal)
      ensures Abs() == State(generation, [], [], false) && this.journal == journal
    {
      this.generation, this.journal := generation, journal;
      components, started, running := [], [], false;
    }

    method Add(name: Name) returns (ok: bool)
      modifies this
      ensures Abs() == Adding(old(Abs()), name).state
      ensures ok == Adding(old(Abs()), name).ok
    {
      if name == "" {
        return false;
      }
      if running {
        return false;
      }
      var i := 0;
      while i < |components|
        invariant 0 <= i <= |components|
        invariant name !in components[..i]
      {
        if components[i] == name {
          return false;
        }
        i := i + 1;
      }
      components := components + [name];
      ok := true;
    }

    method Start(fails: set<Name>, stopFails: set<Name>) returns (ok: bool)
      modifies this`started, this`running, journal
      ensures Abs() == Starting(old(Abs()), fails, stopFails).state
      ensures ok == Starting(old(Abs()), fails, stopFails).ok
      ensures journal.events == old(journal.events) + Starting(old(Abs()), fails, stopFails).events
    {
      hide StopEvents, Startable, StopsCleanly;
      if running {
        return true;
      }
      StartableStops(components, fails);
      ghost var n := Startable(components, fails);
      var i := 0;
      assert components[..0] == [];
      while i < |components|
        invariant 0 <= i <= n
        invariant started == old(started) + components[..i] && !running
        invariant journal.events == old(journal.events) + StartEvents(generation, components[..i])
      {
        var item := components[i];
        if item in fails {
          journal.events := journal.events + [StartFailed(generation, item)];
          var stopped := StopStarted(stopFails);
          return false;
        }
        journal.events := journal.events + [Started(generation, item)];
        assert components[..i + 1][..i] == components[..i];
        started := started + [item];
        i := i + 1;
      }
      running := true;
      ok := true;
    }

    method Stop(fails: set<Name>) returns (ok: bool)
      modifies this`started, this`running, journal
      ensures Abs() == Stopping(old(Abs()), fails).state
      ensures ok == Stopping(old(Abs()), fails).ok
      ensures journal.events == old(journal.events) + Stopping(old(Abs()), fails).events
    {
      running := false;
      ok := StopStarted(fails);
    }

    /** Stops everything in `started`, newest first, collecting rather than propagating failures. */
    method StopStarted(fails: set<Name>) returns (ok: bool)
      modifies this`started, journal
      ensures started == []
      ensures ok == StopsCleanly(old(started), fails)
      ensures journal.events == old(journal.events) + StopEvents(generation, old(started), fails)
    {
      ok := true;
      var i := |started|;
      assert started[..i] == started;
      while i > 0
        invariant 0 <= i <= |started| && started == old(started)
        invariant ok == StopsCleanly(started[i..], fails)
        invariant journal.events + StopEvents(generation, started[..i], fails)
               == old(journal.events) + StopEvents(generation, started, fails)
      {
        i := i - 1;
        var item := started[i];
        assert started[..i + 1][..i] == started[..i];
        assert started[i..] == [item] + started[i + 1..];
        journal.events := journal.events + [Stopped(generation, item, item !in fails)];
        if item in fails {
          ok := false;
        }
      }
      started := [];
    }
  }
}
