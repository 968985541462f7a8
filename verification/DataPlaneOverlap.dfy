/**
 The data plane manager in runs that nothing serializes: what each generation has up, and exactly
 when two generations are up at once.
 */
module DataPlaneOverlap {
  import opened Wrappers
  import opened Lifecycle
  import opened DataPlane

  /** The events of one generation. */
  function Only(trace: seq<Event>, generation: nat): seq<Event> {
    if trace == [] then []
    else
      var init, e := Only(trace[..|trace| - 1], generation), trace[|trace| - 1];
      if e.generation == generation then init + [e] else init
  }

  lemma {:induction false} OnlyConcat(a: seq<Event>, b: seq<Event>, generation: nat)
    ensures Only(a + b, generation) == Only(a, generation) + Only(b, generation)
  {
    if b == [] {
      assert a + b == a;
    } else {
      var n := |b| - 1;
      assert (a + b)[..|a + b| - 1] == a + b[..n];
      OnlyConcat(a, b[..n], generation);
    }
  }

  lemma {:induction false} OnlyOf(events: seq<Event>, from: nat, generation: nat)
    requires Of(events, from)
    ensures Only(events, generation) == if from == generation then events else []
  {
    if events != [] {
      var n := |events| - 1;
      assert events == events[..n] + [events[n]];
      OnlyOf(events[..n], from, generation);
    }
  }

  /** The generations that the manager holds, and those that it let go of but that are not stopped yet. */
  function Planes(s: ManagerState): seq<State> {
    s.detached + if s.current.Some? then [s.current.value] else []
  }

  ghost predicate Distinct(planes: seq<State>) {
    forall i, j | 0 <= i < j < |planes| :: planes[i].generation != planes[j].generation
  }

  ghost predicate Built(planes: seq<State>, bound: nat) {
    forall i | 0 <= i < |planes| :: planes[i].generation < bound && Settled(planes[i])
  }

  ghost predicate Absent(planes: seq<State>, generation: nat) {
    forall i | 0 <= i < |planes| :: planes[i].generation != generation
  }

  /** What `generation` has up is what its plane, if there is one, counts as started. */
  ghost predicate Tells(planes: seq<State>, trace: seq<Event>, generation: nat) {
    var up := Outstanding(Only(trace, generation));
    && (forall i | 0 <= i < |planes| && planes[i].generation == generation ::
          up == Some(Tagged(generation, planes[i].started)))
    && (Absent(planes, generation) ==> up == Some([]))
  }

  ghost predicate Accounts(planes: seq<State>, trace: seq<Event>, bound: nat) {
    && Distinct(planes) && Built(planes, bound)
    && forall g: nat :: Tells(planes, trace, g)
  }

  // ---------------------------------------------------------------- the three things that happen to planes

  /** A plane is stopped where it stands. */
  lemma StopOne(planes: seq<State>, trace: seq<Event>, bound: nat, i: nat, fails: set<Name>)
    requires i < |planes| && Accounts(planes, trace, bound)
    ensures
      var stop := Stopping(planes[i], fails);
      Accounts(planes[i := stop.state], trace + stop.events, bound)
  {
    hide Outstanding, StopEvents, Stopping, Only;
    var plane := planes[i];
    var stop := Stopping(plane, fails);
    StoppedState(plane, fails);
    var after := planes[i := stop.state];
    forall g: nat ensures Tells(after, trace + stop.events, g) {
      assert Tells(planes, trace, g);
      OnlyConcat(trace, stop.events, g);
      OnlyOf(stop.events, plane.generation, g);
      if g == plane.generation {
        StopLeavesNothing(plane, fails, Only(trace, g));
        assert Tagged(g, []) == [];
      } else {
        assert Only(trace, g) + [] == Only(trace, g);
        if Absent(after, g) {
          forall j | 0 <= j < |planes| ensures planes[j].generation != g {
            assert after[j].generation == planes[j].generation;
          }
        }
      }
    }
  }

  lemma StoppedState(plane: State, fails: set<Name>)
    ensures Stopping(plane, fails).state == plane.(started := [], running := false)
    ensures Of(Stopping(plane, fails).events, plane.generation)
  {
    StopEventsOf(plane.generation, plane.started, fails);
  }

  /** A plane with nothing up is forgotten. */
  lemma DropOne(planes: seq<State>, trace: seq<Event>, bound: nat, i: nat)
    requires i < |planes| && planes[i].started == [] && Accounts(planes, trace, bound)
    ensures Accounts(planes[..i] + planes[i + 1..], trace, bound)
  {
    hide Outstanding, Only, Settled;
    var after := planes[..i] + planes[i + 1..];
    forall j | 0 <= j < |after| ensures after[j] == planes[if j < i then j else j + 1] {
    }
    forall g: nat ensures Tells(after, trace, g) {
      assert Tells(planes, trace, g);
      assert Tagged(planes[i].generation, []) == [];
      if Absent(after, g) && g != planes[i].generation {
        forall j | 0 <= j < |planes| ensures planes[j].generation != g {
          if j != i {
            assert after[if j < i then j else j - 1] == planes[j];
          }
        }
      }
      if g == planes[i].generation {
        assert Absent(after, g);
      }
    }
  }

  /** A new plane is started: it joins the others when that succeeds, and leaves nothing up when not. */
  lemma StartOne(planes: seq<State>, trace: seq<Event>, bound: nat, components: seq<Name>, fails: set<Name>,
                 rollback: set<Name>)
    requires Accounts(planes, trace, bound)
    ensures
      var start := Starting(Fresh(bound, components), fails, rollback);
      Accounts(if start.ok then planes + [start.state] else planes, trace + start.events, bound + 1)
  {
    hide Outstanding, Starting, Only, Settled;
    var next := Fresh(bound, components);
    assert Settled(next) by { FreshSettled(bound, components); }
    var start := Starting(next, fails, rollback);
    var after := if start.ok then planes + [start.state] else planes;
    GenerationKept(next, fails, rollback);
    StartingOf(next, fails, rollback);
    assert Tagged(bound, []) == [];
    assert Tells(planes, trace, bound) && Absent(planes, bound);
    StartOnEmpty(next, fails, rollback, Only(trace, bound));
    forall g: nat ensures Tells(after, trace + start.events, g) {
      assert Tells(planes, trace, g);
      OnlyConcat(trace, start.events, g);
      OnlyOf(start.events, bound, g);
      assert forall j | 0 <= j < |planes| :: planes[j] == after[j];
      if g != bound {
        assert Only(trace, g) + [] == Only(trace, g);
      } else if start.ok {
        assert after[|planes|] == start.state;
      }
    }
  }

  lemma FreshSettled(generation: nat, components: seq<Name>)
    ensures Settled(Fresh(generation, components))
  {
  }

  // ---------------------------------------------------------------- runs

  ghost predicate Inv(s: ManagerState) {
    Accounts(Planes(s), s.trace, s.built)
  }

  lemma RebuildKeeps(s: ManagerState, build: Build, reason: string, faults: Faults)
    requires Inv(s)
    ensures Inv(Rebuilding(s, build, reason, faults).0)
  {
    hide Accounts, Stopping, Starting;
    if build.Builds? {
      var planes := Planes(s);
      var trace, rest := s.trace, planes;
      if s.current.Some? {
        var n := |planes| - 1;
        var stop := Stopping(s.current.value, faults.stop);
        StopOne(planes, trace, s.built, n, faults.stop);
        StoppedState(s.current.value, faults.stop);
        var stopped := planes[n := stop.state];
        trace := trace + stop.events;
        assert stopped == s.detached + [stop.state];
        MoreBuilt(stopped, trace, s.built);
        if !stop.ok {
          assert Planes(Rebuilding(s, build, reason, faults).0) == stopped;
          return;
        }
        DropOne(stopped, trace, s.built, n);
        rest := stopped[..n] + stopped[n + 1..];
        assert rest == s.detached;
      }
      assert rest == s.detached + [];
      StartOne(rest, trace, s.built, build.components, faults.start, faults.rollback);
      var start := Starting(Fresh(s.built, build.components), faults.start, faults.rollback);
      assert Planes(Rebuilding(s, build, reason, faults).0) == if start.ok then rest + [start.state] else rest;
    }
  }

  lemma MoreBuilt(planes: seq<State>, trace: seq<Event>, bound: nat)
    requires Accounts(planes, trace, bound)
    ensures Accounts(planes, trace, bound + 1)
  {
    hide Tells, Settled;
  }

  lemma ReleaseKeeps(s: ManagerState, i: nat, fails: set<Name>)
    requires Inv(s) && i < |s.detached|
    ensures Inv(Release(s, i, fails))
  {
    hide Accounts, Stopping;
    var planes := Planes(s);
    var stop := Stopping(s.detached[i], fails);
    StopOne(planes, s.trace, s.built, i, fails);
    StoppedState(s.detached[i], fails);
    var stopped := planes[i := stop.state];
    DropOne(stopped, s.trace + stop.events, s.built, i);
    assert stopped[..i] + stopped[i + 1..] == Planes(Release(s, i, fails));
  }

  lemma {:induction false} RunAccounts(actions: seq<Action>)
    ensures Inv(DataPlane.Run(actions))
  {
    if actions == [] {
      NothingBuilt();
    } else {
      hide Accounts, Rebuilding, Release;
      var n := |actions| - 1;
      var s := DataPlane.Run(actions[..n]);
      RunAccounts(actions[..n]);
      match actions[n] {
        case DoRebuild(build, reason, faults) => RebuildKeeps(s, build, reason, faults);
        case DoDetach => assert Planes(Detach(s)) == Planes(s);
        case DoRelease(i, fails) =>
          if i < |s.detached| {
            ReleaseKeeps(s, i, fails);
          }
      }
    }
  }

  lemma NothingBuilt()
    ensures Inv(INITIAL)
  {
  }

  /**
   Over every run, serialized or not, and with any failures: each generation's starts and stops
   nest by themselves, and what it has up is what its plane counts as started, which is nothing
   once the manager neither holds it nor still has to stop it.
   */
  lemma EachGeneration(actions: seq<Action>, generation: nat)
    ensures
      var s := DataPlane.Run(actions);
      var up := Outstanding(Only(s.trace, generation));
      && (forall plane <- Planes(s) :: plane.generation == generation ==> up == Some(Tagged(generation, plane.started)))
      && ((forall plane <- Planes(s) :: plane.generation != generation) ==> up == Some([]))
  {
    hide Outstanding, Only, Planes;
    RunAccounts(actions);
    var s := DataPlane.Run(actions);
    assert Tells(Planes(s), s.trace, generation);
  }

  /** Some component of the generation is up. */
  ghost predicate IsUp(s: ManagerState, generation: nat) {
    Outstanding(Only(s.trace, generation)) != Some([])
  }

  ghost predicate Busy(s: ManagerState, i: nat) {
    i < |Planes(s)| && Planes(s)[i].started != []
  }

  lemma UpIsBusy(s: ManagerState, generation: nat)
    requires Inv(s)
    ensures IsUp(s, generation) <==> exists i: nat :: Busy(s, i) && Planes(s)[i].generation == generation
  {
    hide Outstanding, Only, Planes;
    var planes := Planes(s);
    assert Tells(planes, s.trace, generation);
    assert Tagged(generation, []) == [];
    if IsUp(s, generation) {
      var i :| 0 <= i < |planes| && planes[i].generation == generation;
      assert Busy(s, i);
    }
    if i: nat :| Busy(s, i) && planes[i].generation == generation {
      assert |Tagged(generation, planes[i].started)| > 0;
    }
  }

  /**
   Two generations are up at once exactly when the manager has, among the plane it holds and those
   that its Stop calls have taken off but not stopped yet, two with components started.
   */
  lemma OverlapIff(actions: seq<Action>)
    ensures
      var s := DataPlane.Run(actions);
      (exists g: nat, h: nat :: g != h && IsUp(s, g) && IsUp(s, h))
      <==> exists i: nat, j: nat :: i != j && Busy(s, i) && Busy(s, j)
  {
    hide IsUp, Planes;
    RunAccounts(actions);
    var s := DataPlane.Run(actions);
    if g: nat, h: nat :| g != h && IsUp(s, g) && IsUp(s, h) {
      UpIsBusy(s, g);
      UpIsBusy(s, h);
      var i: nat :| Busy(s, i) && Planes(s)[i].generation == g;
      var j: nat :| Busy(s, j) && Planes(s)[j].generation == h;
      assert i != j;
    }
    if i: nat, j: nat :| i != j && Busy(s, i) && Busy(s, j) {
      var g, h := Planes(s)[i].generation, Planes(s)[j].generation;
      UpIsBusy(s, g);
      UpIsBusy(s, h);
      assert g != h && IsUp(s, g) && IsUp(s, h);
    }
  }
}
