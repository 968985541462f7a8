/**
 What the registration component owns over every run: no registration is lost sight of, a Stop that
 waited has the last word, and what is left in the registry is what a Deregister failed on.
 */
module RegistrationSafety {
  import opened Wrappers
  import opened Registry
  import opened Registration

  // ---------------------------------------------------------------- what every run keeps

  /** Equal but for the time it was last seen. */
  predicate SameIdentity(a: ServiceInstance, b: ServiceInstance) {
    a.(lastSeen := 0) == b.(lastSeen := 0)
  }

  /** A Stop call took `r` and is about to deregister it. */
  predicate Held(stops: map<StopId, StopPhase>, r: RegId) {
    exists id | id in stops :: InHand(stops[id]) == Some(r)
  }

  /** `r` has been given up by a Stop whose Deregister came back. */
  predicate Returned(l: Ledger, r: RegId) {
    r in l.deregistered || r in l.failed
  }

  /** `r` is where nobody has taken it yet. */
  predicate Own(c: Component, r: RegId) {
    c.registration == Some(r) || c.loop == Installing(r)
  }

  predicate Accounted(c: Component, r: RegId) {
    Own(c, r) || r in c.ledger.expired || Returned(c.ledger, r) || Held(c.stops, r)
  }

  /** No registration since the last Start was lost sight of. */
  predicate AllAccounted(c: Component) {
    forall r: RegId | c.ledger.epoch <= r < |c.ledger.obtained| :: Accounted(c, r)
  }

  /** A registration is in one place at a time: not yet taken, in one Stop's hands, or given back. */
  predicate OnePlace(c: Component, r: RegId) {
    && (Own(c, r) ==> r < |c.ledger.obtained| && !Held(c.stops, r) && !Returned(c.ledger, r))
    && (Held(c.stops, r) ==> r < |c.ledger.obtained| && !Returned(c.ledger, r))
    && (Returned(c.ledger, r) ==> r < |c.ledger.obtained|)
    && !(r in c.ledger.deregistered && r in c.ledger.failed)
  }

  /** No two Stops hold the same registration. */
  predicate Apart(stops: map<StopId, StopPhase>) {
    forall a, b | a in stops && b in stops && InHand(stops[a]).Some? :: InHand(stops[a]) == InHand(stops[b]) ==> a == b
  }

  ghost predicate Exclusive(c: Component) {
    (forall r: RegId :: OnePlace(c, r)) && Apart(c.stops)
  }

  predicate IsLatest(l: Ledger, r: RegId) {
    l.epoch <= r && r + 1 == |l.obtained|
  }

  predicate LoopOk(c: Component) {
    match c.loop
    case Renewing(r) => IsLatest(c.ledger, r)
    case Registering(instance) =>
      |c.ledger.obtained| > 0 && |c.ledger.obtained| - 1 in c.ledger.expired && instance == c.instance
    case Installing(r) => IsLatest(c.ledger, r) && c.ledger.epoch < r
    case _ => true
  }

  /** The current registration is the latest one, or its replacement is about to be installed. */
  predicate CurrentOk(c: Component) {
    c.registration.Some? ==>
      var r := c.registration.value;
      if c.loop.Installing? then c.ledger.epoch <= r && r + 1 == c.loop.registration else IsLatest(c.ledger, r)
  }

  /** Only what the registry called expired has been replaced. */
  predicate ReplacedExpired(l: Ledger) {
    forall r: RegId | l.epoch <= r && r + 1 < |l.obtained| :: r in l.expired
  }

  predicate FlagsOk(c: Component) {
    && (if c.loop.Off? then c.ledger.epoch <= |c.ledger.obtained| else c.ledger.epoch < |c.ledger.obtained|)
    && (c.handles ==> !c.loop.Off? && !c.cancelled)
  }

  /** Everything registered since the last Start is one and the same instance of one generation. */
  predicate IdentityOk(c: Component) {
    var l := c.ledger;
    l.epoch < |l.obtained| ==>
      && (forall r | l.epoch <= r < |l.obtained| :: SameIdentity(l.obtained[r], l.obtained[l.epoch]))
      && (c.generation != "" ==> l.obtained[l.epoch].dataPlaneGeneration == c.generation)
      && l.obtained[l.epoch].dataPlaneStartedAt != 0
      && (!c.loop.Off? ==> SameIdentity(c.instance, l.obtained[l.epoch]))
  }

  predicate StopsOk(c: Component) {
    forall id: StopId | id in c.stops ::
      && (c.stops[id].Waiting? ==> c.cancelled)
      && (c.stops[id].Cancelling? ==> !c.handles)
  }

  predicate Shape(c: Component) {
    FlagsOk(c) && LoopOk(c) && CurrentOk(c) && IdentityOk(c) && StopsOk(c) && ReplacedExpired(c.ledger)
  }

  ghost predicate Inv(c: Component) {
    Shape(c) && AllAccounted(c) && Exclusive(c)
  }

  lemma StampedKeepsIdentity(instance: ServiceInstance, generation: string, now: Now)
    requires instance.dataPlaneStartedAt != 0
    requires generation != "" ==> instance.dataPlaneGeneration == generation
    ensures SameIdentity(Stamped(instance, generation, now, false), instance)
  {
  }

  lemma SameIdentityTransitive(a: ServiceInstance, b: ServiceInstance, c: ServiceInstance)
    requires SameIdentity(a, b) && SameIdentity(b, c)
    ensures SameIdentity(a, c)
    ensures a.dataPlaneStartedAt == c.dataPlaneStartedAt && a.dataPlaneGeneration == c.dataPlaneGeneration
  {
  }

  // ---------------------------------------------------------------- the shape, step by step

  lemma StartShape(c: Component, made: Option<ServiceInstance>, now: Now, reply: Reply)
    requires Shape(c)
    ensures Shape(Starting(c, made, now, reply))
  {
    hide MarkBegan;
  }

  lemma AnsweredShape(c: Component, outcome: RenewOutcome, now: Now)
    requires Shape(c)
    ensures Shape(Answered(c, outcome, now))
  {
    if c.loop.Renewing? {
      var first := c.ledger.obtained[c.ledger.epoch];
      SameIdentityTransitive(c.instance, first, first);
      StampedKeepsIdentity(c.instance, c.generation, now);
      SameIdentityTransitive(Stamped(c.instance, c.generation, now, false), c.instance, first);
    }
    hide SameIdentity, Stamped;
  }

  lemma RegisteredShape(c: Component, reply: Reply)
    requires Shape(c)
    ensures Shape(Registered(c, reply))
  {
    hide SameIdentity;
  }

  lemma WakingShape(c: Component)
    requires Shape(c)
    ensures Shape(Waking(c)) && Shape(Beginning(c)) && Shape(Installed(c))
  {
    hide SameIdentity;
  }

  lemma MarkingShape(c: Component)
    requires Shape(c)
    ensures Shape(Healed(c)) && Shape(Revived(c)) && Shape(Reported(c)) && Shape(Flagged(c)) && Shape(Gauged(c))
  {
    hide SameIdentity, CountTick, SetFlag;
  }

  lemma StoppingShape(c: Component, id: StopId)
    requires Shape(c)
    ensures Shape(StopBegun(c, id)) && Shape(StopCancelled(c, id)) && Shape(StopExpired(c, id))
    ensures Shape(StopTaken(c, id))
  {
    hide SameIdentity;
  }

  lemma ReturningShape(c: Component, id: StopId, ok: bool)
    requires Shape(c)
    ensures Shape(StopUnflagged(c, id)) && Shape(StopUngauged(c, id)) && Shape(StopDeregistered(c, id, ok))
  {
    hide SameIdentity, ClearFlag;
  }

  lemma StepShape(c: Component, a: Action)
    requires Shape(c)
    ensures Shape(Step(c, a))
  {
    hide Shape, Starting, Waking, Beginning, Answered, Registered, Installed, Healed, Revived, Reported, Flagged, Gauged;
    hide StopBegun, StopCancelled, StopExpired, StopTaken, StopUnflagged, StopUngauged, StopDeregistered;
    match a
    case Start(made, now, reply) => StartShape(c, made, now, reply);
    case Answer(outcome, now) => AnsweredShape(c, outcome, now);
    case Register(reply) => RegisteredShape(c, reply);
    case StopBegin(id) => StoppingShape(c, id);
    case StopCancel(id) => StoppingShape(c, id);
    case StopExpire(id) => StoppingShape(c, id);
    case StopTake(id) => StoppingShape(c, id);
    case StopUnflag(id) => ReturningShape(c, id, true);
    case StopUngauge(id) => ReturningShape(c, id, true);
    case StopDeregister(id, ok) => ReturningShape(c, id, ok);
    case _ =>
      WakingShape(c);
      MarkingShape(c);
  }

  // ---------------------------------------------------------------- the ledger, step by step

  lemma HeldBy(stops: map<StopId, StopPhase>, id: StopId, r: RegId)
    requires id in stops && InHand(stops[id]) == Some(r)
    ensures Held(stops, r)
  {
  }

  /** Somebody else than Stop call `id` holds `r`. */
  predicate HeldElsewhere(stops: map<StopId, StopPhase>, id: StopId, r: RegId) {
    exists other | other in stops && other != id :: InHand(stops[other]) == Some(r)
  }

  lemma HeldMoves(stops: map<StopId, StopPhase>, id: StopId, phase: StopPhase, r: RegId)
    ensures Held(stops[id := phase], r) <==> InHand(phase) == Some(r) || HeldElsewhere(stops, id, r)
  {
    hide InHand;
    var next := stops[id := phase];
    if InHand(phase) == Some(r) {
      HeldBy(next, id, r);
    }
    if HeldElsewhere(stops, id, r) {
      var other :| other in stops && other != id && InHand(stops[other]) == Some(r);
      HeldBy(next, other, r);
    }
    if Held(next, r) {
      var other :| other in next && InHand(next[other]) == Some(r);
      assert other != id ==> other in stops && stops[other] == next[other];
    }
  }

  lemma HeldDrops(stops: map<StopId, StopPhase>, id: StopId, r: RegId)
    ensures Held(stops - {id}, r) <==> HeldElsewhere(stops, id, r)
  {
    hide InHand;
    var next := stops - {id};
    if HeldElsewhere(stops, id, r) {
      var other :| other in stops && other != id && InHand(stops[other]) == Some(r);
      HeldBy(next, other, r);
    }
  }

  /** A phase change that keeps what is in hand changes nothing about who holds what. */
  lemma HeldSame(stops: map<StopId, StopPhase>, id: StopId, phase: StopPhase, r: RegId)
    requires id in stops ==> InHand(phase) == InHand(stops[id])
    requires id !in stops ==> InHand(phase).None?
    ensures Held(stops[id := phase], r) <==> Held(stops, r)
  {
    HeldMoves(stops, id, phase, r);
  }

  lemma StartPlaces(c: Component, made: Option<ServiceInstance>, now: Now, reply: Reply, r: RegId)
    requires Shape(c) && AllAccounted(c) && Exclusive(c)
    ensures
      var after := Starting(c, made, now, reply);
      && OnePlace(after, r)
      && (after.ledger.epoch <= r < |after.ledger.obtained| ==> Accounted(after, r))
  {
    hide SameIdentity, Stamped, MarkBegan, IdentityOk, StopsOk, Held;
    assert OnePlace(c, r) && OnePlace(c, |c.ledger.obtained|);
    assert r < |c.ledger.obtained| && c.ledger.epoch <= r ==> Accounted(c, r);
  }

  /** Steps of the loop leave the Stop calls alone. */
  lemma LoopStepPlaces(c: Component, a: Action, r: RegId)
    requires AllAccounted(c) && Exclusive(c)
    requires a.Wake? || a.Begin? || a.Answer?
    ensures
      var after := Step(c, a);
      && OnePlace(after, r)
      && (after.ledger.epoch <= r < |after.ledger.obtained| ==> Accounted(after, r))
  {
    hide Stamped, Held;
    assert OnePlace(c, r);
    assert r < |c.ledger.obtained| && c.ledger.epoch <= r ==> Accounted(c, r);
  }

  lemma ReplacePlaces(c: Component, reply: Reply, r: RegId)
    requires Shape(c) && AllAccounted(c) && Exclusive(c)
    ensures
      var after := Registered(c, reply);
      && OnePlace(after, r)
      && (after.ledger.epoch <= r < |after.ledger.obtained| ==> Accounted(after, r))
  {
    hide SameIdentity, IdentityOk, StopsOk, Held;
    assert OnePlace(c, r) && OnePlace(c, |c.ledger.obtained|);
    assert r < |c.ledger.obtained| && c.ledger.epoch <= r ==> Accounted(c, r);
  }

  lemma InstallPlaces(c: Component, r: RegId)
    requires Shape(c) && AllAccounted(c) && Exclusive(c)
    ensures
      var after := Installed(c);
      && OnePlace(after, r)
      && (after.ledger.epoch <= r < |after.ledger.obtained| ==> Accounted(after, r))
  {
    hide SameIdentity, IdentityOk, StopsOk, Held;
    assert OnePlace(c, r);
    assert r < |c.ledger.obtained| && c.ledger.epoch <= r ==> Accounted(c, r);
  }

  lemma MarkStepPlaces(c: Component, a: Action, r: RegId)
    requires AllAccounted(c) && Exclusive(c)
    requires a.Heal? || a.Revive? || a.Report? || a.Flag? || a.Gauge?
    ensures
      var after := Step(c, a);
      && OnePlace(after, r)
      && (after.ledger.epoch <= r < |after.ledger.obtained| ==> Accounted(after, r))
  {
    hide SetFlag, CountTick, Held;
    assert OnePlace(c, r);
    assert r < |c.ledger.obtained| && c.ledger.epoch <= r ==> Accounted(c, r);
  }

  /** Who holds what stays as it is in most steps of Stop. */
  lemma StopStepHeld(c: Component, a: Action, r: RegId)
    requires a.StopBegin? || a.StopCancel? || a.StopExpire? || a.StopUnflag? || a.StopUngauge?
    ensures Held(Step(c, a).stops, r) <==> Held(c.stops, r)
  {
    hide ClearFlag, Held;
    var after := Step(c, a);
    if a.StopExpire? {
      if a.id in c.stops && c.stops[a.id].Waiting? {
        HeldNoLess(c.stops, a.id, r);
      }
    } else if after.stops != c.stops {
      HeldSame(c.stops, a.id, after.stops[a.id], r);
      assert after.stops == c.stops[a.id := after.stops[a.id]];
    }
  }

  lemma StopStepPlaces(c: Component, a: Action, r: RegId)
    requires AllAccounted(c) && Exclusive(c)
    requires a.StopBegin? || a.StopCancel? || a.StopExpire? || a.StopUnflag? || a.StopUngauge?
    ensures
      var after := Step(c, a);
      && OnePlace(after, r)
      && (after.ledger.epoch <= r < |after.ledger.obtained| ==> Accounted(after, r))
  {
    hide ClearFlag, Held;
    StopStepHeld(c, a, r);
    assert OnePlace(c, r);
    assert r < |c.ledger.obtained| && c.ledger.epoch <= r ==> Accounted(c, r);
  }

  /** A Stop with empty hands can go without anyone noticing. */
  lemma HeldNoLess(stops: map<StopId, StopPhase>, id: StopId, r: RegId)
    requires id in stops ==> InHand(stops[id]).None?
    ensures Held(stops - {id}, r) <==> Held(stops, r)
  {
    HeldDrops(stops, id, r);
  }

  lemma TakePlaces(c: Component, id: StopId, r: RegId)
    requires Shape(c) && AllAccounted(c) && Exclusive(c)
    ensures
      var after := StopTaken(c, id);
      && OnePlace(after, r)
      && (after.ledger.epoch <= r < |after.ledger.obtained| ==> Accounted(after, r))
  {
    hide SameIdentity, IdentityOk, StopsOk, Held;
    assert OnePlace(c, r);
    assert r < |c.ledger.obtained| && c.ledger.epoch <= r ==> Accounted(c, r);
    if CanTake(c, id) {
      if c.registration.None? {
        HeldNoLess(c.stops, id, r);
      } else {
        HeldMoves(c.stops, id, Took(c.registration.value), r);
        HeldMoves(c.stops, id, c.stops[id], r);
        assert c.stops[id := c.stops[id]] == c.stops;
      }
    }
  }

  lemma ReturnPlaces(c: Component, id: StopId, ok: bool, r: RegId)
    requires AllAccounted(c) && Exclusive(c)
    ensures
      var after := StopDeregistered(c, id, ok);
      && OnePlace(after, r)
      && (after.ledger.epoch <= r < |after.ledger.obtained| ==> Accounted(after, r))
  {
    hide Held;
    assert OnePlace(c, r);
    assert r < |c.ledger.obtained| && c.ledger.epoch <= r ==> Accounted(c, r);
    if id in c.stops && c.stops[id].Ungauged? {
      var mine := c.stops[id].registration;
      HeldBy(c.stops, id, mine);
      HeldDrops(c.stops, id, r);
      HeldMoves(c.stops, id, c.stops[id], r);
      assert c.stops[id := c.stops[id]] == c.stops;
    }
  }

  lemma TakenApart(c: Component, id: StopId)
    requires Exclusive(c)
    ensures Apart(StopTaken(c, id).stops)
  {
    if CanTake(c, id) && c.registration.Some? {
      assert OnePlace(c, c.registration.value);
    }
  }

  lemma ReturnedApart(c: Component, id: StopId, ok: bool)
    requires Apart(c.stops)
    ensures Apart(StopBegun(c, id).stops) && Apart(StopCancelled(c, id).stops) && Apart(StopExpired(c, id).stops)
    ensures Apart(StopUnflagged(c, id).stops) && Apart(StopUngauged(c, id).stops)
    ensures Apart(StopDeregistered(c, id, ok).stops)
  {
    hide ClearFlag;
  }

  lemma LoopApart(c: Component, a: Action)
    requires !a.StopBegin? && !a.StopCancel? && !a.StopExpire? && !a.StopTake? && !a.StopUnflag? && !a.StopUngauge?
    requires !a.StopDeregister?
    ensures Step(c, a).stops == c.stops
  {
    hide MarkBegan, SetFlag, CountTick, Stamped;
  }

  /** No two Stops come to hold the same registration. */
  lemma HoldersApart(c: Component, a: Action)
    requires Exclusive(c)
    ensures Apart(Step(c, a).stops)
  {
    hide Starting, Waking, Beginning, Answered, Registered, Installed, Healed, Revived, Reported, Flagged, Gauged;
    hide StopBegun, StopCancelled, StopExpired, StopTaken, StopUnflagged, StopUngauged, StopDeregistered, InHand;
    hide OnePlace;
    match a
    case StopBegin(id) => ReturnedApart(c, id, true);
    case StopCancel(id) => ReturnedApart(c, id, true);
    case StopExpire(id) => ReturnedApart(c, id, true);
    case StopTake(id) => TakenApart(c, id);
    case StopUnflag(id) => ReturnedApart(c, id, true);
    case StopUngauge(id) => ReturnedApart(c, id, true);
    case StopDeregister(id, ok) => ReturnedApart(c, id, ok);
    case _ => LoopApart(c, a);
  }

  lemma StepKeeps(c: Component, a: Action)
    requires Inv(c)
    ensures Inv(Step(c, a))
  {
    hide Shape, Step, OnePlace, Accounted;
    StepShape(c, a);
    HoldersApart(c, a);
    var after := Step(c, a);
    forall r: RegId
      ensures OnePlace(after, r)
      ensures after.ledger.epoch <= r < |after.ledger.obtained| ==> Accounted(after, r)
    {
      StepPlaces(c, a, r);
    }
  }

  lemma StepPlaces(c: Component, a: Action, r: RegId)
    requires Inv(c)
    ensures
      var after := Step(c, a);
      OnePlace(after, r) && (after.ledger.epoch <= r < |after.ledger.obtained| ==> Accounted(after, r))
  {
    hide Shape, OnePlace, Accounted, Exclusive, AllAccounted;
    match a
    case StopBegin(id) => StopStepPlaces(c, a, r);
    case StopCancel(id) => StopStepPlaces(c, a, r);
    case StopExpire(id) => StopStepPlaces(c, a, r);
    case StopUnflag(id) => StopStepPlaces(c, a, r);
    case StopUngauge(id) => StopStepPlaces(c, a, r);
    case StopTake(id) => TakePlaces(c, id, r);
    case StopDeregister(id, ok) => ReturnPlaces(c, id, ok, r);
    case Heal => MarkStepPlaces(c, a, r);
    case Revive => MarkStepPlaces(c, a, r);
    case Report => MarkStepPlaces(c, a, r);
    case Flag => MarkStepPlaces(c, a, r);
    case Gauge => MarkStepPlaces(c, a, r);
    case Start(made, now, reply) => StartPlaces(c, made, now, reply, r);
    case Register(reply) => ReplacePlaces(c, reply, r);
    case Install => InstallPlaces(c, r);
    case _ => LoopStepPlaces(c, a, r);
  }

  lemma {:induction false} RunKeeps(c: Component, actions: seq<Action>)
    requires Inv(c)
    ensures Inv(Run(c, actions))
  {
    hide Inv, Step;
    if actions != [] {
      var n := |actions| - 1;
      RunKeeps(c, actions[..n]);
      StepKeeps(Run(c, actions[..n]), actions[n]);
    }
  }

  lemma NewInv(generation: string, dynamic: bool, instance: ServiceInstance)
    ensures Inv(New(generation, dynamic, instance))
  {
  }

  // ---------------------------------------------------------------- stopping for good

  /** Without another Start, the component never holds a registration again and never obtains one. */
  ghost predicate StaysUnregistered(c: Component) {
    forall more | NoStart(more) ::
      Run(c, more).registration.None? && Run(c, more).ledger.obtained == c.ledger.obtained
  }

  predicate Quiet(c: Component, obtained: seq<ServiceInstance>) {
    c.registration.None? && !Recovering(c.loop) && c.ledger.obtained == obtained
  }

  lemma QuietKeeps(c: Component, a: Action)
    requires Quiet(c, c.ledger.obtained) && !a.Start?
    ensures Quiet(Step(c, a), c.ledger.obtained)
  {
    hide Stamped, SetFlag, ClearFlag, CountTick;
  }

  lemma {:induction false} QuietRun(c: Component, more: seq<Action>)
    requires Quiet(c, c.ledger.obtained) && NoStart(more)
    ensures Quiet(Run(c, more), c.ledger.obtained)
  {
    hide Step;
    if more != [] {
      QuietRun(c, more[..|more| - 1]);
      QuietKeeps(Run(c, more[..|more| - 1]), more[|more| - 1]);
    }
  }

  /** A loop that is recovering can bring a registration back. */
  lemma RecoveryRegisters(c: Component) returns (more: seq<Action>)
    requires Recovering(c.loop)
    ensures NoStart(more) && Run(c, more).registration.Some?
  {
    hide Stamped, Run;
    if c.loop.Installing? {
      more := [Install];
      RunOne(c, Install);
    } else if c.loop.Registering? {
      more := [Register(Accepted)] + [Install];
      RunOne(c, Register(Accepted));
      RunThen(c, [Register(Accepted)], Install);
    } else {
      more := [Answer(Expired, 1), Register(Accepted), Install];
      RunThree(c, Answer(Expired, 1), Register(Accepted), Install);
    }
  }

  /**
   A Stop that takes the registration has the last word, whatever happens next short of another
   Start, exactly when the renew loop is not in the middle of a renewal at that moment.
   */
  lemma StopIsFinal(c: Component, id: StopId)
    requires CanTake(c, id)
    ensures StaysUnregistered(StopTaken(c, id)) <==> !Recovering(c.loop)
  {
    hide Run;
    var after := StopTaken(c, id);
    if Recovering(c.loop) {
      var more := RecoveryRegisters(after);
    } else {
      forall more | NoStart(more)
        ensures Run(after, more).registration.None? && Run(after, more).ledger.obtained == after.ledger.obtained
      {
        QuietRun(after, more);
      }
    }
  }

  /**
   No resurrected registration: a Stop whose wait for the loop completed takes the last
   registration obtained, if an earlier Stop has not taken it already, and no registration follows.
   */
  lemma WaitedStopIsFinal(generation: string, dynamic: bool, instance: ServiceInstance, actions: seq<Action>, id: StopId)
    requires
      var c := Run(New(generation, dynamic, instance), actions);
      id in c.stops && c.stops[id].Waiting? && c.loop.Off?
    ensures
      var c := Run(New(generation, dynamic, instance), actions);
      && (c.registration.Some? ==> c.registration.value + 1 == |c.ledger.obtained|)
      && StaysUnregistered(StopTaken(c, id))
  {
    hide Run, StaysUnregistered;
    NewInv(generation, dynamic, instance);
    RunKeeps(New(generation, dynamic, instance), actions);
    StopIsFinal(Run(New(generation, dynamic, instance), actions), id);
  }

  /** The loop is over, no Stop is under way and nothing is registered. */
  predicate AllOver(c: Component) {
    c.loop.Off? && c.stops == map[] && c.registration.None?
  }

  /** What was obtained since the last Start and may still be in the registry. */
  predicate LeftBehind(l: Ledger, r: RegId) {
    l.epoch <= r < |l.obtained| && r !in l.expired && r !in l.deregistered
  }

  /** Nothing that the component has written since its last Start may still be in the registry. */
  ghost predicate NothingLeft(l: Ledger) {
    l.orphan.None? && forall r: RegId :: !LeftBehind(l, r)
  }

  /** The step is a Start that reaches the registry. */
  predicate Starts(c: Component, a: Action) {
    a.Start? && c.loop.Off? && c.stops == map[] && (c.dynamic ==> a.made.Some?)
  }

  /** Register fails although it has written the instance. */
  predicate Loses(c: Component, a: Action) {
    || (Starts(c, a) && a.reply.Lost?)
    || (a.Register? && c.loop.Registering? && a.reply.Lost?)
  }

  /** The orphan is registered anew, or a Stop deletes its key. */
  predicate Covers(c: Component, a: Action) {
    || (Starts(c, a) && a.reply.Accepted?)
    || (a.Register? && c.loop.Registering? && a.reply.Accepted?)
    || (a.StopDeregister? && a.ok && a.id in c.stops && c.stops[a.id].Ungauged? && c.ledger.orphan.Some?
        && var r, orphan := c.stops[a.id].registration, c.ledger.orphan.value;
           && r < |c.ledger.obtained|
           && orphan.name == c.ledger.obtained[r].name && orphan.id == c.ledger.obtained[r].id)
  }

  /** At step k a Register was lost, and what it wrote was never covered since. */
  ghost predicate LostAt(c: Component, actions: seq<Action>, k: nat) {
    && k < |actions| && Loses(Run(c, actions[..k]), actions[k])
    && forall j | k < j < |actions| :: !Covers(Run(c, actions[..j]), actions[j])
  }

  lemma StartOrphan(c: Component, a: Action)
    requires a.Start?
    ensures Step(c, a).ledger.orphan.Some? <==> Loses(c, a) || (c.ledger.orphan.Some? && !Covers(c, a))
  {
    hide Stamped, MarkBegan;
  }

  lemma RegisterOrphan(c: Component, a: Action)
    requires a.Register? || a.StopDeregister?
    ensures Step(c, a).ledger.orphan.Some? <==> Loses(c, a) || (c.ledger.orphan.Some? && !Covers(c, a))
  {
  }

  lemma OrphanStep(c: Component, a: Action)
    ensures Step(c, a).ledger.orphan.Some? <==> Loses(c, a) || (c.ledger.orphan.Some? && !Covers(c, a))
  {
    if a.Start? {
      StartOrphan(c, a);
    } else if a.Register? || a.StopDeregister? {
      RegisterOrphan(c, a);
    } else {
      hide Stamped, SetFlag, ClearFlag, CountTick, CanTake;
    }
  }

  lemma LostLater(c: Component, actions: seq<Action>, k: nat)
    requires actions != [] && LostAt(c, actions[..|actions| - 1], k)
    requires !Covers(Run(c, actions[..|actions| - 1]), actions[|actions| - 1])
    ensures LostAt(c, actions, k)
  {
    hide Run, Loses, Covers;
    var init := actions[..|actions| - 1];
    assert forall j | 0 <= j <= |init| :: init[..j] == actions[..j];
  }

  lemma LostEarlier(c: Component, actions: seq<Action>, k: nat)
    requires LostAt(c, actions, k)
    ensures
      var n := |actions| - 1;
      if k == n then Loses(Run(c, actions[..n]), actions[n])
      else LostAt(c, actions[..n], k) && !Covers(Run(c, actions[..n]), actions[n])
  {
    hide Run, Loses, Covers;
    var init := actions[..|actions| - 1];
    assert forall j | 0 <= j <= |init| :: init[..j] == actions[..j];
  }

  lemma {:induction false} OrphanMeans(c: Component, actions: seq<Action>)
    requires c.ledger.orphan.None?
    ensures Run(c, actions).ledger.orphan.Some? <==> exists k: nat :: LostAt(c, actions, k)
  {
    if actions != [] {
      hide Step, Loses, Covers;
      var n := |actions| - 1;
      var init := actions[..n];
      OrphanMeans(c, init);
      OrphanStep(Run(c, init), actions[n]);
      if k: nat :| LostAt(c, init, k) && !Covers(Run(c, init), actions[n]) {
        LostLater(c, actions, k);
      }
      if Loses(Run(c, init), actions[n]) {
        assert LostAt(c, actions, n);
      }
      hide LostAt;
      if k: nat :| LostAt(c, actions, k) {
        LostEarlier(c, actions, k);
      }
    }
  }

  /**
   When everything is over, nothing written since the last Start is left behind if and only if no
   Deregister failed on a registration that had not expired and no Register was lost on the way
   back without its instance being registered again or deregistered later.
   */
  lemma NothingLeftBehind(generation: string, dynamic: bool, instance: ServiceInstance, actions: seq<Action>)
    requires AllOver(Run(New(generation, dynamic, instance), actions))
    ensures
      var l := Run(New(generation, dynamic, instance), actions).ledger;
      NothingLeft(l)
      <==> && (forall r: RegId | l.epoch <= r < |l.obtained| && r in l.failed :: r in l.expired)
           && !exists k: nat :: LostAt(New(generation, dynamic, instance), actions, k)
  {
    hide Run, LostAt;
    NewInv(generation, dynamic, instance);
    RunKeeps(New(generation, dynamic, instance), actions);
    OrphanMeans(New(generation, dynamic, instance), actions);
    var c := Run(New(generation, dynamic, instance), actions);
    forall r: RegId | c.ledger.epoch <= r < |c.ledger.obtained|
      ensures LeftBehind(c.ledger, r) <==> r in c.ledger.failed && r !in c.ledger.expired
    {
      assert Accounted(c, r) && OnePlace(c, r);
    }
  }

  lemma FailedStays(c: Component, a: Action)
    ensures c.ledger.failed <= Step(c, a).ledger.failed
  {
    hide Stamped, MarkBegan, SetFlag, ClearFlag, CountTick;
  }

  /** Whatever the component does later, it never gives back a registration whose Deregister failed. */
  lemma {:induction false} FailedForGood(c: Component, more: seq<Action>, r: RegId)
    requires Inv(c) && r in c.ledger.failed
    ensures r in Run(c, more).ledger.failed && r !in Run(c, more).ledger.deregistered
  {
    hide Step, Shape;
    RunKeeps(c, more);
    assert OnePlace(Run(c, more), r);
    if more != [] {
      var n := |more| - 1;
      FailedForGood(c, more[..n], r);
      FailedStays(Run(c, more[..n]), more[n]);
    }
  }

  /**
   Every registration obtained since the last Start is for the same instance in everything but the
   time it was last seen, carries the configured generation, and replaced one that had expired.
   */
  lemma IdentityKept(generation: string, dynamic: bool, instance: ServiceInstance, actions: seq<Action>, r: RegId)
    requires
      var ledger := Run(New(generation, dynamic, instance), actions).ledger;
      ledger.epoch <= r < |ledger.obtained|
    ensures
      var ledger := Run(New(generation, dynamic, instance), actions).ledger;
      var first := ledger.obtained[ledger.epoch];
      && ledger.obtained[r].(lastSeen := 0) == first.(lastSeen := 0)
      && first.dataPlaneStartedAt != 0
      && (generation != "" ==> ledger.obtained[r].dataPlaneGeneration == generation)
      && (r != ledger.epoch ==> r - 1 in ledger.expired)
  {
    hide Run;
    NewInv(generation, dynamic, instance);
    RunKeeps(New(generation, dynamic, instance), actions);
    GenerationFixed(New(generation, dynamic, instance), actions);
    var c := Run(New(generation, dynamic, instance), actions);
    SameIdentityTransitive(c.ledger.obtained[r], c.ledger.obtained[c.ledger.epoch], c.ledger.obtained[c.ledger.epoch]);
    if r != c.ledger.epoch {
      var previous: RegId := r - 1;
      assert previous in c.ledger.expired;
    }
  }

  lemma StepFixesGeneration(c: Component, a: Action)
    ensures Step(c, a).generation == c.generation
  {
    hide Stamped, MarkBegan, SetFlag, ClearFlag, CountTick, CanTake;
  }

  lemma {:induction false} GenerationFixed(c: Component, actions: seq<Action>)
    ensures Run(c, actions).generation == c.generation
  {
    hide Step;
    if actions != [] {
      var n := |actions| - 1;
      GenerationFixed(c, actions[..n]);
      StepFixesGeneration(Run(c, actions[..n]), actions[n]);
    }
  }

  // ---------------------------------------------------------------- where it goes wrong

  /** Start; the loop is about to hear how its renewal went. */
  function RenewalUnderWay(now: Now): seq<Action> {
    [Start(None, now, Accepted), Wake, Begin]
  }

  /** A Stop whose caller gives up waiting for the loop. */
  function FirstStop(): seq<Action> {
    [StopBegin(0), StopCancel(0), StopExpire(0)]
  }

  lemma StartsRenewing(c: Component, now: Now)
    requires c.loop.Off? && c.stops == map[] && !c.dynamic && c.ledger.obtained == []
    ensures
      var after := Run(c, RenewalUnderWay(now));
      && after.loop == Renewing(0) && after.registration == Some(0) && after.handles && after.stops == map[]
      && !after.cancelled && after.ledger == c.ledger.(obtained := after.ledger.obtained, epoch := 0, orphan := None)
      && |after.ledger.obtained| == 1 && after.vitals == MarkBegan(c.vitals)
  {
    hide Run, Stamped;
    RunThree(c, Start(None, now, Accepted), Wake, Begin);
  }

  /** A Stop that gives up leaves the loop cancelled and without handles. */
  lemma TimesOut(c: Component)
    requires c.handles && c.stops == map[]
    ensures
      var after := Run(c, FirstStop());
      after.stops == map[] && after == c.(handles := false, cancelled := true, stops := after.stops)
  {
    hide Run;
    RunThree(c, StopBegin(0), StopCancel(0), StopExpire(0));
    var begun := StopBegun(c, 0);
    assert begun.stops == map[0 := Cancelling];
    var cancelled := StopCancelled(begun, 0);
    assert cancelled.stops == map[0 := Waiting];
  }

  /** A Stop that finds no handles takes the registration at once and turns the flag off. */
  lemma TakesAtOnce(c: Component, r: RegId)
    requires !c.handles && c.stops == map[] && c.registration == Some(r)
    ensures
      var after := Run(c, [StopBegin(1), StopTake(1), StopUnflag(1)]);
      && after.stops == map[1 := Unflagged(r)]
      && after == c.(registration := None, vitals := ClearFlag(c.vitals), stops := after.stops)
  {
    hide Run, ClearFlag;
    RunThree(c, StopBegin(1), StopTake(1), StopUnflag(1));
    var begun := StopBegun(c, 1);
    assert begun.stops == map[1 := Skipping];
    var taken := StopTaken(begun, 1);
    assert taken.stops == map[1 := Took(r)];
  }

  /** The rest of a Stop. */
  lemma Returns(c: Component, id: StopId, r: RegId, ok: bool)
    requires c.stops == map[id := Unflagged(r)]
    ensures
      var after := StopDeregistered(StopUngauged(c, id), id, ok);
      && after.stops == map[]
      && after == c.(vitals := c.vitals.(gauge := false), stops := after.stops,
                     ledger := if ok then c.ledger.(deregistered := c.ledger.deregistered + {r},
                                                     orphan := OrphanWithout(c.ledger, r))
                               else c.ledger.(failed := c.ledger.failed + {r}))
  {
    var ungauged := StopUngauged(c, id);
    assert ungauged.stops == map[id := Ungauged(r)];
  }

  lemma Recovers(c: Component, now: Now)
    requires c.loop.Renewing?
    ensures
      var after := Run(c, [Answer(Expired, now), Register(Accepted), Install]);
      && after.registration == Some(|c.ledger.obtained|) && after.loop == Healing
      && after.ledger.deregistered == c.ledger.deregistered
  {
    hide Run, Stamped;
    RunThree(c, Answer(Expired, now), Register(Accepted), Install);
  }

  /**
   A Stop after one that timed out waits for nobody: it returns with the instance deregistered, and
   then the loop registers it again and reports the component as healthy.
   */
  lemma SecondStopResurrects(instance: ServiceInstance, now: Now)
    ensures
      var expired := Run(Run(New("", false, instance), RenewalUnderWay(now)), FirstStop());
      var taken := Run(expired, [StopBegin(1), StopTake(1), StopUnflag(1)]);
      var stopped := StopDeregistered(StopUngauged(taken, 1), 1, true);
      var later := Healed(Run(stopped, [Answer(Expired, now), Register(Accepted), Install]));
      && stopped.stops == map[] && stopped.registration.None? && stopped.ledger.deregistered == {0}
      && later.registration == Some(1) && 1 !in later.ledger.deregistered && later.vitals.healthy
  {
    hide Run, ClearFlag, StopDeregistered, StopUngauged;
    var c := New("", false, instance);
    StartsRenewing(c, now);
    var renewing := Run(c, RenewalUnderWay(now));
    TimesOut(renewing);
    var expired := Run(renewing, FirstStop());
    TakesAtOnce(expired, 0);
    var taken := Run(expired, [StopBegin(1), StopTake(1), StopUnflag(1)]);
    Returns(taken, 1, 0, true);
    Recovers(StopDeregistered(StopUngauged(taken, 1), 1, true), now);
  }

  /** The loop quits, and the Stop that waited for it takes the registration and turns the flag off. */
  lemma QuitsAndTakes(c: Component, r: RegId)
    requires c.loop.Idle? && c.cancelled && c.stops == map[0 := Waiting] && c.registration == Some(r)
    ensures
      var after := Run(c, [Wake, StopTake(0), StopUnflag(0)]);
      && after.stops == map[0 := Unflagged(r)]
      && after == c.(loop := Off, registration := None, vitals := ClearFlag(c.vitals), stops := after.stops)
  {
    hide Run, ClearFlag;
    RunThree(c, Wake, StopTake(0), StopUnflag(0));
    var taken := StopTaken(Waking(c), 0);
    assert taken.stops == map[0 := Took(r)];
  }

  lemma StartsAndCancels(c: Component, now: Now)
    requires c.loop.Off? && c.stops == map[] && !c.dynamic && c.ledger == Ledger([], 0, {}, {}, {}, None)
    ensures
      var after := Run(c, [Start(None, now, Accepted), StopBegin(0), StopCancel(0)]);
      && after.stops == map[0 := Waiting] && after.loop.Idle? && after.cancelled && after.registration == Some(0)
      && |after.ledger.obtained| == 1 && after.ledger == Ledger(after.ledger.obtained, 0, {}, {}, {}, None)
  {
    hide Run, Stamped, MarkBegan;
    RunThree(c, Start(None, now, Accepted), StopBegin(0), StopCancel(0));
    var started := Starting(c, None, now, Accepted);
    var begun := StopBegun(started, 0);
    assert begun.stops == map[0 := Cancelling];
  }

  /**
   A Deregister that fails leaves the instance behind: Stop has already forgotten the registration,
   so no later Stop, nor anything else the component does, removes it.
   */
  lemma FailedDeregisterLeaves(instance: ServiceInstance, now: Now, more: seq<Action>)
    ensures
      var waiting := Run(New("", false, instance), [Start(None, now, Accepted), StopBegin(0), StopCancel(0)]);
      var taken := Run(waiting, [Wake, StopTake(0), StopUnflag(0)]);
      var stopped := StopDeregistered(StopUngauged(taken, 0), 0, false);
      && AllOver(stopped) && LeftBehind(stopped.ledger, 0)
      && 0 !in Run(stopped, more).ledger.deregistered
  {
    hide Run, ClearFlag, Inv, New;
    var c := New("", false, instance);
    assert c.loop.Off? && c.stops == map[] && !c.dynamic && c.ledger == Ledger([], 0, {}, {}, {}, None) by {
      NewFacts(instance);
    }
    NewInv("", false, instance);
    StartsAndCancels(c, now);
    var begin, rest := [Start(None, now, Accepted), StopBegin(0), StopCancel(0)], [Wake, StopTake(0), StopUnflag(0)];
    RunKeeps(c, begin);
    var waiting := Run(c, begin);
    QuitsAndTakes(waiting, 0);
    RunKeeps(waiting, rest);
    var taken := Run(waiting, rest);
    Returns(taken, 0, 0, false);
    StepKeeps(taken, StopUngauge(0));
    StepKeeps(StopUngauged(taken, 0), StopDeregister(0, false));
    FailedForGood(StopDeregistered(StopUngauged(taken, 0), 0, false), more, 0);
  }

  /** The component holds nothing, and nobody is about to register. */
  predicate Bare(c: Component) {
    c.loop.Off? && c.registration.None? && forall id: StopId | id in c.stops :: InHand(c.stops[id]).None?
  }

  lemma BareKeeps(c: Component, a: Action)
    requires Bare(c) && !a.Start?
    ensures Bare(Step(c, a)) && Step(c, a).ledger == c.ledger
  {
    hide Stamped, SetFlag, ClearFlag, CountTick;
  }

  lemma {:induction false} BareRun(c: Component, more: seq<Action>)
    requires Bare(c) && NoStart(more)
    ensures Bare(Run(c, more)) && Run(c, more).ledger == c.ledger
  {
    hide Step, Bare;
    if more != [] {
      BareRun(c, more[..|more| - 1]);
      BareKeeps(Run(c, more[..|more| - 1]), more[|more| - 1]);
    }
  }

  /**
   A Start whose Register is lost fails with the instance in the registry, and no Stop removes it,
   as there is no registration to deregister.
   */
  lemma LostStartLeaves(instance: ServiceInstance, now: Now, more: seq<Action>)
    requires NoStart(more)
    ensures
      var started := Step(New("", false, instance), Start(None, now, Lost));
      AllOver(started) && !NothingLeft(started.ledger) && !NothingLeft(Run(started, more).ledger)
  {
    hide Run, Stamped;
    BareRun(Step(New("", false, instance), Start(None, now, Lost)), more);
  }

  lemma NewFacts(instance: ServiceInstance)
    ensures
      var c := New("", false, instance);
      c.loop.Off? && c.stops == map[] && !c.dynamic && c.ledger == Ledger([], 0, {}, {}, {}, None)
  {
  }
}
