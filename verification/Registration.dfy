/**
 The registration component: it registers one instance, a background loop renews the registration
 or replaces it once it has expired, and Stop deregisters it. The loop and any number of Stop calls
 interleave between their critical sections, which are the steps here.
 */
module Registration {
  import opened Wrappers
  import opened Registry

  type RegId = nat
  type StopId = nat

  // A reading of the wall clock, which is never the zero time.
  type Now = t: Time | t != 0 witness 1

  /** Where the renew loop is; off before Start and after it closed its done channel. */
  datatype Loop =
    | Off
    | Idle
    | Checked
    | Renewing(registration: RegId)
    | Registering(instance: ServiceInstance)
    | Installing(registration: RegId)
    | Healing
    | Reviving
    | Reporting(ok: bool, replaced: bool)
    | Flagging(ok: bool, replaced: bool)
    | Gauging(ok: bool, replaced: bool, counts: bool)

  /**
   Where a Stop call is: `Skipping` found no loop to wait for; with a registration in hand it turns
   the flag off, then the gauge, and then deregisters.
   */
  datatype StopPhase =
    | Cancelling
    | Waiting
    | Skipping
    | Took(registration: RegId)
    | Unflagged(registration: RegId)
    | Ungauged(registration: RegId)

  /** What the loop reported of a tick, and the starts in between. */
  datatype Mark = Began | Failed | Renewed | Replaced

  /**
   The healthy flag, the status gauge, the counters, and the marks that led to them; `cleared` says
   that a Stop turned the flag off and nobody has written it since.
   */
  datatype Vitals = Vitals(
    healthy: bool,
    gauge: bool,
    errors: nat,
    recoveries: nat,
    replacements: nat,
    cleared: bool,
    history: seq<Mark>)

  /**
   Every registration ever obtained and what became of it: expired, deregistered, or taken by a Stop
   whose Deregister failed; `epoch` is the first one since the last successful Start. `orphan` is an
   instance that the registry took although its reply was an error, and that nobody has registered
   or deregistered since.
   */
  datatype Ledger = Ledger(
    obtained: seq<ServiceInstance>,
    epoch: nat,
    expired: set<RegId>,
    deregistered: set<RegId>,
    failed: set<RegId>,
    orphan: Option<ServiceInstance>)

  /** `handles` says that cancelRenew and renewDone are set. */
  datatype Component = Component(
    generation: string,
    dynamic: bool,
    instance: ServiceInstance,
    registration: Option<RegId>,
    handles: bool,
    cancelled: bool,
    loop: Loop,
    stops: map<StopId, StopPhase>,
    vitals: Vitals,
    ledger: Ledger)

  function New(generation: string, dynamic: bool, instance: ServiceInstance): Component {
    Component(generation, dynamic, instance, None, false, false, Off, map[],
              Vitals(false, false, 0, 0, 0, false, []), Ledger([], 0, {}, {}, {}, None))
  }

  /** The instance as `register` sends it. */
  function Stamped(instance: ServiceInstance, generation: string, now: Now, starting: bool): ServiceInstance {
    instance.(lastSeen := now,
              dataPlaneGeneration := if generation != "" then generation else instance.dataPlaneGeneration,
              dataPlaneStartedAt := if starting || instance.dataPlaneStartedAt == 0 then now
                                    else instance.dataPlaneStartedAt)
  }

  // ---------------------------------------------------------------- marks

  /** markHealthy at the end of Start. */
  function MarkBegan(v: Vitals): Vitals {
    v.(healthy := true, gauge := true, cleared := false, history := v.history + [Began])
  }

  /** The loop writes the flag. */
  function SetFlag(v: Vitals, on: bool): Vitals {
    v.(healthy := on, cleared := false)
  }

  /** A Stop turns the flag off. */
  function ClearFlag(v: Vitals): Vitals {
    v.(healthy := false, cleared := v.healthy || v.cleared)
  }

  function MarkOf(ok: bool, replaced: bool): Mark {
    if !ok then Failed else if replaced then Replaced else Renewed
  }

  /** The gauge and the counter at the end of a tick. */
  function CountTick(v: Vitals, ok: bool, replaced: bool, counts: bool): Vitals {
    v.(gauge := ok,
       errors := if ok then v.errors else v.errors + 1,
       recoveries := if ok && counts then v.recoveries + 1 else v.recoveries,
       history := v.history + [MarkOf(ok, replaced)])
  }

  // ---------------------------------------------------------------- the steps; one that is not enabled does nothing

  datatype RenewOutcome = Fine | Expired | Refused

  /** How Register comes back; `Lost` is an error although the instance has been written. */
  datatype Reply = Accepted | Denied | Lost

  predicate SameService(a: ServiceInstance, b: ServiceInstance) {
    a.name == b.name && a.id == b.id
  }

  /** Deregistering an instance deletes its key, whoever wrote it last. */
  function OrphanWithout(l: Ledger, r: RegId): Option<ServiceInstance> {
    if r < |l.obtained| && l.orphan.Some? && SameService(l.orphan.value, l.obtained[r]) then None else l.orphan
  }

  /** Start, from the instance factory to the launch of the loop; it is not run beside itself or a Stop. */
  function Starting(c: Component, made: Option<ServiceInstance>, now: Now, reply: Reply): Component {
    if !c.loop.Off? || c.stops != map[] || (c.dynamic && made.None?) then c
    else
      var instance := Stamped(if c.dynamic then made.value else c.instance, c.generation, now, true);
      match reply
      case Denied => c.(instance := instance)
      case Lost => c.(instance := instance, ledger := c.ledger.(orphan := Some(instance)))
      case Accepted => c.(instance := instance, registration := Some(|c.ledger.obtained|),
              handles := true, cancelled := false, loop := Idle, vitals := MarkBegan(c.vitals),
              ledger := c.ledger.(obtained := c.ledger.obtained + [instance], epoch := |c.ledger.obtained|, orphan := None))
  }

  /** The loop wakes up, by its ticker or by cancellation, and looks at its context. */
  function Waking(c: Component): Component {
    if c.loop.Idle? then c.(loop := if c.cancelled then Off else Checked) else c
  }

  /** renewOrRegister reads the registration. */
  function Beginning(c: Component): Component {
    if !c.loop.Checked? then c
    else if c.registration.None? then c.(loop := Reporting(false, false))
    else c.(loop := Renewing(c.registration.value))
  }

  /** Renew came back. */
  function Answered(c: Component, outcome: RenewOutcome, now: Now): Component {
    if !c.loop.Renewing? then c
    else match outcome
      case Fine => c.(loop := Reporting(true, false))
      case Refused => c.(loop := Reporting(false, false))
      case Expired =>
        var instance := Stamped(c.instance, c.generation, now, false);
        c.(instance := instance, loop := Registering(instance),
           ledger := c.ledger.(expired := c.ledger.expired + {c.loop.registration}))
  }

  /** Register came back. */
  function Registered(c: Component, reply: Reply): Component {
    if !c.loop.Registering? then c
    else match reply
      case Accepted =>
        c.(loop := Installing(|c.ledger.obtained|),
           ledger := c.ledger.(obtained := c.ledger.obtained + [c.loop.instance], orphan := None))
      case Denied => c.(loop := Reporting(false, false))
      case Lost => c.(loop := Reporting(false, false), ledger := c.ledger.(orphan := Some(c.loop.instance)))
  }

  /** The replacement becomes the component's registration. */
  function Installed(c: Component): Component {
    if c.loop.Installing? then c.(registration := Some(c.loop.registration), loop := Healing) else c
  }

  /** The flag goes on for the replacement. */
  function Healed(c: Component): Component {
    if c.loop.Healing? then c.(vitals := SetFlag(c.vitals, true), loop := Reviving) else c
  }

  /** So does the gauge, and the replacement is counted. */
  function Revived(c: Component): Component {
    if c.loop.Reviving? then
      c.(vitals := c.vitals.(gauge := true, replacements := c.vitals.replacements + 1), loop := Reporting(true, true))
    else c
  }

  /** The outcome of a tick is dropped when the loop has been cancelled by now. */
  function Reported(c: Component): Component {
    if !c.loop.Reporting? then c
    else if c.cancelled then c.(loop := Off)
    else c.(loop := Flagging(c.loop.ok, c.loop.replaced))
  }

  /** markError or markRecovered writes the flag; a recovery counts if it swapped the flag from off. */
  function Flagged(c: Component): Component {
    if c.loop.Flagging? then
      c.(vitals := SetFlag(c.vitals, c.loop.ok),
         loop := Gauging(c.loop.ok, c.loop.replaced, c.loop.ok && !c.vitals.healthy))
    else c
  }

  /** Its gauge and its counter follow. */
  function Gauged(c: Component): Component {
    if c.loop.Gauging? then
      c.(vitals := CountTick(c.vitals, c.loop.ok, c.loop.replaced, c.loop.counts), loop := Idle)
    else c
  }

  /** Stop takes the loop's handles, if they are still there. */
  function StopBegun(c: Component, id: StopId): Component {
    if id in c.stops then c
    else c.(stops := c.stops[id := if c.handles then Cancelling else Skipping], handles := false)
  }

  function StopCancelled(c: Component, id: StopId): Component {
    if id in c.stops && c.stops[id].Cancelling? then c.(cancelled := true, stops := c.stops[id := Waiting]) else c
  }

  /** The caller's context ends the wait, and Stop returns its error. */
  function StopExpired(c: Component, id: StopId): Component {
    if id in c.stops && c.stops[id].Waiting? then c.(stops := c.stops - {id}) else c
  }

  /** Stop's wait is over, or there was nothing to wait for. */
  predicate CanTake(c: Component, id: StopId) {
    id in c.stops && (c.stops[id].Skipping? || (c.stops[id].Waiting? && c.loop.Off?))
  }

  /** Stop takes the registration. */
  function StopTaken(c: Component, id: StopId): Component {
    if !CanTake(c, id) then c
    else if c.registration.None? then c.(stops := c.stops - {id})
    else c.(registration := None, stops := c.stops[id := Took(c.registration.value)])
  }

  /** markUnhealthy turns the flag off. */
  function StopUnflagged(c: Component, id: StopId): Component {
    if id in c.stops && c.stops[id].Took? then
      c.(vitals := ClearFlag(c.vitals), stops := c.stops[id := Unflagged(c.stops[id].registration)])
    else c
  }

  /** And then the gauge. */
  function StopUngauged(c: Component, id: StopId): Component {
    if id in c.stops && c.stops[id].Unflagged? then
      c.(vitals := c.vitals.(gauge := false), stops := c.stops[id := Ungauged(c.stops[id].registration)])
    else c
  }

  /** Deregister came back; the component has forgotten the registration either way. */
  function StopDeregistered(c: Component, id: StopId, ok: bool): Component {
    if id in c.stops && c.stops[id].Ungauged? then
      var r := c.stops[id].registration;
      c.(stops := c.stops - {id},
         ledger := if ok then c.ledger.(deregistered := c.ledger.deregistered + {r}, orphan := OrphanWithout(c.ledger, r))
                   else c.ledger.(failed := c.ledger.failed + {r}))
    else c
  }

  datatype Action =
    | Start(made: Option<ServiceInstance>, now: Now, reply: Reply)
    | Wake
    | Begin
    | Answer(outcome: RenewOutcome, now: Now)
    | Register(reply: Reply)
    | Install
    | Heal
    | Revive
    | Report
    | Flag
    | Gauge
    | StopBegin(id: StopId)
    | StopCancel(id: StopId)
    | StopExpire(id: StopId)
    | StopTake(id: StopId)
    | StopUnflag(id: StopId)
    | StopUngauge(id: StopId)
    | StopDeregister(id: StopId, ok: bool)

  function Step(c: Component, a: Action): Component {
    match a
    case Start(made, now, reply) => Starting(c, made, now, reply)
    case Wake => Waking(c)
    case Begin => Beginning(c)
    case Answer(outcome, now) => Answered(c, outcome, now)
    case Register(reply) => Registered(c, reply)
    case Install => Installed(c)
    case Heal => Healed(c)
    case Revive => Revived(c)
    case Report => Reported(c)
    case Flag => Flagged(c)
    case Gauge => Gauged(c)
    case StopBegin(id) => StopBegun(c, id)
    case StopCancel(id) => StopCancelled(c, id)
    case StopExpire(id) => StopExpired(c, id)
    case StopTake(id) => StopTaken(c, id)
    case StopUnflag(id) => StopUnflagged(c, id)
    case StopUngauge(id) => StopUngauged(c, id)
    case StopDeregister(id, ok) => StopDeregistered(c, id, ok)
  }

  function Run(c: Component, actions: seq<Action>): Component {
    if actions == [] then c else Step(Run(c, actions[..|actions| - 1]), actions[|actions| - 1])
  }

  /** The loop is past the point where it found a registration to renew. */
  predicate Recovering(loop: Loop) {
    loop.Renewing? || loop.Registering? || loop.Installing?
  }

  /** The registration that a Stop has in hand. */
  function InHand(phase: StopPhase): Option<RegId> {
    if phase.Took? || phase.Unflagged? || phase.Ungauged? then Some(phase.registration) else None
  }

  // ---------------------------------------------------------------- runs put together

  lemma RunOne(c: Component, a: Action)
    ensures Run(c, [a]) == Step(c, a)
  {
    assert [a][..0] == [];
    assert Run(c, []) == c;
  }

  lemma RunThen(c: Component, actions: seq<Action>, a: Action)
    ensures Run(c, actions + [a]) == Step(Run(c, actions), a)
  {
    assert (actions + [a])[..|actions|] == actions;
  }

  lemma RunThree(c: Component, x: Action, y: Action, z: Action)
    ensures Run(c, [x, y, z]) == Step(Step(Step(c, x), y), z)
  {
    hide Step;
    RunOne(c, x);
    RunThen(c, [x], y);
    RunThen(c, [x] + [y], z);
    assert [x] + [y] + [z] == [x, y, z];
  }

  lemma {:induction false} RunConcat(c: Component, a: seq<Action>, b: seq<Action>)
    ensures Run(c, a + b) == Run(Run(c, a), b)
  {
    hide Step;
    if b == [] {
      assert a + b == a;
    } else {
      RunConcat(c, a, b[..|b| - 1]);
      assert (a + b)[..|a + b| - 1] == a + b[..|b| - 1];
    }
  }

  predicate NoStart(actions: seq<Action>) {
    forall i | 0 <= i < |actions| :: !actions[i].Start?
  }
}
