/** The registration component as an object: its methods when nothing interrupts them. */
module RegistrationObject {
  import opened Wrappers
  import opened Registry
  import opened Registration

  /** renewOrRegister from the moment it has read the registration. */
  function Renewal(c: Component, outcome: RenewOutcome, now: Now, reply: Reply): Component {
    Revived(Healed(Installed(Registered(Answered(c, outcome, now), reply))))
  }

  /** A tick of the loop that nothing interrupts. */
  function Ticked(c: Component, outcome: RenewOutcome, now: Now, reply: Reply): Component {
    Gauged(Flagged(Reported(Renewal(Beginning(Waking(c)), outcome, now, reply))))
  }

  /** A Stop that nothing interrupts; it waits for the loop to quit unless the context cuts it off. */
  function Stopped(c: Component, expires: bool, refused: bool): Component {
    var cancelled := StopCancelled(StopBegun(c, 0), 0);
    if c.handles && expires then StopExpired(cancelled, 0)
    else
      var quit := if c.handles then Waking(cancelled) else cancelled;
      StopDeregistered(StopUngauged(StopUnflagged(StopTaken(quit, 0), 0), 0), 0, !refused)
  }

  /** Taking the registration `r` or finding none, and giving it back. */
  function GivenBack(c: Component, refused: bool): Component {
    if c.registration.None? then c
    else
      var r := c.registration.value;
      c.(registration := None, vitals := ClearFlag(c.vitals).(gauge := false),
         ledger := if refused then c.ledger.(failed := c.ledger.failed + {r})
                   else c.ledger.(deregistered := c.ledger.deregistered + {r}, orphan := OrphanWithout(c.ledger, r)))
  }

  lemma TakenAlone(c: Component, phase: StopPhase, refused: bool)
    requires c.stops == map[0 := phase] && (phase.Skipping? || (phase.Waiting? && c.loop.Off?))
    ensures StopDeregistered(StopUngauged(StopUnflagged(StopTaken(c, 0), 0), 0), 0, !refused)
         == GivenBack(c.(stops := map[]), refused)
  {
    hide ClearFlag;
    var taken := StopTaken(c, 0);
    assert c.stops - {0} == map[];
    if c.registration.Some? {
      var r := c.registration.value;
      assert taken.stops == map[0 := Took(r)];
      var unflagged := StopUnflagged(taken, 0);
      assert unflagged.stops == map[0 := Unflagged(r)];
      var ungauged := StopUngauged(unflagged, 0);
      assert ungauged.stops == map[0 := Ungauged(r)];
      assert ungauged.stops - {0} == map[];
    }
  }

  /** What a Stop amounts to that nothing interrupts. */
  lemma StoppedAlone(c: Component, expires: bool, refused: bool)
    requires c.stops == map[] && (c.loop.Off? || c.loop.Idle?)
    ensures
      var quit := if c.handles then c.(handles := false, cancelled := true) else c;
      Stopped(c, expires, refused)
      == if c.handles && expires then quit
         else GivenBack(if c.handles then quit.(loop := Off) else quit, refused)
  {
    hide ClearFlag, StopDeregistered, StopUngauged, StopUnflagged, StopTaken, GivenBack;
    var begun := StopBegun(c, 0);
    var cancelled := StopCancelled(begun, 0);
    if c.handles {
      assert begun.stops == map[0 := Cancelling];
      assert cancelled.stops == map[0 := Waiting];
      assert cancelled.stops - {0} == map[];
      assert !expires ==> Waking(cancelled).loop.Off?;
      if !expires {
        TakenAlone(Waking(cancelled), Waiting, refused);
        assert Waking(cancelled).(stops := map[]) == c.(handles := false, cancelled := true, loop := Off);
      }
    } else {
      assert begun.stops == map[0 := Skipping];
      TakenAlone(cancelled, Skipping, refused);
      assert cancelled.(stops := map[]) == c;
    }
  }

  /** What is sent to the registry: the instance as of now, of this generation; nothing else of it changes. */
  predicate Sent(sent: ServiceInstance, source: ServiceInstance, generation: string, now: Now, starting: bool) {
    && sent.lastSeen == now
    && sent.dataPlaneGeneration == (if generation == "" then source.dataPlaneGeneration else generation)
    && sent.dataPlaneStartedAt == (if starting || source.dataPlaneStartedAt == 0 then now else source.dataPlaneStartedAt)
    && sent == source.(lastSeen := sent.lastSeen, dataPlaneGeneration := sent.dataPlaneGeneration,
                       dataPlaneStartedAt := sent.dataPlaneStartedAt)
  }

  /**
   A Start whose factory fails does nothing. Any other sends the fresh instance; if that is accepted
   the component holds the new registration, has its loop running and reports healthy, and if not it
   has just taken over the instance.
   */
  lemma StartExact(c: Component, made: Option<ServiceInstance>, now: Now, reply: Reply)
    requires c.loop.Off? && c.stops == map[]
    ensures
      var after := Starting(c, made, now, reply);
      if c.dynamic && made.None? then after == c
      else
        && Sent(after.instance, if c.dynamic then made.value else c.instance, c.generation, now, true)
        && (reply.Accepted? ==>
              && after.ledger == c.ledger.(obtained := c.ledger.obtained + [after.instance],
                                           epoch := |c.ledger.obtained|, orphan := None)
              && after.registration == Some(|c.ledger.obtained|)
              && after.handles && !after.cancelled && after.loop == Idle
              && after.vitals.healthy && after.vitals.gauge
              && after.vitals.errors == c.vitals.errors && after.vitals.recoveries == c.vitals.recoveries)
        && (!reply.Accepted? ==>
              after == c.(instance := after.instance,
                          ledger := if reply.Lost? then c.ledger.(orphan := Some(after.instance)) else c.ledger))
  {
  }

  /** The renewal of a tick succeeds if it is accepted, or if the registration has expired and is replaced. */
  predicate Succeeds(outcome: RenewOutcome, reply: Reply) {
    outcome == Fine || (outcome == Expired && reply == Accepted)
  }

  /**
   A tick that nothing interrupts reports exactly whether its renewal succeeded, in flag, gauge and
   counters; a recovery is one that finds the flag off without having replaced the registration. The
   registration changes only when it has expired and is replaced, by one for the fresh instance.
   */
  lemma TickExact(c: Component, outcome: RenewOutcome, now: Now, reply: Reply)
    requires c.loop.Idle? && !c.cancelled && c.registration.Some?
    ensures
      var after := Ticked(c, outcome, now, reply);
      var ok, v, w := Succeeds(outcome, reply), c.vitals, after.vitals;
      && after.loop == Idle && after.handles == c.handles && after.stops == c.stops && !after.cancelled
      && w.healthy == ok && w.gauge == ok
      && w.errors == (if ok then v.errors else v.errors + 1)
      && w.recoveries == (if outcome == Fine && !v.healthy then v.recoveries + 1 else v.recoveries)
      && w.replacements == (if ok && outcome == Expired then v.replacements + 1 else v.replacements)
      && (if outcome == Expired then Sent(after.instance, c.instance, c.generation, now, false)
          else after.instance == c.instance)
      && after.registration == (if ok && outcome == Expired then Some(|c.ledger.obtained|) else c.registration)
      && after.ledger.obtained
         == (if ok && outcome == Expired then c.ledger.obtained + [after.instance] else c.ledger.obtained)
      && after.ledger.expired
         == (if outcome == Expired then c.ledger.expired + {c.registration.value} else c.ledger.expired)
  {
    var begun := Beginning(Waking(c));
    RenewalExact(begun, outcome, now, reply);
    hide Renewal;
    ReportExact(Renewal(begun, outcome, now, reply));
  }

  lemma RenewalExact(c: Component, outcome: RenewOutcome, now: Now, reply: Reply)
    requires c.loop.Renewing?
    ensures
      var after := Renewal(c, outcome, now, reply);
      var ok, replaced := Succeeds(outcome, reply), outcome == Expired && reply == Accepted;
      && after == c.(loop := Reporting(ok, replaced), instance := after.instance, registration := after.registration,
                     ledger := after.ledger, vitals := after.vitals)
      && after.vitals == (if replaced then SetFlag(c.vitals, true).(gauge := true,
                                                                    replacements := c.vitals.replacements + 1)
                          else c.vitals)
      && (if outcome == Expired then Sent(after.instance, c.instance, c.generation, now, false)
          else after.instance == c.instance)
      && after.registration == (if replaced then Some(|c.ledger.obtained|) else c.registration)
      && after.ledger.obtained == (if replaced then c.ledger.obtained + [after.instance] else c.ledger.obtained)
      && after.ledger.expired
         == (if outcome == Expired then c.ledger.expired + {c.loop.registration} else c.ledger.expired)
  {
    if outcome == Expired {
      var answered := Answered(c, outcome, now);
      var registered := Registered(answered, reply);
      assert Sent(answered.instance, c.instance, c.generation, now, false);
      hide Answered, Registered, Stamped;
    }
  }

  lemma ReportExact(c: Component)
    requires c.loop.Reporting? && !c.cancelled
    ensures
      Gauged(Flagged(Reported(c)))
      == c.(loop := Idle, vitals := CountTick(SetFlag(c.vitals, c.loop.ok), c.loop.ok, c.loop.replaced,
                                              c.loop.ok && !c.vitals.healthy))
  {
    hide SetFlag, CountTick;
  }

  /** Without a registration a tick is an error and nothing else. */
  lemma BareTickFails(c: Component, outcome: RenewOutcome, now: Now, reply: Reply)
    requires c.loop.Idle? && !c.cancelled && c.registration.None?
    ensures
      var after := Ticked(c, outcome, now, reply);
      && after == c.(vitals := after.vitals)
      && !after.vitals.healthy && !after.vitals.gauge && after.vitals.errors == c.vitals.errors + 1
      && after.vitals.recoveries == c.vitals.recoveries && after.vitals.replacements == c.vitals.replacements
  {
  }

  datatype StopResult = StopDone | GaveUp | DeregisterFailed

  class RegistrationComponent {
    const generation: string
    const dynamic: bool
    var instance: ServiceInstance
    var registration: Option<RegId>
    var handles: bool
    var vitals: Vitals
    // The loop's own context and place, and the record of what was registered.
    var cancelled: bool
    ghost var loop: Loop
    ghost var ledger: Ledger

    /** The component between calls, with no Stop under way. */
    ghost function Abs(): Component
      reads this
    {
      Component(generation, dynamic, instance, registration, handles, cancelled, loop, map[], vitals, ledger)
    }

    constructor (generation: string, dynamic: bool, instance: ServiceInstance)
      ensures Abs() == New(generation, dynamic, instance)
    {
      this.generation, this.dynamic, this.instance := generation, dynamic, instance;
      registration, handles, cancelled := None, false, false;
      vitals, loop, ledger := Vitals(false, false, 0, 0, 0, false, []), Off, Ledger([], 0, {}, {}, {}, None);
    }

    /** The first half of register: stamps the instance and hands out what is sent to the registry. */
    method Stamp(now: Now, starting: bool) returns (sent: ServiceInstance)
      modifies this`instance
      ensures sent == instance == Stamped(old(instance), generation, now, starting)
    {
      instance := instance.(lastSeen := now);
      if generation != "" {
        instance := instance.(dataPlaneGeneration := generation);
      }
      if starting || instance.dataPlaneStartedAt == 0 {
        instance := instance.(dataPlaneStartedAt := now);
      }
      sent := instance;
    }

    /** markError or markRecovered, and the record of the tick. */
    method Mark(ok: bool, replaced: bool)
      modifies this`vitals
      ensures vitals == CountTick(SetFlag(old(vitals), ok), ok, replaced, ok && !old(vitals).healthy)
    {
      if ok {
        var was := vitals.healthy;
        vitals := vitals.(healthy := true, cleared := false);
        if !was {
          vitals := vitals.(recoveries := vitals.recoveries + 1);
        }
        vitals := vitals.(gauge := true);
      } else {
        vitals := vitals.(healthy := false, cleared := false);
        vitals := vitals.(gauge := false);
        vitals := vitals.(errors := vitals.errors + 1);
      }
      vitals := vitals.(history := vitals.history + [if !ok then Failed else if replaced then Replaced else Renewed]);
    }

    /** `id` is the registration that the registry hands out when it accepts. */
    method Start(made: Option<ServiceInstance>, now: Now, reply: Reply, id: RegId) returns (ok: bool)
      requires loop.Off? && (reply.Accepted? ==> id == |ledger.obtained|)
      modifies this
      ensures Abs() == Starting(old(Abs()), made, now, reply)
      ensures ok == ((dynamic ==> made.Some?) && reply.Accepted?)
    {
      hide Stamped;
      if dynamic {
        if made.None? {
          return false;
        }
        instance := made.value;
      }
      var sent := Stamp(now, true);
      if reply.Lost? {
        ledger := ledger.(orphan := Some(sent));
      }
      if !reply.Accepted? {
        return false;
      }
      ledger := ledger.(obtained := ledger.obtained + [sent], epoch := |ledger.obtained|, orphan := None);
      registration, handles, cancelled, loop := Some(id), true, false, Idle;
      vitals := MarkBegan(vitals);
      ok := true;
    }

    /** renewOrRegister. */
    method RenewOrRegister(outcome: RenewOutcome, now: Now, reply: Reply, id: RegId) returns (ok: bool, replaced: bool)
      requires loop.Checked? && (reply.Accepted? ==> id == |ledger.obtained|)
      modifies this`instance, this`registration, this`vitals, this`loop, this`ledger
      ensures Abs() == Renewal(Beginning(old(Abs())), outcome, now, reply)
      ensures loop == Reporting(ok, replaced)
    {
      hide Stamped;
      replaced := false;
      if registration.None? {
        loop := Reporting(false, false);
        return false, false;
      }
      if outcome != Expired {
        ok := outcome == Fine;
        loop := Reporting(ok, false);
        return;
      }
      ok, replaced := Reregister(now, reply, id);
    }

    /** renewOrRegister once the registration turned out to have expired. */
    method Reregister(now: Now, reply: Reply, id: RegId) returns (ok: bool, replaced: bool)
      requires loop.Checked? && registration.Some? && (reply.Accepted? ==> id == |ledger.obtained|)
      modifies this`instance, this`registration, this`vitals, this`loop, this`ledger
      ensures Abs() == Renewal(Beginning(old(Abs())), Expired, now, reply)
      ensures loop == Reporting(ok, replaced)
    {
      hide Stamped;
      ghost var renewing := Beginning(Abs());
      ledger := ledger.(expired := ledger.expired + {registration.value});
      var sent := Stamp(now, false);
      loop := Registering(sent);
      assert Abs() == Answered(renewing, Expired, now);
      if reply.Lost? {
        ledger := ledger.(orphan := Some(sent));
      }
      if !reply.Accepted? {
        loop := Reporting(false, false);
        return false, false;
      }
      ledger := ledger.(obtained := ledger.obtained + [sent], orphan := None);
      registration := Some(id);
      vitals := vitals.(healthy := true, cleared := false);
      vitals := vitals.(gauge := true, replacements := vitals.replacements + 1);
      loop := Reporting(true, true);
      return true, true;
    }

    /** One round of renewLoop. */
    method Tick(outcome: RenewOutcome, now: Now, reply: Reply, id: RegId)
      requires loop.Idle? && (reply.Accepted? ==> id == |ledger.obtained|)
      modifies this`instance, this`registration, this`vitals, this`loop, this`ledger
      ensures Abs() == (if cancelled then Waking(old(Abs())) else Ticked(old(Abs()), outcome, now, reply))
    {
      hide Beginning, Renewal, CountTick, SetFlag;
      if cancelled {
        loop := Off;
        return;
      }
      loop := Checked;
      assert Abs() == Waking(old(Abs()));
      var ok, replaced := RenewOrRegister(outcome, now, reply, id);
      Mark(ok, replaced);
      loop := Idle;
    }

    /** `expires`: the context ends before the loop does; `refused`: Deregister fails. */
    method Stop(expires: bool, refused: bool) returns (result: StopResult)
      requires loop.Off? || loop.Idle?
      modifies this
      ensures Abs() == Stopped(old(Abs()), expires, refused)
      ensures result == if old(handles) && expires then GaveUp
                        else if old(registration).Some? && refused then DeregisterFailed
                        else StopDone
    {
      StoppedAlone(Abs(), expires, refused);
      hide Stopped, ClearFlag;
      var waits := handles;
      handles := false;
      if waits {
        cancelled := true;
        if expires {
          return GaveUp;
        }
        loop := Off;
      }
      if registration.None? {
        return StopDone;
      }
      var taken := registration.value;
      registration := None;
      vitals := ClearFlag(vitals).(gauge := false);
      if refused {
        ledger := ledger.(failed := ledger.failed + {taken});
        return DeregisterFailed;
      }
      ledger := ledger.(deregistered := ledger.deregistered + {taken}, orphan := OrphanWithout(ledger, taken));
      result := StopDone;
    }
  }
}
