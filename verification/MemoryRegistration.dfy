/**
 The registration component on top of the in-process registry, which never answers a renewal with
 "expired": a registration that is gone from it is not replaced.
 */
module MemoryRegistration {
  import opened Wrappers
  import opened Text
  import opened Registry
  import Mem = MemoryRegistry
  import Reg = Registration

  datatype Joint = Joint(component: Reg.Component, registry: Mem.State)

  /** What renewOrRegister makes of the registry's error: only "expired" is told from the others. */
  function AnswerTo(error: Option<Mem.RegistryError>): Reg.RenewOutcome {
    if error.None? then Reg.Fine else Reg.Refused
  }

  /** A Register that the registry refuses has had no effect on it. */
  function ReplyTo(instance: ServiceInstance, cancelled: bool): Reg.Reply {
    if Mem.Valid(instance) && !cancelled then Reg.Accepted else Reg.Denied
  }

  /** The name and the id that the handle of a registration remembers. */
  function NameOf(instance: ServiceInstance): string {
    TrimSpace(instance.name)
  }

  function IdOf(instance: ServiceInstance): string {
    TrimSpace(instance.id)
  }

  /**
   Steps of the component, of which those that call the registry are answered by it, and of
   everybody else who uses the registry. `cancelled` is the context of the call.
   */
  datatype Action =
    | Own(step: Reg.Action)
    | AskStart(made: Option<ServiceInstance>, now: Reg.Now, cancelled: bool)
    | AskRenew(now: Reg.Now, cancelled: bool)
    | AskRegister(now: Reg.Now, cancelled: bool)
    | AskDeregister(id: Reg.StopId, cancelled: bool)
    | Other(use: Mem.Action)

  predicate Asks(a: Reg.Action) {
    a.Start? || a.Answer? || a.Register? || a.StopDeregister?
  }

  function Started(j: Joint, made: Option<ServiceInstance>, now: Reg.Now, cancelled: bool): Joint {
    var c := j.component;
    if !c.loop.Off? || c.stops != map[] || (c.dynamic && made.None?) then j
    else
      var sent := Reg.Stamped(if c.dynamic then made.value else c.instance, c.generation, now, true);
      Joint(Reg.Starting(c, made, now, ReplyTo(sent, cancelled)), Mem.Registering(j.registry, sent, now, cancelled))
  }

  function Renewed(j: Joint, now: Reg.Now, cancelled: bool): Joint {
    var c := j.component;
    if !c.loop.Renewing? || c.loop.registration >= |c.ledger.obtained| then j
    else
      var instance := c.ledger.obtained[c.loop.registration];
      var error := Mem.RenewError(j.registry.instances, NameOf(instance), IdOf(instance), cancelled);
      Joint(Reg.Answered(c, AnswerTo(error), now),
            Mem.Renewing(j.registry, NameOf(instance), IdOf(instance), now, cancelled))
  }

  function Registered(j: Joint, now: Reg.Now, cancelled: bool): Joint {
    var c := j.component;
    if !c.loop.Registering? then j
    else
      Joint(Reg.Registered(c, ReplyTo(c.loop.instance, cancelled)),
            Mem.Registering(j.registry, c.loop.instance, now, cancelled))
  }

  function Deregistered(j: Joint, id: Reg.StopId, cancelled: bool): Joint {
    var c := j.component;
    if id !in c.stops || !c.stops[id].Ungauged? || c.stops[id].registration >= |c.ledger.obtained| then j
    else
      var instance := c.ledger.obtained[c.stops[id].registration];
      var error := Mem.DeregisterError(NameOf(instance), IdOf(instance), cancelled);
      Joint(Reg.StopDeregistered(c, id, error.None?),
            Mem.Deregistering(j.registry, NameOf(instance), IdOf(instance), cancelled))
  }

  ghost function Step(j: Joint, a: Action): Joint {
    match a
    case Own(step) => if Asks(step) then j else j.(component := Reg.Step(j.component, step))
    case AskStart(made, now, cancelled) => Started(j, made, now, cancelled)
    case AskRenew(now, cancelled) => Renewed(j, now, cancelled)
    case AskRegister(now, cancelled) => Registered(j, now, cancelled)
    case AskDeregister(id, cancelled) => Deregistered(j, id, cancelled)
    case Other(use) => j.(registry := Mem.Step(j.registry, use))
  }

  ghost function Run(j: Joint, actions: seq<Action>): Joint {
    if actions == [] then j else Step(Run(j, actions[..|actions| - 1]), actions[|actions| - 1])
  }

  function New(generation: string, dynamic: bool, instance: ServiceInstance): Joint {
    Joint(Reg.New(generation, dynamic, instance), Mem.INITIAL)
  }

  // ---------------------------------------------------------------- calls that get through, and those that do not

  function Found(s: Mem.State, name: string, id: string): Option<ServiceInstance> {
    if name in s.instances && id in s.instances[name] then Some(s.instances[name][id]) else None
  }

  /**
   A Start registers the instance of its factory, or else the configured one: if its context lives
   and it has a name, an id and an address, the registry has it under its trimmed name and id and
   the component runs; otherwise the registry is left alone and the component holds nothing new.
   */
  lemma StartRegisters(j: Joint, made: Option<ServiceInstance>, now: Reg.Now, cancelled: bool)
    requires j.component.loop.Off? && j.component.stops == map[] && (j.component.dynamic ==> made.Some?)
    ensures
      var source := if j.component.dynamic then made.value else j.component.instance;
      var name, id := TrimSpace(source.name), TrimSpace(source.id);
      var after := Step(j, AskStart(made, now, cancelled));
      if !cancelled && name != "" && id != "" && TrimSpace(source.address) != "" then
        && Found(after.registry, name, id).Some? && Found(after.registry, name, id).value.lastSeen == now
        && after.component.registration == Some(|j.component.ledger.obtained|) && after.component.loop == Reg.Idle
      else
        after.registry == j.registry && after.component.registration == j.component.registration
        && after.component.loop == j.component.loop
  {
    hide TrimSpace, Mem.Broadcast, Mem.SendsOnClosed, Mem.Targets, Reg.MarkBegan;
  }

  /** A renewal whose context lives succeeds exactly if the registry still has the instance, which it then refreshes. */
  lemma RenewRefreshes(j: Joint, now: Reg.Now, cancelled: bool)
    requires j.component.loop.Renewing? && j.component.loop.registration < |j.component.ledger.obtained|
    ensures
      var instance := j.component.ledger.obtained[j.component.loop.registration];
      var name, id := TrimSpace(instance.name), TrimSpace(instance.id);
      var after := Step(j, AskRenew(now, cancelled));
      if !cancelled && Found(j.registry, name, id).Some? then
        && after.component.loop == Reg.Reporting(true, false)
        && Found(after.registry, name, id) == Some(Found(j.registry, name, id).value.(lastSeen := now))
      else
        after.component.loop == Reg.Reporting(false, false) && after.registry == j.registry
  {
    hide TrimSpace, Mem.Broadcast, Mem.SendsOnClosed, Mem.Targets;
  }

  /** A Stop whose context lives removes the instance, if it has a name and an id; otherwise its Deregister fails. */
  lemma StopRemoves(j: Joint, stop: Reg.StopId, cancelled: bool)
    requires stop in j.component.stops && j.component.stops[stop].Ungauged?
    requires j.component.stops[stop].registration < |j.component.ledger.obtained|
    ensures
      var r := j.component.stops[stop].registration;
      var instance := j.component.ledger.obtained[r];
      var name, id := TrimSpace(instance.name), TrimSpace(instance.id);
      var after := Step(j, AskDeregister(stop, cancelled));
      if !cancelled && name != "" && id != "" then
        Found(after.registry, name, id) == None && r in after.component.ledger.deregistered
      else
        after.registry == j.registry && r in after.component.ledger.failed
  {
    TrimIdempotent(j.component.ledger.obtained[j.component.stops[stop].registration].name, WHITESPACE);
    TrimIdempotent(j.component.ledger.obtained[j.component.stops[stop].registration].id, WHITESPACE);
    hide Trim, Mem.Broadcast, Mem.SendsOnClosed, Mem.Targets;
  }

  // ---------------------------------------------------------------- nothing is ever replaced

  /** The loop is nowhere near registering again. */
  predicate NeverExpired(c: Reg.Component) {
    c.ledger.expired == {} && !c.loop.Registering? && !c.loop.Installing?
  }

  lemma OwnStep(c: Reg.Component, a: Reg.Action)
    requires NeverExpired(c) && !Asks(a)
    ensures NeverExpired(Reg.Step(c, a)) && Reg.Step(c, a).ledger.obtained == c.ledger.obtained
  {
    hide Reg.SetFlag, Reg.ClearFlag, Reg.CountTick, Reg.CanTake;
  }

  lemma AskedStep(j: Joint, a: Action)
    requires NeverExpired(j.component) && !a.Own? && !a.Other?
    ensures NeverExpired(Step(j, a).component)
    ensures !a.AskStart? ==> Step(j, a).component.ledger.obtained == j.component.ledger.obtained
  {
    hide Reg.Stamped, Reg.MarkBegan, Mem.Valid, Mem.Registering, Mem.Renewing, Mem.Deregistering;
    hide Mem.RenewError, Mem.DeregisterError, NameOf, IdOf;
  }

  lemma StepNeverExpires(j: Joint, a: Action)
    requires NeverExpired(j.component)
    ensures NeverExpired(Step(j, a).component)
    ensures !a.AskStart? ==> Step(j, a).component.ledger.obtained == j.component.ledger.obtained
  {
    if a.Own? {
      hide NeverExpired, Reg.Step, Asks;
      if !Asks(a.step) {
        OwnStep(j.component, a.step);
      }
    } else if !a.Other? {
      AskedStep(j, a);
    } else {
      hide Mem.Step, NeverExpired;
    }
  }

  lemma {:induction false} RunNeverExpires(j: Joint, actions: seq<Action>)
    requires NeverExpired(j.component)
    ensures NeverExpired(Run(j, actions).component)
  {
    hide Step, NeverExpired;
    if actions != [] {
      RunNeverExpires(j, actions[..|actions| - 1]);
      StepNeverExpires(Run(j, actions[..|actions| - 1]), actions[|actions| - 1]);
    }
  }

  predicate NoStart(actions: seq<Action>) {
    forall i | 0 <= i < |actions| :: !actions[i].AskStart?
  }

  lemma {:induction false} ObtainsNoMore(j: Joint, more: seq<Action>)
    requires NeverExpired(j.component) && NoStart(more)
    ensures Run(j, more).component.ledger.obtained == j.component.ledger.obtained
  {
    hide Step, NeverExpired;
    if more != [] {
      var n := |more| - 1;
      ObtainsNoMore(j, more[..n]);
      RunNeverExpires(j, more[..n]);
      StepNeverExpires(Run(j, more[..n]), more[n]);
    }
  }

  // ---------------------------------------------------------------- what is deleted stays deleted

  /** Somebody registers under this name and id. */
  predicate Brings(use: Mem.Action, name: string, id: string) {
    use.Register? && TrimSpace(use.instance.name) == name && TrimSpace(use.instance.id) == id
  }

  predicate NobodyBrings(actions: seq<Action>, name: string, id: string) {
    forall i | 0 <= i < |actions| && actions[i].Other? :: !Brings(actions[i].use, name, id)
  }

  predicate Absent(s: Mem.State, name: string, id: string) {
    id !in Mem.At(s.instances, name)
  }

  lemma RenewingAbsent(s: Mem.State, n: string, i: string, now: Time, cancelled: bool, name: string, id: string)
    requires Absent(s, name, id)
    ensures Absent(Mem.Renewing(s, n, i, now, cancelled), name, id)
  {
    hide Mem.Broadcast, Mem.SendsOnClosed, Mem.Targets;
  }

  lemma DeregisteringAbsent(s: Mem.State, n: string, i: string, cancelled: bool, name: string, id: string)
    requires Absent(s, name, id)
    ensures Absent(Mem.Deregistering(s, n, i, cancelled), name, id)
  {
    hide Mem.Broadcast, Mem.SendsOnClosed, Mem.Targets, TrimSpace;
  }

  lemma RegisteringAbsent(s: Mem.State, instance: ServiceInstance, now: Time, cancelled: bool, name: string, id: string)
    requires Absent(s, name, id) && !(TrimSpace(instance.name) == name && TrimSpace(instance.id) == id)
    ensures Absent(Mem.Registering(s, instance, now, cancelled), name, id)
  {
    hide Mem.Broadcast, Mem.SendsOnClosed, Mem.Targets, TrimSpace, Blank;
  }

  lemma UseAbsent(s: Mem.State, use: Mem.Action, name: string, id: string)
    requires Absent(s, name, id) && !Brings(use, name, id)
    ensures Absent(Mem.Step(s, use), name, id)
  {
    hide Mem.Registering, Mem.Renewing, Mem.Deregistering, Mem.Enumerates, TrimSpace, Mem.Unlisted, Mem.Announced;
    match use
    case Register(instance, now, cancelled) => RegisteringAbsent(s, instance, now, cancelled, name, id);
    case Renew(n, i, now, cancelled) => RenewingAbsent(s, n, i, now, cancelled, name, id);
    case Deregister(n, i, cancelled) => DeregisteringAbsent(s, n, i, cancelled, name, id);
    case _ =>
  }

  lemma StepAbsent(j: Joint, a: Action, name: string, id: string)
    requires NeverExpired(j.component) && Absent(j.registry, name, id)
    requires !a.AskStart? && (a.Other? ==> !Brings(a.use, name, id))
    ensures Absent(Step(j, a).registry, name, id)
  {
    hide Mem.Registering, Mem.Renewing, Mem.Deregistering, Mem.Step, Absent, Reg.Step, TrimSpace, Brings;
    match a
    case AskRenew(now, cancelled) =>
      var c := j.component;
      if c.loop.Renewing? && c.loop.registration < |c.ledger.obtained| {
        var instance := c.ledger.obtained[c.loop.registration];
        RenewingAbsent(j.registry, NameOf(instance), IdOf(instance), now, cancelled, name, id);
      }
    case AskDeregister(stop, cancelled) =>
      var c := j.component;
      if stop in c.stops && c.stops[stop].Ungauged? && c.stops[stop].registration < |c.ledger.obtained| {
        var instance := c.ledger.obtained[c.stops[stop].registration];
        DeregisteringAbsent(j.registry, NameOf(instance), IdOf(instance), cancelled, name, id);
      }
    case Other(use) => UseAbsent(j.registry, use, name, id);
    case _ =>
  }

  lemma {:induction false} RunAbsent(j: Joint, more: seq<Action>, name: string, id: string)
    requires NeverExpired(j.component) && Absent(j.registry, name, id)
    requires NoStart(more) && NobodyBrings(more, name, id)
    ensures Absent(Run(j, more).registry, name, id)
  {
    hide Step, NeverExpired, Absent, Brings;
    if more != [] {
      var n := |more| - 1;
      RunAbsent(j, more[..n], name, id);
      RunNeverExpires(j, more[..n]);
      StepAbsent(Run(j, more[..n]), more[n], name, id);
    }
  }

  /**
   On the in-process registry a component obtains one registration for each Start and never another:
   no renewal is answered with "expired". So an instance that is gone from the registry, deleted by
   an operator, say, stays gone until somebody starts a component for it or registers it himself.
   */
  lemma NeverReRegistered(generation: string, dynamic: bool, instance: ServiceInstance, actions: seq<Action>,
                          more: seq<Action>, name: string, id: string)
    requires NoStart(more)
    ensures
      var j := Run(New(generation, dynamic, instance), actions);
      && j.component.ledger.expired == {}
      && Run(j, more).component.ledger.obtained == j.component.ledger.obtained
      && (Absent(j.registry, name, id) && NobodyBrings(more, name, id) ==> Absent(Run(j, more).registry, name, id))
  {
    hide Run, Absent;
    NewNeverExpired(generation, dynamic, instance);
    RunNeverExpires(New(generation, dynamic, instance), actions);
    var j := Run(New(generation, dynamic, instance), actions);
    ObtainsNoMore(j, more);
    if Absent(j.registry, name, id) && NobodyBrings(more, name, id) {
      RunAbsent(j, more, name, id);
    }
  }

  lemma NewNeverExpired(generation: string, dynamic: bool, instance: ServiceInstance)
    ensures NeverExpired(New(generation, dynamic, instance).component)
  {
  }

  /** And every renewal of such an instance is a failed tick. */
  lemma DeletedTicksFail(j: Joint, now: Reg.Now, cancelled: bool)
    requires j.component.loop.Renewing? && j.component.loop.registration < |j.component.ledger.obtained|
    requires
      var instance := j.component.ledger.obtained[j.component.loop.registration];
      Absent(j.registry, NameOf(instance), IdOf(instance))
    ensures Renewed(j, now, cancelled).component.loop == Reg.Reporting(false, false)
    ensures Renewed(j, now, cancelled).registry == j.registry
  {
    hide TrimSpace;
  }

  /** A Stop whose context is over by then leaves the instance in the registry. */
  lemma CancelledStopLeaves(j: Joint, id: Reg.StopId)
    requires id in j.component.stops && j.component.stops[id].Ungauged?
    requires j.component.stops[id].registration < |j.component.ledger.obtained|
    ensures
      var after := Deregistered(j, id, true);
      after.registry == j.registry && j.component.stops[id].registration in after.component.ledger.failed
  {
    hide TrimSpace;
  }
}
