/**
 What the registration component reports about itself: the renew counters against the ticks they
 count, and the status gauge against the healthy flag. The loop and the Stop calls write the flag,
 the gauge and the counters one after the other without a lock.
 */
module RegistrationVitals {
  import opened Wrappers
  import opened Registry
  import opened Registration
  import opened RegistrationSafety

  // ---------------------------------------------------------------- what the ticks say

  function Failures(history: seq<Mark>): nat {
    if history == [] then 0
    else Failures(history[..|history| - 1]) + if history[|history| - 1].Failed? then 1 else 0
  }

  /** How often a renewal directly followed a failed tick. */
  function Comebacks(history: seq<Mark>): nat {
    if |history| < 2 then 0
    else
      var n := |history| - 1;
      Comebacks(history[..n]) + if history[n].Renewed? && history[n - 1].Failed? then 1 else 0
  }

  predicate LastFailed(history: seq<Mark>) {
    history != [] && history[|history| - 1].Failed?
  }

  lemma {:induction false} ComebacksBounded(history: seq<Mark>)
    ensures Comebacks(history) <= Failures(history)
    ensures Comebacks(history) + Failures(history) <= |history|
    ensures LastFailed(history) ==> Comebacks(history) < Failures(history)
  {
    if history != [] {
      ComebacksBounded(history[..|history| - 1]);
    }
  }

  lemma Appended(history: seq<Mark>, mark: Mark)
    ensures Failures(history + [mark]) == Failures(history) + if mark.Failed? then 1 else 0
    ensures Comebacks(history + [mark])
         == Comebacks(history) + if mark.Renewed? && LastFailed(history) then 1 else 0
    ensures LastFailed(history + [mark]) <==> mark.Failed?
  {
    assert (history + [mark])[..|history|] == history;
  }

  // ---------------------------------------------------------------- stray recoveries

  /** The loop swaps the flag on after a Stop turned it off. */
  predicate Strays(c: Component, a: Action) {
    a.Flag? && c.loop.Flagging? && c.loop.ok && c.vitals.cleared
  }

  function StrayCount(c: Component, actions: seq<Action>): nat {
    if actions == [] then 0
    else
      var n := |actions| - 1;
      StrayCount(c, actions[..n]) + if Strays(Run(c, actions[..n]), actions[n]) then 1 else 0
  }

  /** The flag as it would be without the Stop calls. */
  predicate LoopsFlag(v: Vitals) {
    v.healthy || v.cleared
  }

  /** What the loop wrote last, as far as its place and the ticks tell. */
  predicate Expected(loop: Loop, history: seq<Mark>) {
    match loop
    case Gauging(ok, _, _) => ok
    case Reviving => true
    case Reporting(_, replaced) => replaced || !LastFailed(history)
    case Flagging(_, replaced) => replaced || !LastFailed(history)
    case _ => !LastFailed(history)
  }

  /** One recovery is on its way to its counter. */
  predicate Pending(loop: Loop) {
    loop.Gauging? && loop.ok && loop.counts
  }

  /** The tick under way is about to come back from a failure. */
  predicate ComingBack(loop: Loop, history: seq<Mark>) {
    loop.Gauging? && loop.ok && !loop.replaced && LastFailed(history)
  }

  function One(b: bool): nat {
    if b then 1 else 0
  }

  predicate Tally(c: Component, strays: nat) {
    var v := c.vitals;
    && v.errors == Failures(v.history)
    && v.recoveries + One(Pending(c.loop)) == Comebacks(v.history) + One(ComingBack(c.loop, v.history)) + strays
    && (v.cleared ==> !v.healthy)
    && (!c.loop.Off? ==> LoopsFlag(v) == Expected(c.loop, v.history))
    && (c.loop.Reporting? && c.loop.replaced ==> c.loop.ok)
    && (c.loop.Flagging? && c.loop.replaced ==> c.loop.ok)
  }

  /** The step belongs to a Stop call. */
  predicate OfStop(a: Action) {
    || a.StopBegin? || a.StopCancel? || a.StopExpire? || a.StopTake? || a.StopUnflag? || a.StopUngauge?
    || a.StopDeregister?
  }

  lemma StartTally(c: Component, a: Action, strays: nat)
    requires Tally(c, strays) && a.Start?
    ensures Tally(Step(c, a), strays)
  {
    Appended(c.vitals.history, Began);
    hide Failures, Comebacks, Stamped;
  }

  lemma GaugeTally(c: Component, strays: nat)
    requires Tally(c, strays)
    ensures Tally(Gauged(c), strays)
  {
    hide Failures, Comebacks, LastFailed;
    if c.loop.Gauging? {
      Appended(c.vitals.history, MarkOf(c.loop.ok, c.loop.replaced));
    }
  }

  lemma FlagTally(c: Component, strays: nat)
    requires Tally(c, strays)
    ensures Tally(Flagged(c), strays + One(Strays(c, Flag)))
  {
    hide Failures, Comebacks, LastFailed;
  }

  lemma LoopTally(c: Component, a: Action, strays: nat)
    requires Tally(c, strays)
    requires a.Wake? || a.Begin? || a.Answer? || a.Register? || a.Install? || a.Heal? || a.Revive? || a.Report?
    ensures Tally(Step(c, a), strays)
  {
    hide Failures, Comebacks, LastFailed, Stamped;
  }

  lemma StopTally(c: Component, a: Action, strays: nat)
    requires Tally(c, strays)
    requires OfStop(a)
    ensures Tally(Step(c, a), strays)
  {
    hide Failures, Comebacks, LastFailed, CanTake;
  }

  lemma StepTally(c: Component, a: Action, strays: nat)
    requires Tally(c, strays)
    ensures Tally(Step(c, a), strays + One(Strays(c, a)))
  {
    hide Tally, Gauged, Flagged;
    match a
    case Start(_, _, _) => StartTally(c, a, strays);
    case Flag => FlagTally(c, strays);
    case Gauge => GaugeTally(c, strays);
    case Wake => LoopTally(c, a, strays);
    case Begin => LoopTally(c, a, strays);
    case Answer(_, _) => LoopTally(c, a, strays);
    case Register(_) => LoopTally(c, a, strays);
    case Install => LoopTally(c, a, strays);
    case Heal => LoopTally(c, a, strays);
    case Revive => LoopTally(c, a, strays);
    case Report => LoopTally(c, a, strays);
    case _ => StopTally(c, a, strays);
  }

  lemma {:induction false} RunTally(c: Component, actions: seq<Action>)
    requires Tally(c, 0)
    ensures Tally(Run(c, actions), StrayCount(c, actions))
  {
    hide Tally, Step, Strays;
    if actions != [] {
      var n := |actions| - 1;
      RunTally(c, actions[..n]);
      StepTally(Run(c, actions[..n]), actions[n], StrayCount(c, actions[..n]));
    }
  }

  // ---------------------------------------------------------------- where strays come from

  /** The Stop turns off a flag that is on. */
  predicate Clears(c: Component, a: Action) {
    a.StopUnflag? && a.id in c.stops && c.stops[a.id].Took? && c.vitals.healthy
  }

  /** The loop, or Start, writes the flag. */
  predicate WritesFlag(c: Component, a: Action) {
    || (a.Flag? && c.loop.Flagging?) || (a.Heal? && c.loop.Healing?)
    || (Starts(c, a) && a.reply.Accepted?)
  }

  /** A Stop turned the flag off at step i, and nobody wrote it since. */
  predicate ClearedAt(c: Component, actions: seq<Action>, i: nat) {
    && i < |actions| && Clears(Run(c, actions[..i]), actions[i])
    && forall j | i < j < |actions| :: !WritesFlag(Run(c, actions[..j]), actions[j])
  }

  lemma StopCleared(c: Component, a: Action)
    requires (c.vitals.cleared ==> !c.vitals.healthy) && OfStop(a)
    ensures Step(c, a).vitals.cleared <==> Clears(c, a) || c.vitals.cleared
  {
    hide CanTake;
  }

  lemma MarkCleared(c: Component, a: Action)
    requires a.Start? || a.Heal? || a.Revive? || a.Flag? || a.Gauge?
    ensures Step(c, a).vitals.cleared <==> c.vitals.cleared && !WritesFlag(c, a)
  {
    hide Stamped, MarkOf;
  }

  lemma PlainCleared(c: Component, a: Action)
    requires a.Wake? || a.Begin? || a.Answer? || a.Register? || a.Install? || a.Report?
    ensures Step(c, a).vitals == c.vitals && !WritesFlag(c, a)
  {
    hide Stamped;
  }

  lemma LoopCleared(c: Component, a: Action)
    requires !OfStop(a)
    ensures Step(c, a).vitals.cleared <==> c.vitals.cleared && !WritesFlag(c, a)
  {
    hide Step, WritesFlag;
    if a.Start? || a.Heal? || a.Revive? || a.Flag? || a.Gauge? {
      MarkCleared(c, a);
    } else {
      PlainCleared(c, a);
    }
  }

  lemma StepCleared(c: Component, a: Action)
    requires c.vitals.cleared ==> !c.vitals.healthy
    ensures Step(c, a).vitals.cleared <==> Clears(c, a) || (c.vitals.cleared && !WritesFlag(c, a))
  {
    hide Step;
    if OfStop(a) {
      StopCleared(c, a);
    } else {
      LoopCleared(c, a);
    }
  }

  /** `cleared` says just that. */
  lemma {:induction false} ClearedMeans(c: Component, actions: seq<Action>)
    requires Tally(c, 0) && !c.vitals.cleared
    ensures Run(c, actions).vitals.cleared <==> exists i: nat :: ClearedAt(c, actions, i)
  {
    hide Tally, Step, Clears, WritesFlag;
    if actions != [] {
      var n := |actions| - 1;
      ClearedMeans(c, actions[..n]);
      RunTally(c, actions[..n]);
      var prior := Run(c, actions[..n]);
      assert prior.vitals.cleared ==> !prior.vitals.healthy by { TallyFlag(prior, StrayCount(c, actions[..n])); }
      StepCleared(prior, actions[n]);
      if i: nat :| ClearedAt(c, actions[..n], i) && !WritesFlag(prior, actions[n]) {
        ClearedLater(c, actions, i);
      }
      if Clears(prior, actions[n]) {
        assert ClearedAt(c, actions, n);
      }
      if i: nat :| ClearedAt(c, actions, i) {
        ClearedEarlier(c, actions, i);
      }
    }
  }

  lemma TallyFlag(c: Component, strays: nat)
    requires Tally(c, strays)
    ensures c.vitals.cleared ==> !c.vitals.healthy
  {
  }

  lemma ClearedLater(c: Component, actions: seq<Action>, i: nat)
    requires actions != [] && ClearedAt(c, actions[..|actions| - 1], i)
    requires !WritesFlag(Run(c, actions[..|actions| - 1]), actions[|actions| - 1])
    ensures ClearedAt(c, actions, i)
  {
    hide Run, Clears, WritesFlag;
    var init := actions[..|actions| - 1];
    assert forall j | 0 <= j <= |init| :: init[..j] == actions[..j];
  }

  lemma ClearedEarlier(c: Component, actions: seq<Action>, i: nat)
    requires ClearedAt(c, actions, i)
    ensures
      var n := |actions| - 1;
      if i == n then Clears(Run(c, actions[..n]), actions[n])
      else ClearedAt(c, actions[..n], i) && !WritesFlag(Run(c, actions[..n]), actions[n])
  {
    hide Run, Clears, WritesFlag;
    var init := actions[..|actions| - 1];
    assert forall j | 0 <= j <= |init| :: init[..j] == actions[..j];
  }

  /** At step k the loop marks a recovery on a flag that a Stop turned off behind its back. */
  ghost predicate MarkedAfterClear(c: Component, actions: seq<Action>, k: nat) {
    && k < |actions| && actions[k].Flag?
    && Run(c, actions[..k]).loop.Flagging? && Run(c, actions[..k]).loop.ok
    && exists i: nat :: ClearedAt(c, actions[..k], i)
  }

  lemma {:induction false} StraysMean(c: Component, actions: seq<Action>)
    requires Tally(c, 0) && !c.vitals.cleared
    ensures StrayCount(c, actions) > 0 <==> exists k: nat :: MarkedAfterClear(c, actions, k)
  {
    hide Tally, Step, Run, ClearedAt;
    if actions != [] {
      var n := |actions| - 1;
      var init := actions[..n];
      StraysMean(c, init);
      ClearedMeans(c, init);
      assert forall j | 0 <= j <= n :: init[..j] == actions[..j];
      if k: nat :| MarkedAfterClear(c, init, k) {
        assert MarkedAfterClear(c, actions, k);
      }
      if Strays(Run(c, init), actions[n]) {
        assert MarkedAfterClear(c, actions, n);
      }
      if k: nat :| MarkedAfterClear(c, actions, k) {
        assert k < n ==> MarkedAfterClear(c, init, k);
      }
    }
  }

  lemma NewTally(generation: string, dynamic: bool, instance: ServiceInstance)
    ensures
      var c := New(generation, dynamic, instance);
      Tally(c, 0) && !c.vitals.cleared && c.loop.Off? && c.stops == map[]
  {
  }

  /**
   Recovery accounting, over every run: errors counts exactly the failed ticks, and, whenever no
   recovery is on its way to its counter, recoveries counts exactly the renewals that directly follow
   a failed tick if and only if the loop never marked a recovery on a flag that a Stop had turned off
   behind its back. Each such mark adds one.
   */
  lemma RecoveryAccounting(generation: string, dynamic: bool, instance: ServiceInstance, actions: seq<Action>)
    requires !Run(New(generation, dynamic, instance), actions).loop.Gauging?
    ensures
      var c := New(generation, dynamic, instance);
      var v := Run(c, actions).vitals;
      && v.errors == Failures(v.history)
      && v.recoveries == Comebacks(v.history) + StrayCount(c, actions)
      && (v.recoveries == Comebacks(v.history) <==> !exists k: nat :: MarkedAfterClear(c, actions, k))
      && v.recoveries <= v.errors + StrayCount(c, actions)
  {
    var c := New(generation, dynamic, instance);
    NewTally(generation, dynamic, instance);
    hide Run, StrayCount, New, MarkedAfterClear;
    RunTally(c, actions);
    StraysMean(c, actions);
    ComebacksBounded(Run(c, actions).vitals.history);
  }

  // ---------------------------------------------------------------- the guard: a Stop that does not wait

  /** A Stop begins that will not wait for a loop which is still there. */
  predicate Skips(c: Component, a: Action) {
    a.StopBegin? && a.id !in c.stops && !c.handles && !c.loop.Off?
  }

  predicate NoSkips(c: Component, actions: seq<Action>) {
    forall k | 0 <= k < |actions| :: !Skips(Run(c, actions[..k]), actions[k])
  }

  /** While the loop is there, every Stop is still waiting for it, and the flag is the loop's. */
  predicate Patient(c: Component) {
    !c.loop.Off? ==>
      && (forall id | id in c.stops :: c.stops[id].Cancelling? || c.stops[id].Waiting?)
      && !c.vitals.cleared
  }

  lemma PatientKeeps(c: Component, a: Action)
    requires Patient(c) && !Skips(c, a) && (c.handles ==> !c.loop.Off?)
    ensures Patient(Step(c, a)) && !Strays(c, a)
  {
    hide Stamped, MarkOf;
  }

  lemma {:induction false} PatientRun(c: Component, actions: seq<Action>)
    requires Inv(c) && Patient(c) && NoSkips(c, actions)
    ensures Patient(Run(c, actions)) && StrayCount(c, actions) == 0
  {
    hide Patient, Step, Inv, Skips, Strays;
    if actions != [] {
      var n := |actions| - 1;
      var init := actions[..n];
      assert forall k | 0 <= k <= n :: init[..k] == actions[..k];
      PatientRun(c, init);
      RunKeeps(c, init);
      HandlesLoop(Run(c, init));
      PatientKeeps(Run(c, init), actions[n]);
    }
  }

  lemma HandlesLoop(c: Component)
    requires Inv(c)
    ensures c.handles ==> !c.loop.Off?
  {
  }

  /** As long as every Stop waits for a loop that is there, the counters are what the ticks say. */
  lemma WaitingStopsCount(generation: string, dynamic: bool, instance: ServiceInstance, actions: seq<Action>)
    requires NoSkips(New(generation, dynamic, instance), actions)
    requires !Run(New(generation, dynamic, instance), actions).loop.Gauging?
    ensures
      var v := Run(New(generation, dynamic, instance), actions).vitals;
      v.errors == Failures(v.history) && v.recoveries == Comebacks(v.history) && v.recoveries <= v.errors
  {
    hide Run, StrayCount, NoSkips, Inv, Patient, New, MarkedAfterClear;
    var c := New(generation, dynamic, instance);
    NewInv(generation, dynamic, instance);
    NewPatient(generation, dynamic, instance);
    PatientRun(c, actions);
    RecoveryAccounting(generation, dynamic, instance, actions);
  }

  lemma NewPatient(generation: string, dynamic: bool, instance: ServiceInstance)
    ensures Patient(New(generation, dynamic, instance))
  {
  }

  // ---------------------------------------------------------------- a cancelled loop

  /** Cancelled, and not in the middle of reporting a tick. */
  predicate Silenced(c: Component) {
    c.cancelled && !c.loop.Flagging? && !c.loop.Gauging?
  }

  lemma SilencedKeeps(c: Component, a: Action)
    requires Silenced(c) && !a.Start?
    ensures Silenced(Step(c, a))
    ensures
      var v, w := c.vitals, Step(c, a).vitals;
      w.history == v.history && w.errors == v.errors && w.recoveries == v.recoveries
  {
    hide Stamped, CanTake;
  }

  /** A cancelled loop reports no tick any more, however the renewal that it is in ends. */
  lemma {:induction false} CancelledStaysSilent(c: Component, more: seq<Action>)
    requires Silenced(c) && NoStart(more)
    ensures Silenced(Run(c, more))
    ensures
      var v, w := c.vitals, Run(c, more).vitals;
      w.history == v.history && w.errors == v.errors && w.recoveries == v.recoveries
  {
    hide Step, Silenced;
    if more != [] {
      var n := |more| - 1;
      CancelledStaysSilent(c, more[..n]);
      SilencedKeeps(Run(c, more[..n]), more[n]);
    }
  }

  // ---------------------------------------------------------------- the gauge

  /** The loop has written the flag and not yet the gauge. */
  predicate LoopMarking(c: Component) {
    c.loop.Gauging? || c.loop.Reviving?
  }

  predicate LoopMarksOn(c: Component) {
    c.loop.Reviving? || (c.loop.Gauging? && c.loop.ok)
  }

  /** A Stop has written the flag and not yet the gauge. */
  predicate StopMarking(stops: map<StopId, StopPhase>) {
    exists id | id in stops :: stops[id].Unflagged?
  }

  /** The loop is turning both on while a Stop is turning both off. */
  predicate Crossing(c: Component) {
    LoopMarksOn(c) && StopMarking(c.stops)
  }

  predicate Settled(c: Component) {
    !LoopMarking(c) && !StopMarking(c.stops)
  }

  /** The gauge shows the flag, or will once the writer under way is through. */
  predicate GaugeOk(c: Component) {
    if Crossing(c) then true
    else if StopMarking(c.stops) then !c.vitals.healthy
    else if LoopMarking(c) then c.vitals.healthy == LoopMarksOn(c)
    else c.vitals.gauge == c.vitals.healthy
  }

  /** No Stop and the loop mark against each other before the last step. */
  predicate NeverCrossed(c: Component, actions: seq<Action>) {
    forall k | 0 <= k < |actions| :: !Crossing(Run(c, actions[..k]))
  }

  lemma MarkingMoves(stops: map<StopId, StopPhase>, id: StopId, phase: StopPhase)
    ensures phase.Unflagged? ==> StopMarking(stops[id := phase])
    ensures StopMarking(stops[id := phase]) && !phase.Unflagged? ==> StopMarking(stops)
    ensures StopMarking(stops - {id}) ==> StopMarking(stops)
    ensures StopMarking(stops) && (id in stops ==> !stops[id].Unflagged?) ==>
        StopMarking(stops[id := phase]) && StopMarking(stops - {id})
  {
    var next, less := stops[id := phase], stops - {id};
    if phase.Unflagged? {
      assert next[id].Unflagged?;
    }
    if other :| other in stops && other != id && stops[other].Unflagged? {
      assert next[other].Unflagged? && less[other].Unflagged?;
    }
    if other :| other in next && other != id && next[other].Unflagged? {
      assert stops[other].Unflagged?;
    }
    if other :| other in less && less[other].Unflagged? {
      assert stops[other].Unflagged?;
    }
  }

  lemma UnflagGauge(c: Component, id: StopId)
    requires GaugeOk(c) && !Crossing(c)
    ensures GaugeOk(StopUnflagged(c, id))
  {
    hide StopMarking;
    if id in c.stops && c.stops[id].Took? {
      MarkingMoves(c.stops, id, Unflagged(c.stops[id].registration));
    }
  }

  lemma UngaugeGauge(c: Component, id: StopId)
    requires GaugeOk(c) && !Crossing(c)
    ensures GaugeOk(StopUngauged(c, id))
  {
    if id in c.stops && c.stops[id].Unflagged? {
      assert StopMarking(c.stops);
      hide StopMarking;
      MarkingMoves(c.stops, id, Ungauged(c.stops[id].registration));
    }
  }

  /** The other steps of Stop are about neither flag nor gauge. */
  lemma OtherStops(c: Component, a: Action)
    requires OfStop(a) && !a.StopUnflag? && !a.StopUngauge?
    ensures
      var after := Step(c, a);
      after.loop == c.loop && after.vitals == c.vitals && (StopMarking(after.stops) <==> StopMarking(c.stops))
  {
    hide StopMarking;
    var after := Step(c, a);
    if after.stops != c.stops {
      if a.id in after.stops {
        assert after.stops == c.stops[a.id := after.stops[a.id]];
        MarkingMoves(c.stops, a.id, after.stops[a.id]);
      } else {
        assert after.stops == c.stops - {a.id};
        MarkingMoves(c.stops, a.id, Skipping);
      }
    }
  }

  lemma StopGauge(c: Component, a: Action)
    requires GaugeOk(c) && !Crossing(c) && OfStop(a)
    ensures GaugeOk(Step(c, a))
  {
    if a.StopUnflag? {
      UnflagGauge(c, a.id);
    } else if a.StopUngauge? {
      UngaugeGauge(c, a.id);
    } else {
      hide Step, StopMarking;
      OtherStops(c, a);
    }
  }

  lemma LoopGauge(c: Component, a: Action)
    requires GaugeOk(c) && !Crossing(c) && !OfStop(a)
    ensures GaugeOk(Step(c, a))
  {
    hide StopMarking, Stamped, MarkOf;
    if a.Start? && c.stops == map[] {
      NobodyMarks();
    }
  }

  lemma NobodyMarks()
    ensures !StopMarking(map[])
  {
  }

  lemma {:induction false} RunGauge(c: Component, actions: seq<Action>)
    requires GaugeOk(c) && NeverCrossed(c, actions)
    ensures GaugeOk(Run(c, actions))
  {
    hide GaugeOk, Crossing, Step;
    if actions != [] {
      var n := |actions| - 1;
      var init := actions[..n];
      assert forall k | 0 <= k <= n :: init[..k] == actions[..k];
      RunGauge(c, init);
      if OfStop(actions[n]) {
        StopGauge(Run(c, init), actions[n]);
      } else {
        LoopGauge(Run(c, init), actions[n]);
      }
    }
  }

  /** Only writes of the gauge that are already under way. */
  predicate Finishing(more: seq<Action>) {
    forall i | 0 <= i < |more| :: more[i].Gauge? || more[i].Revive? || more[i].StopUngauge?
  }

  /** However the writers under way are scheduled, the gauge ends up showing the flag. */
  ghost predicate GaugeSettles(c: Component) {
    forall more | Finishing(more) && Settled(Run(c, more)) :: Run(c, more).vitals.gauge == Run(c, more).vitals.healthy
  }

  /** A writer under way has lost the flag to another one and is about to write the gauge. */
  predicate Overwritten(c: Component) {
    || (LoopMarking(c) && LoopMarksOn(c) != c.vitals.healthy)
    || (StopMarking(c.stops) && c.vitals.healthy)
  }

  /** The writes under way are of what the flag shows, and without any the gauge shows it already. */
  predicate InStep(c: Component) {
    !Overwritten(c) && (Settled(c) ==> c.vitals.gauge == c.vitals.healthy)
  }

  lemma FinishingInStep(c: Component, a: Action)
    requires InStep(c) && (a.Gauge? || a.Revive? || a.StopUngauge?)
    ensures InStep(Step(c, a))
  {
    if a.StopUngauge? && a.id in c.stops && c.stops[a.id].Unflagged? {
      var ungauged := Ungauged(c.stops[a.id].registration);
      assert StopMarking(c.stops);
      hide StopMarking;
      MarkingMoves(c.stops, a.id, ungauged);
    }
  }

  lemma {:induction false} FinishingRun(c: Component, more: seq<Action>)
    requires InStep(c) && Finishing(more)
    ensures InStep(Run(c, more))
  {
    if more != [] {
      hide Step, InStep;
      var n := |more| - 1;
      FinishingRun(c, more[..n]);
      FinishingInStep(Run(c, more[..n]), more[n]);
    }
  }

  /** All Stop calls that are marking write their gauge. */
  lemma {:induction false} StopsFinish(c: Component, ids: set<StopId>) returns (more: seq<Action>)
    requires forall id | id in c.stops && c.stops[id].Unflagged? :: id in ids
    ensures Finishing(more)
    ensures
      var after := Run(c, more);
      && !StopMarking(after.stops) && after.loop == c.loop && after.vitals.healthy == c.vitals.healthy
      && after.vitals.gauge == (c.vitals.gauge && !StopMarking(c.stops))
    decreases ids
  {
    if ids == {} {
      more := [];
    } else {
      var id :| id in ids;
      var next := Step(c, StopUngauge(id));
      var rest := StopsFinish(next, ids - {id});
      more := [StopUngauge(id)] + rest;
      RunConcat(c, [StopUngauge(id)], rest);
      RunOne(c, StopUngauge(id));
      if StopMarking(next.stops) {
        var other :| other in next.stops && next.stops[other].Unflagged?;
        assert c.stops[other].Unflagged?;
      }
    }
  }

  /** The writer that lost the flag may come last. */
  lemma OverwrittenDiverges(c: Component) returns (more: seq<Action>)
    requires Overwritten(c)
    ensures Finishing(more) && Settled(Run(c, more)) && Run(c, more).vitals.gauge != Run(c, more).vitals.healthy
  {
    hide Run;
    var own := if c.loop.Reviving? then Revive else Gauge;
    if !LoopMarking(c) {
      more := StopsFinish(c, c.stops.Keys);
    } else if c.vitals.healthy && StopMarking(c.stops) {
      var rest := StopsFinish(Step(c, own), c.stops.Keys);
      more := [own] + rest;
      RunOne(c, own);
      RunConcat(c, [own], rest);
    } else {
      var first := StopsFinish(c, c.stops.Keys);
      more := first + [own];
      RunThen(c, first, own);
    }
  }

  /** The state alone decides whether the gauge will show the flag. */
  lemma SettlesInStep(c: Component)
    ensures GaugeSettles(c) <==> InStep(c)
  {
    hide Run;
    if InStep(c) {
      forall more | Finishing(more) && Settled(Run(c, more))
        ensures Run(c, more).vitals.gauge == Run(c, more).vitals.healthy
      {
        FinishingRun(c, more);
      }
    } else if Overwritten(c) {
      var more := OverwrittenDiverges(c);
    } else {
      RunNothing(c);
      assert Finishing([]);
    }
  }

  lemma RunNothing(c: Component)
    ensures Run(c, []) == c
  {
  }

  // ---------------------------------------------------------------- lost races

  /** The step writes the gauge at the end of a mark. */
  predicate WritesGauge(c: Component, a: Action) {
    || (a.Gauge? && c.loop.Gauging?)
    || (a.Revive? && c.loop.Reviving?)
    || (a.StopUngauge? && a.id in c.stops && c.stops[a.id].Unflagged?)
  }

  /** The step writes the flag at the beginning of a mark, or both at the end of Start. */
  predicate BeginsMark(c: Component, a: Action) {
    WritesFlag(c, a) || (a.StopUnflag? && a.id in c.stops && c.stops[a.id].Took?)
  }

  /** At step i a writer completes its mark after another one has turned the flag the other way. */
  predicate LosesRace(c: Component, actions: seq<Action>, i: nat) {
    && i < |actions| && WritesGauge(Run(c, actions[..i]), actions[i])
    && Step(Run(c, actions[..i]), actions[i]).vitals.gauge != Run(c, actions[..i]).vitals.healthy
  }

  /** A race is lost at step i and nobody has marked anything since. */
  ghost predicate RaceLost(c: Component, actions: seq<Action>, i: nat) {
    && LosesRace(c, actions, i)
    && forall j | i < j < |actions| ::
         !WritesGauge(Run(c, actions[..j]), actions[j]) && !BeginsMark(Run(c, actions[..j]), actions[j])
  }

  lemma BeginningUnsettles(c: Component, a: Action)
    requires BeginsMark(c, a)
    ensures if a.Start? then Step(c, a).vitals.gauge == Step(c, a).vitals.healthy else !Settled(Step(c, a))
  {
    hide Stamped;
    if a.StopUnflag? {
      MarkingMoves(c.stops, a.id, Unflagged(c.stops[a.id].registration));
    }
  }

  lemma OtherStepsStay(c: Component, a: Action)
    requires !BeginsMark(c, a) && !WritesGauge(c, a)
    ensures
      var after := Step(c, a);
      && after.vitals.gauge == c.vitals.gauge && after.vitals.healthy == c.vitals.healthy
      && (Settled(after) <==> Settled(c))
  {
    if OfStop(a) && !a.StopUnflag? && !a.StopUngauge? {
      hide Step, StopMarking, BeginsMark, WritesGauge;
      OtherStops(c, a);
    } else {
      hide StopMarking, Stamped, CountTick, SetFlag, ClearFlag;
    }
  }

  lemma GaugeKeepsFlag(c: Component, a: Action)
    requires WritesGauge(c, a)
    ensures Step(c, a).vitals.healthy == c.vitals.healthy && !BeginsMark(c, a)
  {
  }

  lemma RaceLater(c: Component, actions: seq<Action>, i: nat)
    requires actions != [] && RaceLost(c, actions[..|actions| - 1], i)
    requires
      var prior := Run(c, actions[..|actions| - 1]);
      !WritesGauge(prior, actions[|actions| - 1]) && !BeginsMark(prior, actions[|actions| - 1])
    ensures RaceLost(c, actions, i)
  {
    hide Run, Step, WritesGauge, BeginsMark;
    var init := actions[..|actions| - 1];
    assert forall j | 0 <= j <= |init| :: init[..j] == actions[..j];
  }

  lemma RaceEarlier(c: Component, actions: seq<Action>, i: nat)
    requires RaceLost(c, actions, i)
    ensures
      var n := |actions| - 1;
      if i == n then LosesRace(c, actions, n)
      else
        && RaceLost(c, actions[..n], i)
        && !WritesGauge(Run(c, actions[..n]), actions[n]) && !BeginsMark(Run(c, actions[..n]), actions[n])
  {
    hide Run, Step, WritesGauge, BeginsMark;
    var init := actions[..|actions| - 1];
    assert forall j | 0 <= j <= |init| :: init[..j] == actions[..j];
  }

  /** With no writer under way, flag and gauge differ exactly when the last mark lost its race. */
  lemma {:induction false} RacesDecide(c: Component, actions: seq<Action>)
    requires c.vitals.gauge == c.vitals.healthy && Settled(c)
    ensures
      var after := Run(c, actions);
      Settled(after) ==> (after.vitals.gauge != after.vitals.healthy <==> exists i: nat :: RaceLost(c, actions, i))
  {
    if actions != [] {
      hide Step, WritesGauge, BeginsMark, RaceLost, Settled;
      var n := |actions| - 1;
      var prior := Run(c, actions[..n]);
      if WritesGauge(prior, actions[n]) {
        GaugeKeepsFlag(prior, actions[n]);
        LastRace(c, actions);
      } else if BeginsMark(prior, actions[n]) {
        BeginningUnsettles(prior, actions[n]);
        LastRace(c, actions);
        if !actions[n].Start? {
          assert !Settled(Run(c, actions));
        }
      } else {
        RacesDecide(c, actions[..n]);
        OtherStepsStay(prior, actions[n]);
        if i: nat :| RaceLost(c, actions[..n], i) {
          RaceLater(c, actions, i);
        }
        if i: nat :| RaceLost(c, actions, i) {
          RaceEarlier(c, actions, i);
          LastRace(c, actions);
        }
      }
    }
  }

  /** When the last step marks, only it can be the lost race. */
  lemma LastRace(c: Component, actions: seq<Action>)
    requires actions != []
    ensures
      var n := |actions| - 1;
      var prior := Run(c, actions[..n]);
      && (LosesRace(c, actions, n)
          <==> WritesGauge(prior, actions[n]) && Step(prior, actions[n]).vitals.gauge != prior.vitals.healthy)
      && (WritesGauge(prior, actions[n]) || BeginsMark(prior, actions[n]) ==>
            ((exists i: nat :: RaceLost(c, actions, i)) <==> LosesRace(c, actions, n)))
  {
    hide Run, Step, WritesGauge, BeginsMark;
    var n := |actions| - 1;
    if LosesRace(c, actions, n) {
      assert RaceLost(c, actions, n);
    }
    if i: nat :| RaceLost(c, actions, i) {
      RaceEarlier(c, actions, i);
    }
  }

  /**
   The gauge, over every run: it ends up showing the flag, however the writes under way are
   scheduled, if and only if no writer under way has lost the flag to another one and, when none is
   under way, the last mark did not complete after losing it. A mark that goes through later makes
   up for what was lost before.
   */
  lemma GaugeExact(generation: string, dynamic: bool, instance: ServiceInstance, actions: seq<Action>)
    ensures
      var n := New(generation, dynamic, instance);
      var c := Run(n, actions);
      && (GaugeSettles(c) <==> !Overwritten(c) && !(Settled(c) && exists i: nat :: RaceLost(n, actions, i)))
      && (Settled(c) ==> (c.vitals.gauge == c.vitals.healthy <==> !exists i: nat :: RaceLost(n, actions, i)))
  {
    hide Run, RaceLost, Overwritten, GaugeSettles;
    var n := New(generation, dynamic, instance);
    NobodyMarks();
    assert n.vitals.gauge == n.vitals.healthy && Settled(n);
    hide Settled;
    RacesDecide(n, actions);
    SettlesInStep(Run(n, actions));
  }

  /**
   As long as loop and Stop have not marked against each other, that comes down to whether the loop
   is turning both on while a Stop is turning both off.
   */
  lemma UncrossedGauge(generation: string, dynamic: bool, instance: ServiceInstance, actions: seq<Action>)
    requires NeverCrossed(New(generation, dynamic, instance), actions)
    ensures
      var c := Run(New(generation, dynamic, instance), actions);
      && (GaugeSettles(c) <==> !Crossing(c))
      && (Settled(c) ==> c.vitals.gauge == c.vitals.healthy)
  {
    hide Run;
    var n := New(generation, dynamic, instance);
    NobodyMarks();
    assert GaugeOk(n);
    RunGauge(n, actions);
    SettlesInStep(Run(n, actions));
  }

  lemma PatientNeverCrosses(c: Component)
    requires Patient(c)
    ensures !Crossing(c)
  {
  }

  /** Stop calls that wait for the loop never mark against it, so the gauge shows the flag. */
  lemma {:induction false} WaitingStopsNeverCross(c: Component, actions: seq<Action>)
    requires Inv(c) && Patient(c) && NoSkips(c, actions)
    ensures NeverCrossed(c, actions)
  {
    hide Patient, Step, Inv, Skips, Crossing;
    forall k | 0 <= k < |actions| ensures !Crossing(Run(c, actions[..k])) {
      var init := actions[..k];
      assert forall j | 0 <= j <= k :: init[..j] == actions[..j];
      PatientRun(c, init);
      PatientNeverCrosses(Run(c, init));
    }
  }

  // ---------------------------------------------------------------- where it goes wrong

  /** The loop has heard that its renewal went well, and looked at its context. */
  function RenewalHeard(now: Now): seq<Action> {
    [Answer(Fine, now), Report]
  }

  lemma Hears(c: Component, now: Now)
    requires c.loop.Renewing? && !c.cancelled
    ensures Run(c, RenewalHeard(now)) == c.(loop := Flagging(true, false))
  {
    hide Run;
    RunOne(c, Answer(Fine, now));
    RunThen(c, [Answer(Fine, now)], Report);
    assert [Answer(Fine, now)] + [Report] == RenewalHeard(now);
  }

  /** The loop passed its look at the context; then one Stop gave up waiting. */
  lemma LoopLeftMarking(instance: ServiceInstance, now: Now)
    ensures
      var heard := Run(Run(New("", false, instance), RenewalUnderWay(now)), RenewalHeard(now));
      var stopped := Run(heard, FirstStop());
      && stopped.loop == Flagging(true, false) && !stopped.handles && stopped.stops == map[]
      && stopped.registration == Some(0) && stopped.cancelled
      && stopped.vitals == Vitals(true, true, 0, 0, 0, false, [Began])
      && heard.handles && heard.loop == Flagging(true, false) && heard.stops == map[]
      && heard.registration == Some(0) && !heard.cancelled && heard.vitals == stopped.vitals
  {
    hide Run;
    var c := New("", false, instance);
    StartsRenewing(c, now);
    Hears(Run(c, RenewalUnderWay(now)), now);
    TimesOut(Run(Run(c, RenewalUnderWay(now)), RenewalHeard(now)));
    assert [] + [Began] == [Began];
  }

  /**
   Even with one Stop after the other: the first gives up waiting, the second takes the registration
   and turns the flag off, and the loop then counts a recovery although nothing ever failed.
   */
  lemma SerialStopsMiscount(instance: ServiceInstance, now: Now)
    ensures
      var heard := Run(Run(New("", false, instance), RenewalUnderWay(now)), RenewalHeard(now));
      var taken := Run(Run(heard, FirstStop()), [StopBegin(1), StopTake(1), StopUnflag(1)]);
      var stopped := StopDeregistered(StopUngauged(taken, 1), 1, true);
      var v := Gauged(Flagged(stopped)).vitals;
      && Run(heard, FirstStop()).stops == map[] && stopped.stops == map[]
      && v.recoveries == 1 && v.errors == 0
  {
    hide Run, StopUngauged, StopDeregistered;
    LoopLeftMarking(instance, now);
    var heard := Run(Run(New("", false, instance), RenewalUnderWay(now)), RenewalHeard(now));
    var stopped := Run(heard, FirstStop());
    TakesAtOnce(stopped, 0);
    Returns(Run(stopped, [StopBegin(1), StopTake(1), StopUnflag(1)]), 1, 0, true);
  }

  /**
   The same two Stops around the loop's own writes: the component ends up stopped with the flag off
   and the gauge on, and nobody is left to correct it.
   */
  lemma GaugeStuck(instance: ServiceInstance, now: Now)
    ensures
      var heard := Run(Run(New("", false, instance), RenewalUnderWay(now)), RenewalHeard(now));
      var marking := Flagged(Run(heard, FirstStop()));
      var taken := Run(marking, [StopBegin(1), StopTake(1), StopUnflag(1)]);
      var stopped := StopDeregistered(StopUngauged(taken, 1), 1, true);
      var over := Waking(Gauged(stopped));
      && AllOver(over) && over.vitals.gauge && !over.vitals.healthy
  {
    hide Run, StopUngauged, StopDeregistered;
    LoopLeftMarking(instance, now);
    var heard := Run(Run(New("", false, instance), RenewalUnderWay(now)), RenewalHeard(now));
    var marking := Flagged(Run(heard, FirstStop()));
    TakesAtOnce(marking, 0);
    Returns(Run(marking, [StopBegin(1), StopTake(1), StopUnflag(1)]), 1, 0, true);
  }
}
