/**
 The gRPC connection cache: Conn dials each service at most once at a time and shares the outcome.
 Goroutines interleave between its two critical sections, so those sections are the steps here.
 */
module ConnManager {
  import opened Wrappers

  type Service = string
  type ConnId = nat
  type CallId = nat

  datatype Outcome = Connected(conn: ConnId) | Refused(error: string)

  /** A dialCall: the dial is out, its outcome is known to the dialler, or it is published. */
  datatype Phase = Dialing | Dialed(outcome: Outcome) | Done(result: Outcome)

  datatype DialCall = DialCall(service: Service, phase: Phase)

  /** What the manager owns, plus which connections were ever opened and which are still open. */
  datatype Core = Core(
    closed: bool,
    conns: map<Service, ConnId>,
    dials: map<Service, CallId>,
    calls: seq<DialCall>,
    minted: nat,
    open: set<ConnId>)

  const INITIAL := Core(false, map[], map[], [], 0, {})

  const CLOSED := "grpc client manager is closed"

  datatype Admission = Rejected | Cached(conn: ConnId) | Waits(call: CallId) | Dials(call: CallId)

  // ---------------------------------------------------------------- the steps

  /** Conn's first critical section. */
  function Enter(c: Core, service: Service): (Core, Admission) {
    if c.closed then (c, Rejected)
    else if service in c.conns && c.conns[service] in c.open then (c, Cached(c.conns[service]))
    else
      var cleared := c.(conns := c.conns - {service});
      if service in c.dials then (cleared, Waits(c.dials[service]))
      else (cleared.(dials := c.dials[service := |c.calls|], calls := c.calls + [DialCall(service, Dialing)]),
            Dials(|c.calls|))
  }

  predicate InFlight(c: Core, call: CallId) {
    call < |c.calls| && !c.calls[call].phase.Done?
  }

  /** The dial itself, outside the lock: it opens a fresh connection or fails. */
  function Dial(c: Core, call: CallId, error: Option<string>): Core
    requires call < |c.calls|
  {
    match error
    case Some(e) => c.(calls := c.calls[call := c.calls[call].(phase := Dialed(Refused(e)))])
    case None =>
      c.(calls := c.calls[call := c.calls[call].(phase := Dialed(Connected(c.minted)))],
         minted := c.minted + 1, open := c.open + {c.minted})
  }

  /** Conn's second critical section, run by the dialler. */
  function Finish(c: Core, call: CallId): Core
    requires call < |c.calls| && c.calls[call].phase.Dialed?
  {
    var service := c.calls[call].service;
    var outcome := c.calls[call].phase.outcome;
    var dials := if service in c.dials && c.dials[service] == call then c.dials - {service} else c.dials;
    if outcome.Refused? then
      c.(dials := dials, calls := c.calls[call := DialCall(service, Done(outcome))])
    else if service in c.conns && c.conns[service] in c.open then
      c.(dials := dials, open := c.open - {outcome.conn},
         calls := c.calls[call := DialCall(service, Done(Connected(c.conns[service])))])
    else if c.closed then
      c.(dials := dials, open := c.open - {outcome.conn},
         calls := c.calls[call := DialCall(service, Done(Refused(CLOSED)))])
    else
      c.(dials := dials, conns := c.conns[service := outcome.conn],
         calls := c.calls[call := DialCall(service, Done(outcome))])
  }

  function Close(c: Core): Core {
    c.(closed := true, conns := map[], open := c.open - c.conns.Values)
  }

  // ---------------------------------------------------------------- whole runs

  /** One invocation of Conn: its call, if it joined one, and how it ended. */
  datatype Thread =
    | Blocked(call: CallId, owner: bool)
    | Returned(result: Outcome, joined: Option<CallId>, expired: bool)

  datatype System = System(core: Core, threads: seq<Thread>)

  datatype Action =
    | EnterConn(service: Service)
    | DialReturns(call: CallId, error: Option<string>)
    | FinishConn(thread: nat)
    | Wake(thread: nat)
    | Expire(thread: nat)
    | CloseManager
    | ShutDown(conn: ConnId)

  /** Any goroutine may take the next step; an action that is not enabled changes nothing. */
  function Step(s: System, a: Action): System {
    match a
    case EnterConn(service) =>
      var (core, admission) := Enter(s.core, service);
      var thread := match admission
        case Rejected => Returned(Refused(CLOSED), None, false)
        case Cached(conn) => Returned(Connected(conn), None, false)
        case Waits(call) => Blocked(call, false)
        case Dials(call) => Blocked(call, true);
      System(core, s.threads + [thread])
    case DialReturns(call, error) =>
      if call < |s.core.calls| && s.core.calls[call].phase.Dialing? then s.(core := Dial(s.core, call, error)) else s
    case FinishConn(t) =>
      if !(t < |s.threads| && s.threads[t].Blocked? && s.threads[t].owner) then s
      else
        var call := s.threads[t].call;
        if !(call < |s.core.calls| && s.core.calls[call].phase.Dialed?) then s
        else
          var core := Finish(s.core, call);
          System(core, s.threads[t := Returned(core.calls[call].phase.result, Some(call), false)])
    case Wake(t) =>
      if !(t < |s.threads| && s.threads[t].Blocked? && !s.threads[t].owner) then s
      else
        var call := s.threads[t].call;
        if !(call < |s.core.calls| && s.core.calls[call].phase.Done?) then s
        else s.(threads := s.threads[t := Returned(s.core.calls[call].phase.result, Some(call), false)])
    case Expire(t) =>
      if !(t < |s.threads| && s.threads[t].Blocked? && !s.threads[t].owner) then s
      else s.(threads := s.threads[t := Returned(Refused("context"), Some(s.threads[t].call), true)])
    case CloseManager => s.(core := Close(s.core))
    case ShutDown(conn) => s.(core := s.core.(open := s.core.open - {conn}))
  }

  function Run(actions: seq<Action>): System {
    if actions == [] then System(INITIAL, [])
    else Step(Run(actions[..|actions| - 1]), actions[|actions| - 1])
  }

  // ---------------------------------------------------------------- the invariant

  /** The dial of a service is the one call in flight for it, and nothing is cached meanwhile. */
  ghost predicate SingleFlight(c: Core) {
    && (forall s | s in c.dials ::
          && InFlight(c, c.dials[s])
          && c.calls[c.dials[s]].service == s
          && s !in c.conns)
    && (forall i: CallId | InFlight(c, i) :: c.calls[i].service in c.dials && c.dials[c.calls[i].service] == i)
  }

  predicate Holds(c: Core, call: CallId, conn: ConnId) {
    call < |c.calls| && c.calls[call].phase == Dialed(Connected(conn))
  }

  /** Some service's cache entry, or some dialler, has the connection. */
  ghost predicate Owned(c: Core, conn: ConnId) {
    (exists s :: s in c.conns && c.conns[s] == conn) || (exists i: CallId :: Holds(c, i, conn))
  }

  /** Every open connection is cached, or held by the goroutine that dialled it. */
  ghost predicate NoneLost(c: Core) {
    forall conn | conn in c.open :: Owned(c, conn)
  }

  /** No connection has two owners, and ids come from dials that happened. */
  ghost predicate OneOwner(c: Core) {
    && (forall conn | conn in c.open :: conn < c.minted)
    && (forall s | s in c.conns :: c.conns[s] < c.minted)
    && (forall i: CallId, conn: ConnId | Holds(c, i, conn) :: conn < c.minted)
    && (forall s, t | s in c.conns && t in c.conns && c.conns[s] == c.conns[t] :: s == t)
    && (forall i: CallId, s | s in c.conns :: !Holds(c, i, c.conns[s]))
    && (forall i: CallId, j: CallId, conn: ConnId | Holds(c, i, conn) && Holds(c, j, conn) :: i == j)
  }

  ghost predicate CoreInv(c: Core) {
    && SingleFlight(c)
    && NoneLost(c)
    && OneOwner(c)
    && (c.closed ==> c.conns == map[])
  }

  /**
   A blocked goroutine waits for a known call, a dialler for one still in flight; and a goroutine
   that joined a call and was not cut off by its context returned that call's published result.
   */
  predicate ThreadOk(core: Core, thread: Thread) {
    match thread
    case Blocked(call, owner) => call < |core.calls| && (owner ==> InFlight(core, call))
    case Returned(result, Some(call), false) => call < |core.calls| && core.calls[call].phase == Done(result)
    case _ => true
  }

  predicate Owns(s: System, t: nat, call: CallId) {
    t < |s.threads| && s.threads[t] == Blocked(call, true)
  }

  /** Every call in flight has exactly one dialler. */
  ghost predicate OneDialler(s: System) {
    && (forall i: CallId | InFlight(s.core, i) :: exists t: nat :: Owns(s, t, i))
    && (forall t: nat, u: nat, i: CallId | Owns(s, t, i) && Owns(s, u, i) :: t == u)
  }

  ghost predicate ThreadsInv(s: System) {
    && (forall t | 0 <= t < |s.threads| :: ThreadOk(s.core, s.threads[t]))
    && OneDialler(s)
  }

  ghost predicate Inv(s: System) {
    CoreInv(s.core) && ThreadsInv(s)
  }

  lemma EnterKeeps(c: Core, service: Service)
    requires CoreInv(c)
    ensures CoreInv(Enter(c, service).0)
  {
    var next := Enter(c, service).0;
    assert forall i: CallId, conn: ConnId :: Holds(next, i, conn) <==> Holds(c, i, conn);
    assert forall i: CallId :: InFlight(next, i) <==> InFlight(c, i) || (i == |c.calls| && i < |next.calls|);
    assert NoneLost(next) by {
      forall conn | conn in next.open ensures Owned(next, conn) {
        assert Owned(c, conn);
        if s :| s in c.conns && c.conns[s] == conn {
          assert s in next.conns;
        }
      }
    }
  }

  lemma DialSingleFlight(c: Core, call: CallId, error: Option<string>)
    requires CoreInv(c) && call < |c.calls| && c.calls[call].phase.Dialing?
    ensures SingleFlight(Dial(c, call, error))
  {
    hide OneOwner, NoneLost;
    var next := Dial(c, call, error);
    assert forall i: CallId :: InFlight(next, i) <==> InFlight(c, i);
    assert forall i | 0 <= i < |c.calls| :: next.calls[i].service == c.calls[i].service;
  }

  lemma DialOwners(c: Core, call: CallId, error: Option<string>)
    requires CoreInv(c) && call < |c.calls| && c.calls[call].phase.Dialing?
    ensures OneOwner(Dial(c, call, error)) && NoneLost(Dial(c, call, error))
  {
    hide SingleFlight;
    var next := Dial(c, call, error);
    assert forall i: CallId, conn: ConnId ::
      Holds(next, i, conn) <==> Holds(c, i, conn) || (error.None? && i == call && conn == c.minted);
    forall conn | conn in next.open ensures Owned(next, conn) {
      if conn == c.minted && error.None? {
        assert Holds(next, call, conn);
      } else {
        assert Owned(c, conn);
      }
    }
  }

  /**
   When the dialler comes back nothing is cached for its service, so the branch that discards the
   fresh connection for an existing one is never taken, and the call it removes is its own.
   */
  lemma ExistingUnreachable(c: Core, call: CallId)
    requires CoreInv(c) && call < |c.calls| && c.calls[call].phase.Dialed?
    ensures
      var service := c.calls[call].service;
      service !in c.conns && service in c.dials && c.dials[service] == call
  {
    assert InFlight(c, call);
  }

  lemma FinishSingleFlight(c: Core, call: CallId)
    requires CoreInv(c) && call < |c.calls| && c.calls[call].phase.Dialed?
    ensures SingleFlight(Finish(c, call))
  {
    ExistingUnreachable(c, call);
    hide OneOwner, NoneLost;
    var next := Finish(c, call);
    assert forall i: CallId :: InFlight(next, i) <==> InFlight(c, i) && i != call;
    assert forall i | 0 <= i < |c.calls| :: next.calls[i].service == c.calls[i].service;
  }

  lemma FinishHolds(c: Core, call: CallId)
    requires call < |c.calls| && c.calls[call].phase.Dialed?
    ensures forall i: CallId, conn: ConnId :: Holds(Finish(c, call), i, conn) <==> Holds(c, i, conn) && i != call
  {
  }

  lemma FinishOneOwner(c: Core, call: CallId)
    requires CoreInv(c) && call < |c.calls| && c.calls[call].phase.Dialed?
    ensures OneOwner(Finish(c, call))
  {
    ExistingUnreachable(c, call);
    FinishHolds(c, call);
    var outcome := c.calls[call].phase.outcome;
    assert outcome.Connected? ==> Holds(c, call, outcome.conn);
    hide SingleFlight, NoneLost, Holds;
  }

  lemma FinishNoneLost(c: Core, call: CallId)
    requires CoreInv(c) && call < |c.calls| && c.calls[call].phase.Dialed?
    ensures NoneLost(Finish(c, call))
  {
    ExistingUnreachable(c, call);
    FinishHolds(c, call);
    hide SingleFlight, OneOwner;
    var next := Finish(c, call);
    var service := c.calls[call].service;
    forall conn | conn in next.open ensures Owned(next, conn) {
      assert Owned(c, conn);
      if s :| s in c.conns && c.conns[s] == conn {
        assert s in next.conns && next.conns[s] == conn;
      } else {
        var i: CallId :| Holds(c, i, conn);
        if i == call {
          assert service in next.conns && next.conns[service] == conn;
        }
      }
    }
  }

  lemma CloseKeeps(c: Core)
    requires CoreInv(c)
    ensures CoreInv(Close(c))
  {
    var next := Close(c);
    assert forall i: CallId, conn: ConnId :: Holds(next, i, conn) <==> Holds(c, i, conn);
    assert forall i: CallId :: InFlight(next, i) <==> InFlight(c, i);
    forall conn | conn in next.open ensures Owned(next, conn) {
      assert Owned(c, conn);
    }
  }

  lemma ShutDownKeeps(c: Core, conn: ConnId)
    requires CoreInv(c)
    ensures CoreInv(c.(open := c.open - {conn}))
  {
    var next := c.(open := c.open - {conn});
    assert forall i: CallId, x: ConnId :: Holds(next, i, x) <==> Holds(c, i, x);
    assert forall i: CallId :: InFlight(next, i) <==> InFlight(c, i);
    forall x | x in next.open ensures Owned(next, x) {
      assert Owned(c, x);
    }
  }

  lemma StepKeepsCore(s: System, a: Action)
    requires Inv(s)
    ensures CoreInv(Step(s, a).core)
  {
    hide SingleFlight, OneOwner, NoneLost;
    match a
    case EnterConn(service) => EnterKeeps(s.core, service);
    case DialReturns(call, error) =>
      if call < |s.core.calls| && s.core.calls[call].phase.Dialing? {
        DialSingleFlight(s.core, call, error);
        DialOwners(s.core, call, error);
      }
    case FinishConn(t) =>
      if t < |s.threads| && s.threads[t].Blocked? && s.threads[t].owner {
        var call := s.threads[t].call;
        if call < |s.core.calls| && s.core.calls[call].phase.Dialed? {
          FinishSingleFlight(s.core, call);
          FinishOneOwner(s.core, call);
          FinishNoneLost(s.core, call);
        }
      }
    case CloseManager => CloseKeeps(s.core);
    case ShutDown(conn) => ShutDownKeeps(s.core, conn);
    case _ =>
  }

  /** What a step may do to the calls: they are never forgotten, and a published result is final. */
  lemma CallsAdvance(s: System, a: Action)
    ensures
      var next := Step(s, a);
      && |s.core.calls| <= |next.core.calls|
      && |s.threads| <= |next.threads|
      && (forall i | 0 <= i < |s.core.calls| ::
            && next.core.calls[i].service == s.core.calls[i].service
            && (s.core.calls[i].phase.Done? ==> next.core.calls[i] == s.core.calls[i]))
  {
  }

  /** A step ends at most one call, and then it is the dialler's own step. */
  lemma InFlightAdvance(s: System, a: Action, i: CallId)
    requires ThreadsInv(s)
    ensures
      var next := Step(s, a);
      && (InFlight(s.core, i) ==> InFlight(next.core, i) || (a.FinishConn? && Owns(s, a.thread, i)))
      && (InFlight(next.core, i) ==>
            && (InFlight(s.core, i) || (i == |s.core.calls| && Owns(next, |s.threads|, i)))
            && !(a.FinishConn? && Owns(s, a.thread, i) && !Owns(next, a.thread, i)))
  {
  }

  lemma OwnsAdvance(s: System, a: Action, t: nat, i: CallId)
    ensures
      var next := Step(s, a);
      && (Owns(s, t, i) ==> Owns(next, t, i) || a == FinishConn(t))
      && (Owns(next, t, i) ==> Owns(s, t, i) || (t == |s.threads| && i == |s.core.calls|))
  {
  }

  lemma StepKeepsDialler(s: System, a: Action)
    requires ThreadsInv(s)
    ensures OneDialler(Step(s, a))
  {
    var next := Step(s, a);
    forall i: CallId | InFlight(next.core, i) ensures exists t: nat :: Owns(next, t, i) {
      InFlightAdvance(s, a, i);
      if InFlight(s.core, i) {
        var t: nat :| Owns(s, t, i);
        OwnsAdvance(s, a, t, i);
      } else {
        assert Owns(next, |s.threads|, i);
      }
    }
    forall t: nat, u: nat, i: CallId | Owns(next, t, i) && Owns(next, u, i) ensures t == u {
      OwnsAdvance(s, a, t, i);
      OwnsAdvance(s, a, u, i);
      if Owns(s, t, i) {
        assert ThreadOk(s.core, s.threads[t]);
      }
      if Owns(s, u, i) {
        assert ThreadOk(s.core, s.threads[u]);
      }
    }
  }

  lemma StepKeepsThread(s: System, a: Action, t: nat)
    requires SingleFlight(s.core) && ThreadsInv(s) && t < |Step(s, a).threads|
    ensures ThreadOk(Step(s, a).core, Step(s, a).threads[t])
  {
    var next := Step(s, a);
    CallsAdvance(s, a);
    if t < |s.threads| {
      assert ThreadOk(s.core, s.threads[t]);
      if s.threads[t].Blocked? && s.threads[t].owner {
        var call := s.threads[t].call;
        assert Owns(s, t, call);
        InFlightAdvance(s, a, call);
        if a.FinishConn? && Owns(s, a.thread, call) {
          assert a.thread == t;
        }
      }
    }
  }

  lemma StepKeepsThreads(s: System, a: Action)
    requires SingleFlight(s.core) && ThreadsInv(s)
    ensures ThreadsInv(Step(s, a))
  {
    hide OneDialler, ThreadOk, Step;
    StepKeepsDialler(s, a);
    forall t | 0 <= t < |Step(s, a).threads| ensures ThreadOk(Step(s, a).core, Step(s, a).threads[t]) {
      StepKeepsThread(s, a, t);
    }
  }

  lemma {:induction false} RunInv(actions: seq<Action>)
    ensures Inv(Run(actions))
  {
    if actions != [] {
      var n := |actions| - 1;
      RunInv(actions[..n]);
      StepKeepsCore(Run(actions[..n]), actions[n]);
      StepKeepsThreads(Run(actions[..n]), actions[n]);
    }
  }

  // ---------------------------------------------------------------- what every run guarantees

  /** At most one dial per service is in flight, over every interleaving. */
  lemma OneDialPerService(actions: seq<Action>, i: CallId, j: CallId)
    requires InFlight(Run(actions).core, i) && InFlight(Run(actions).core, j)
    requires Run(actions).core.calls[i].service == Run(actions).core.calls[j].service
    ensures i == j
  {
    RunInv(actions);
  }

  /** Every connection that is still open is cached or in the hands of the goroutine that dialled it. */
  lemma NoConnectionLost(actions: seq<Action>, conn: ConnId)
    requires conn in Run(actions).core.open
    ensures
      var s := Run(actions);
      || (exists service :: service in s.core.conns && s.core.conns[service] == conn)
      || (exists i: CallId, t: nat :: Holds(s.core, i, conn) && Owns(s, t, i))
  {
    RunInv(actions);
    var s := Run(actions);
    assert Owned(s.core, conn);
    if i: CallId :| Holds(s.core, i, conn) {
      assert InFlight(s.core, i);
      var t: nat :| Owns(s, t, i);
    }
  }

  /** After Close nothing is cached, and once the dials in flight are over nothing is left open. */
  lemma CloseIsFinal(actions: seq<Action>)
    requires Run(actions).core.closed
    ensures Run(actions).core.conns == map[]
    ensures (forall i: CallId :: !InFlight(Run(actions).core, i)) ==> Run(actions).core.open == {}
  {
    RunInv(actions);
    var s := Run(actions);
    forall conn | conn in s.core.open ensures exists i: CallId :: InFlight(s.core, i) {
      assert Owned(s.core, conn);
      var i: CallId :| Holds(s.core, i, conn);
      assert InFlight(s.core, i);
    }
  }

  /**
   All goroutines that joined one call and were not cut off by their context returned the same
   result, the one the dialler published.
   */
  lemma SharedOutcome(actions: seq<Action>, t: nat, u: nat)
    requires
      var threads := Run(actions).threads;
      && t < |threads| && threads[t].Returned? && !threads[t].expired && threads[t].joined.Some?
      && u < |threads| && threads[u].Returned? && !threads[u].expired && threads[u].joined == threads[t].joined
    ensures Run(actions).threads[t].result == Run(actions).threads[u].result
  {
    RunInv(actions);
    var s := Run(actions);
    assert ThreadOk(s.core, s.threads[t]) && ThreadOk(s.core, s.threads[u]);
  }

  /** A connection handed out from the cache was open at that moment, and Close makes Conn refuse. */
  lemma {:induction false} ConnHandsOut(actions: seq<Action>, service: Service)
    ensures
      var s := Run(actions);
      var next := Step(s, EnterConn(service));
      var thread := next.threads[|s.threads|];
      && (s.core.closed <==> thread == Returned(Refused(CLOSED), None, false))
      && (thread.Returned? && thread.result.Connected? ==>
            service in next.core.conns && next.core.conns[service] == thread.result.conn
            && thread.result.conn in next.core.open)
      && (thread.Blocked? ==> InFlight(next.core, thread.call) && next.core.calls[thread.call].service == service)
  {
    RunInv(actions);
  }

  // ---------------------------------------------------------------- what each call of Conn comes to

  /** What the dialler's caller gets: its own error, or the connection unless the manager has closed. */
  function Delivered(outcome: Outcome, closed: bool): Outcome {
    if outcome.Connected? && closed then Refused(CLOSED) else outcome
  }

  /**
   In every run: a dialler that comes back with a connection while the manager is open has it cached
   for its service and returns it; if the manager has closed meanwhile it shuts the connection and
   reports that; and a failed dial returns its own error. Nothing else changes.
   */
  lemma DialDelivered(actions: seq<Action>, t: nat, call: CallId)
    requires
      var s := Run(actions);
      Owns(s, t, call) && call < |s.core.calls| && s.core.calls[call].phase.Dialed?
    ensures
      var s, next := Run(actions), Step(Run(actions), FinishConn(t));
      var service, outcome := s.core.calls[call].service, s.core.calls[call].phase.outcome;
      var result := Delivered(outcome, s.core.closed);
      && next.threads == s.threads[t := Returned(result, Some(call), false)]
      && next.core.calls == s.core.calls[call := DialCall(service, Done(result))]
      && next.core.conns == (if result.Connected? then s.core.conns[service := result.conn] else s.core.conns)
      && next.core.open == (if outcome.Connected? && s.core.closed then s.core.open - {outcome.conn} else s.core.open)
      && next.core.dials == s.core.dials - {service}
      && next.core.closed == s.core.closed && next.core.minted == s.core.minted
  {
    hide Run;
    RunInv(actions);
    ExistingUnreachable(Run(actions).core, call);
  }

  /**
   Were a connection of the service cached and open when the dialler comes back, that one would be
   returned and the new one shut, in a closed manager as well; in a run it never is.
   */
  lemma FinishBesideExisting(c: Core, call: CallId, conn: ConnId)
    requires call < |c.calls| && c.calls[call].phase == Dialed(Connected(conn))
    requires c.calls[call].service in c.conns && c.conns[c.calls[call].service] in c.open
    ensures
      var service, next := c.calls[call].service, Finish(c, call);
      && next.calls == c.calls[call := DialCall(service, Done(Connected(c.conns[service])))]
      && next.conns == c.conns && next.open == c.open - {conn} && next.closed == c.closed
      && next.dials == if service in c.dials && c.dials[service] == call then c.dials - {service} else c.dials
  {
  }

  /** In every run a dial opens a connection of its own, or fails with its own error. */
  lemma DialOpens(actions: seq<Action>, call: CallId, error: Option<string>)
    requires call < |Run(actions).core.calls| && Run(actions).core.calls[call].phase.Dialing?
    ensures
      var s, next := Run(actions), Step(Run(actions), DialReturns(call, error));
      && next.threads == s.threads && next.core.conns == s.core.conns && next.core.dials == s.core.dials
      && next.core.closed == s.core.closed
      && match error
         case Some(e) => next.core.calls[call].phase == Dialed(Refused(e)) && next.core.open == s.core.open
         case None =>
           && next.core.calls[call].phase.Dialed? && next.core.calls[call].phase.outcome.Connected?
           && var conn := next.core.calls[call].phase.outcome.conn;
           && conn !in s.core.open && conn !in s.core.conns.Values
           && next.core.open == s.core.open + {conn}
  {
    hide Run;
    RunInv(actions);
  }

  /**
   In every run of an open manager, Conn returns a cached connection that is open and changes
   nothing; otherwise it waits for the dial under way for its service, or starts one if there is
   none, and forgets a connection of its service that was shut.
   */
  lemma ConnServes(actions: seq<Action>, service: Service)
    requires !Run(actions).core.closed
    ensures
      var s, next := Run(actions), Step(Run(actions), EnterConn(service));
      var core := s.core;
      if service in core.conns && core.conns[service] in core.open then
        next == System(core, s.threads + [Returned(Connected(core.conns[service]), None, false)])
      else if service in core.dials then
        next == System(core.(conns := core.conns - {service}), s.threads + [Blocked(core.dials[service], false)])
      else
        next == System(core.(conns := core.conns - {service}, dials := core.dials[service := |core.calls|],
                             calls := core.calls + [DialCall(service, Dialing)]),
                       s.threads + [Blocked(|core.calls|, true)])
  {
    hide Run;
  }

  /** The step neither closes the manager nor shuts this connection from outside. */
  predicate Spares(a: Action, conn: ConnId) {
    a != CloseManager && a != ShutDown(conn)
  }

  predicate HasCached(c: Core, service: Service, conn: ConnId) {
    !c.closed && service in c.conns && c.conns[service] == conn && conn in c.open
  }

  lemma StepKeepsCached(s: System, a: Action, service: Service, conn: ConnId)
    requires Inv(s) && HasCached(s.core, service, conn) && Spares(a, conn)
    ensures HasCached(Step(s, a).core, service, conn)
  {
    hide NoneLost, ThreadsInv;
    if a.FinishConn? && a.thread < |s.threads| && s.threads[a.thread].Blocked? {
      var call := s.threads[a.thread].call;
      if call < |s.core.calls| && s.core.calls[call].phase.Dialed? {
        ExistingUnreachable(s.core, call);
        var outcome := s.core.calls[call].phase.outcome;
        assert outcome.Connected? ==> Holds(s.core, call, outcome.conn);
      }
    }
  }

  /**
   One connection serves them all: once a service's connection is cached, every later Conn returns
   that very connection, until the manager is closed or the connection shut from outside.
   */
  lemma {:induction false} CachedServesAll(actions: seq<Action>, n: nat, service: Service, conn: ConnId)
    requires n <= |actions| && HasCached(Run(actions[..n]).core, service, conn)
    requires forall i | n <= i < |actions| :: Spares(actions[i], conn)
    ensures HasCached(Run(actions).core, service, conn)
    ensures
      Step(Run(actions), EnterConn(service))
      == System(Run(actions).core, Run(actions).threads + [Returned(Connected(conn), None, false)])
  {
    hide Step;
    if n == |actions| {
      assert actions[..n] == actions;
    } else {
      var init := actions[..|actions| - 1];
      assert init[..n] == actions[..n];
      CachedServesAll(init, n, service, conn);
      RunInv(init);
      StepKeepsCached(Run(init), actions[|actions| - 1], service, conn);
    }
    ConnServes(actions, service);
  }

  /** Close shuts exactly the cached connections, in every run; those being dialled are left to their diallers. */
  lemma CloseShutsCached(actions: seq<Action>)
    ensures
      var c, next := Run(actions).core, Step(Run(actions), CloseManager).core;
      && next.closed && next.conns == map[] && next.dials == c.dials && next.calls == c.calls
      && forall conn :: conn in next.open <==> conn in c.open && !exists s :: s in c.conns && c.conns[s] == conn
  {
    hide Run;
  }

  /** A caller that waited gets the published result once there is one, or its context's error before. */
  lemma WaiterServed(actions: seq<Action>, t: nat, call: CallId)
    requires t < |Run(actions).threads| && Run(actions).threads[t] == Blocked(call, false)
    ensures
      var s := Run(actions);
      && call < |s.core.calls|
      && Step(s, Wake(t)) == (if s.core.calls[call].phase.Done?
                              then s.(threads := s.threads[t := Returned(s.core.calls[call].phase.result, Some(call), false)])
                              else s)
      && Step(s, Expire(t)).core == s.core && Step(s, Expire(t)).threads[t].result.Refused?
  {
    hide Run;
    RunInv(actions);
    assert ThreadOk(Run(actions).core, Run(actions).threads[t]);
  }

  // ---------------------------------------------------------------- the manager object

  /** Why Health fails: the context has ended, the manager is closed, or this service's connection is. */
  datatype HealthError = ContextDone | ManagerClosed | ConnClosed(service: Service)

  class Manager {
    var conns: map<Service, ConnId>
    var dials: map<Service, CallId>
    var closed: bool
    // The dialCall structs and the gRPC connections, which other goroutines share by pointer.
    var calls: seq<DialCall>
    var minted: nat
    var open: set<ConnId>

    function Abs(): Core
      reads this
    {
      Core(closed, conns, dials, calls, minted, open)
    }

    constructor ()
      ensures Abs() == INITIAL
    {
      conns, dials, closed, calls, minted, open := map[], map[], false, [], 0, {};
    }

    /** Conn up to the point where it releases the lock for the first time. */
    method EnterConn(service: Service) returns (admission: Admission)
      modifies this
      ensures (Abs(), admission) == Enter(old(Abs()), service)
    {
      if closed {
        return Rejected;
      }
      var conn := if service in conns then Some(conns[service]) else None;
      if conn.Some? && conn.value !in open {
        conns := conns - {service};
        conn := None;
      }
      if conn.Some? {
        return Cached(conn.value);
      }
      assert conns == old(conns) - {service};
      if service in dials {
        return Waits(dials[service]);
      }
      var call := |calls|;
      calls := calls + [DialCall(service, Dialing)];
      dials := dials[service := call];
      admission := Dials(call);
    }

    /** Conn's second critical section. */
    method FinishConn(call: CallId) returns (result: Outcome)
      requires call < |calls| && calls[call].phase.Dialed?
      modifies this
      ensures Abs() == Finish(old(Abs()), call)
      ensures Done(result) == calls[call].phase
    {
      var service := calls[call].service;
      result := calls[call].phase.outcome;
      if service in dials && dials[service] == call {
        dials := dials - {service};
      }
      if result.Connected? {
        if service in conns && conns[service] in open {
          open := open - {result.conn};
          result := Connected(conns[service]);
        } else if closed {
          open := open - {result.conn};
          result := Refused(CLOSED);
        } else {
          conns := conns[service := result.conn];
        }
      }
      calls := calls[call := DialCall(service, Done(result))];
    }

    method CloseAll()
      modifies this
      ensures Abs() == Close(old(Abs()))
    {
      closed := true;
      ghost var shut: set<ConnId> := {};
      while conns != map[]
        invariant conns.Keys <= old(conns).Keys && forall s | s in conns :: conns[s] == old(conns)[s]
        invariant forall s | s in old(conns) && s !in conns :: old(conns)[s] in shut
        invariant shut <= old(conns).Values
        invariant open == old(open) - shut
        invariant closed && dials == old(dials) && calls == old(calls) && minted == old(minted)
        decreases |conns|
      {
        assert conns.Keys != {};
        var service :| service in conns;
        var conn := conns[service];
        assert conn == old(conns)[service] && conn in old(conns).Values;
        open := open - {conn};
        shut := shut + {conn};
        conns := conns - {service};
      }
      assert shut == old(conns).Values;
    }

    /** Checks the context first, then the manager, then the connections in any order. */
    method Health(cancelled: bool) returns (error: Option<HealthError>)
      ensures error.None? <==> !cancelled && !closed && forall s | s in conns :: conns[s] in open
      ensures error == Some(ContextDone) <==> cancelled
      ensures error == Some(ManagerClosed) <==> !cancelled && closed
      ensures error.Some? && error.value.ConnClosed? ==>
        error.value.service in conns && conns[error.value.service] !in open
    {
      if cancelled {
        return Some(ContextDone);
      }
      if closed {
        return Some(ManagerClosed);
      }
      var rest := conns;
      while rest != map[]
        invariant rest.Keys <= conns.Keys && forall s | s in rest :: rest[s] == conns[s]
        invariant forall s | s in conns && s !in rest :: conns[s] in open
        decreases |rest|
      {
        assert rest.Keys != {};
        var service :| service in rest;
        if rest[service] !in open {
          return Some(ConnClosed(service));
        }
        rest := rest - {service};
      }
      error := None;
    }
  }
}
