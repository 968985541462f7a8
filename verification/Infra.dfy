/**
 The lazily created MySQL pools of one generation: callers look a pool up, open one without the lock
 and look again, so several may open for the same instance and all but one give theirs up.
 */
module Infra {
  import opened Wrappers
  import MysqlCompile

  type PoolId = nat

  datatype Failure = Unresolved(error: MysqlCompile.ResolveError) | ContainerClosed | OpenFailed

  /** A MySQL call: it is opening a pool, holds one that is not shared yet, or has returned. */
  datatype Caller =
    | Opening(name: string)
    | Holding(name: string, pool: PoolId)
    | Returned(name: string, pool: PoolId)
    | Failed(failure: Failure)

  /** `closing` are the pools that Close took over and has not closed yet. */
  datatype Container = Container(
    config: MysqlCompile.Compiled,
    closed: bool,
    pools: map<string, PoolId>,
    closing: set<PoolId>,
    minted: nat,
    open: set<PoolId>,
    callers: seq<Caller>)

  function New(config: MysqlCompile.Compiled): Container {
    Container(config, false, map[], {}, 0, {}, [])
  }

  // ---------------------------------------------------------------- the steps

  /** The first critical section of a MySQL call. */
  function Entered(c: Container, name: Option<string>): Caller {
    if c.closed then Failed(ContainerClosed)
    else
      var instance := MysqlCompile.Resolve(c.config, name);
      if instance.Failure? then Failed(Unresolved(instance.error))
      else if instance.value.name in c.pools then Returned(instance.value.name, c.pools[instance.value.name])
      else Opening(instance.value.name)
  }

  /** Opening the pool, without the lock. */
  function Opened(c: Container, i: nat, ok: bool): Container
    requires i < |c.callers| && c.callers[i].Opening?
  {
    if !ok then c.(callers := c.callers[i := Failed(OpenFailed)])
    else c.(minted := c.minted + 1, open := c.open + {c.minted},
            callers := c.callers[i := Holding(c.callers[i].name, c.minted)])
  }

  /** The second critical section. */
  function Shared(c: Container, i: nat): Container
    requires i < |c.callers| && c.callers[i].Holding?
  {
    var name, pool := c.callers[i].name, c.callers[i].pool;
    if c.closed then c.(open := c.open - {pool}, callers := c.callers[i := Failed(ContainerClosed)])
    else if name in c.pools then
      c.(open := c.open - {pool}, callers := c.callers[i := Returned(name, c.pools[name])])
    else c.(pools := c.pools[name := pool], callers := c.callers[i := Returned(name, pool)])
  }

  datatype Action =
    | Enter(name: Option<string>)
    | Open(caller: nat, ok: bool)
    | Share(caller: nat)
    | Close
    | ClosePool(pool: PoolId)

  function Step(c: Container, a: Action): Container {
    match a
    case Enter(name) => c.(callers := c.callers + [Entered(c, name)])
    case Open(i, ok) => if i < |c.callers| && c.callers[i].Opening? then Opened(c, i, ok) else c
    case Share(i) => if i < |c.callers| && c.callers[i].Holding? then Shared(c, i) else c
    case Close => if c.closed then c else c.(closed := true, closing := c.pools.Values)
    case ClosePool(pool) => if pool in c.closing then c.(closing := c.closing - {pool}, open := c.open - {pool}) else c
  }

  function Run(config: MysqlCompile.Compiled, actions: seq<Action>): Container {
    if actions == [] then New(config) else Step(Run(config, actions[..|actions| - 1]), actions[|actions| - 1])
  }

  // ---------------------------------------------------------------- what every run keeps

  predicate Holds(c: Container, i: nat, pool: PoolId) {
    i < |c.callers| && c.callers[i].Holding? && c.callers[i].pool == pool
  }

  /** What a caller knows: its own pool is open and nobody else's, a returned one is the shared one. */
  ghost predicate CallerOk(c: Container, i: nat)
    requires i < |c.callers|
  {
    match c.callers[i]
    case Holding(_, pool) => pool < c.minted && pool in c.open && pool !in c.pools.Values
    case Returned(name, pool) => name in c.pools && c.pools[name] == pool
    case _ => true
  }

  ghost predicate Owned(c: Container, pool: PoolId) {
    pool in c.pools.Values || exists i: nat :: Holds(c, i, pool)
  }

  ghost predicate PoolsOk(c: Container) {
    && (forall name | name in c.pools :: c.pools[name] < c.minted)
    && c.closing <= c.pools.Values
    && (forall name | name in c.pools :: c.pools[name] in c.open <==> !c.closed || c.pools[name] in c.closing)
    && (!c.closed ==> c.closing == {})
    && (forall pool | pool in c.open :: pool < c.minted)
  }

  /** No two calls hold the same pool. */
  predicate HeldApart(callers: seq<Caller>) {
    forall i, j | 0 <= i < j < |callers| && callers[i].Holding? && callers[j].Holding? ::
      callers[i].pool != callers[j].pool
  }

  ghost predicate Inv(c: Container) {
    && PoolsOk(c) && HeldApart(c.callers)
    && (forall i: nat | i < |c.callers| :: CallerOk(c, i))
    && (forall pool | pool in c.open :: Owned(c, pool))
  }

  lemma EnterKeeps(c: Container, name: Option<string>)
    requires Inv(c)
    ensures Inv(Step(c, Enter(name)))
  {
    hide MysqlCompile.Resolve;
    var after := Step(c, Enter(name));
    forall i: nat | i < |after.callers| ensures CallerOk(after, i) {
      assert i < |c.callers| ==> CallerOk(c, i);
    }
    forall pool | pool in after.open ensures Owned(after, pool) {
      assert Owned(c, pool);
      if i: nat :| Holds(c, i, pool) {
        assert Holds(after, i, pool);
      }
    }
  }

  lemma OpenKeeps(c: Container, i: nat, ok: bool)
    requires Inv(c) && i < |c.callers| && c.callers[i].Opening?
    ensures Inv(Opened(c, i, ok))
  {
    var after := Opened(c, i, ok);
    forall j, k | 0 <= j < k < |after.callers| && after.callers[j].Holding? && after.callers[k].Holding?
      ensures after.callers[j].pool != after.callers[k].pool
    {
      assert CallerOk(c, j) && CallerOk(c, k);
    }
    forall j: nat | j < |after.callers| ensures CallerOk(after, j) {
      assert CallerOk(c, j);
    }
    forall pool | pool in after.open ensures Owned(after, pool) {
      if pool == c.minted {
        assert Holds(after, i, pool);
      } else {
        assert Owned(c, pool);
        if j: nat :| Holds(c, j, pool) {
          assert Holds(after, j, pool);
        }
      }
    }
  }

  lemma ShareKeeps(c: Container, i: nat)
    requires Inv(c) && i < |c.callers| && c.callers[i].Holding?
    ensures Inv(Shared(c, i))
  {
    var after := Shared(c, i);
    var mine := c.callers[i].pool;
    assert CallerOk(c, i);
    forall j: nat | j < |after.callers| ensures CallerOk(after, j) {
      assert CallerOk(c, j);
    }
    forall pool | pool in after.open ensures Owned(after, pool) {
      assert Owned(c, pool);
      if pool == mine {
        assert after.pools[c.callers[i].name] == mine;
      } else if j: nat :| Holds(c, j, pool) {
        assert Holds(after, j, pool);
      } else {
        var name :| name in c.pools && c.pools[name] == pool;
        assert after.pools[name] == pool;
      }
    }
  }

  lemma CloseKeeps(c: Container, a: Action)
    requires Inv(c) && (a.Close? || a.ClosePool?)
    ensures Inv(Step(c, a))
  {
    var after := Step(c, a);
    forall j: nat | j < |after.callers| ensures CallerOk(after, j) {
      assert CallerOk(c, j);
    }
    forall pool | pool in after.open ensures Owned(after, pool) {
      assert Owned(c, pool);
      if j: nat :| Holds(c, j, pool) {
        assert Holds(after, j, pool);
      }
    }
  }

  lemma {:induction false} RunKeeps(config: MysqlCompile.Compiled, actions: seq<Action>)
    ensures Inv(Run(config, actions)) && Run(config, actions).config == config
  {
    hide Inv, Opened, Shared, Entered;
    if actions == [] {
      NewInv(config);
    } else {
      var n := |actions| - 1;
      RunKeeps(config, actions[..n]);
      var c := Run(config, actions[..n]);
      match actions[n]
      case Enter(name) => EnterKeeps(c, name);
      case Open(i, ok) =>
        if i < |c.callers| && c.callers[i].Opening? {
          OpenKeeps(c, i, ok);
        }
        OpenedConfig(c, i, ok);
      case Share(i) =>
        if i < |c.callers| && c.callers[i].Holding? {
          ShareKeeps(c, i);
        }
        OpenedConfig(c, i, true);
      case _ => CloseKeeps(c, actions[n]);
    }
  }

  lemma OpenedConfig(c: Container, i: nat, ok: bool)
    ensures i < |c.callers| && c.callers[i].Opening? ==> Opened(c, i, ok).config == c.config
    ensures i < |c.callers| && c.callers[i].Holding? ==> Shared(c, i).config == c.config
  {
  }

  lemma NewInv(config: MysqlCompile.Compiled)
    ensures Inv(New(config))
  {
  }

  // ---------------------------------------------------------------- what callers can rely on

  /** All calls for one instance return one pool, and it stays open until Close gets to it. */
  lemma OnePoolPerInstance(config: MysqlCompile.Compiled, actions: seq<Action>, i: nat, j: nat)
    requires
      var callers := Run(config, actions).callers;
      && i < |callers| && j < |callers| && callers[i].Returned? && callers[j].Returned?
      && callers[i].name == callers[j].name
    ensures
      var c := Run(config, actions);
      && c.callers[i].pool == c.callers[j].pool
      && (c.callers[i].pool in c.open <==> !c.closed || c.callers[i].pool in c.closing)
  {
    hide Run;
    RunKeeps(config, actions);
    assert CallerOk(Run(config, actions), i) && CallerOk(Run(config, actions), j);
  }

  /** No pool leaks: one that is open is shared and not yet closed, or held by the call that opened it. */
  lemma NoPoolLost(config: MysqlCompile.Compiled, actions: seq<Action>, pool: PoolId)
    requires pool in Run(config, actions).open
    ensures
      var c := Run(config, actions);
      || (pool in c.pools.Values && (c.closed ==> pool in c.closing))
      || exists i: nat :: Holds(c, i, pool)
  {
    hide Run;
    RunKeeps(config, actions);
    var c := Run(config, actions);
    assert Owned(c, pool);
    if !exists i: nat :: Holds(c, i, pool) {
      var name :| name in c.pools && c.pools[name] == pool;
    }
  }

  /** Once Close is through and no call is holding a pool, nothing is left open. */
  lemma CloseReleasesAll(config: MysqlCompile.Compiled, actions: seq<Action>)
    requires Run(config, actions).closed && Run(config, actions).closing == {}
    requires forall i | 0 <= i < |Run(config, actions).callers| :: !Run(config, actions).callers[i].Holding?
    ensures Run(config, actions).open == {}
  {
    hide Run;
    var c := Run(config, actions);
    forall pool | pool in c.open ensures false {
      NoPoolLost(config, actions, pool);
    }
  }

  // ---------------------------------------------------------------- what each call comes to

  /** In every run a call is refused once closed, returns the shared pool, or goes on to open one. */
  lemma EnterServes(config: MysqlCompile.Compiled, actions: seq<Action>, name: Option<string>)
    ensures
      var c, next := Run(config, actions), Step(Run(config, actions), Enter(name));
      && next == c.(callers := next.callers)
      && |next.callers| == |c.callers| + 1 && next.callers[..|c.callers|] == c.callers
      && var caller, instance := next.callers[|c.callers|], MysqlCompile.Resolve(config, name);
      && (c.closed ==> caller == Failed(ContainerClosed))
      && (!c.closed && instance.Failure? ==> caller == Failed(Unresolved(instance.error)))
      && (!c.closed && instance.Success? && instance.value.name in c.pools ==>
            caller == Returned(instance.value.name, c.pools[instance.value.name]))
      && (!c.closed && instance.Success? && instance.value.name !in c.pools ==> caller == Opening(instance.value.name))
  {
    hide Run, MysqlCompile.Resolve;
    RunKeeps(config, actions);
  }

  /** In every run opening a pool makes a new one, which the call holds for itself, or fails. */
  lemma OpenMakesNew(config: MysqlCompile.Compiled, actions: seq<Action>, i: nat, ok: bool)
    requires i < |Run(config, actions).callers| && Run(config, actions).callers[i].Opening?
    ensures
      var c, next := Run(config, actions), Step(Run(config, actions), Open(i, ok));
      && next.pools == c.pools && next.closed == c.closed && next.closing == c.closing
      && if !ok then next.callers == c.callers[i := Failed(OpenFailed)] && next.open == c.open
         else
           && next.callers[i].Holding? && next.callers[i].name == c.callers[i].name
           && next.callers == c.callers[i := next.callers[i]]
           && var pool := next.callers[i].pool;
           && pool !in c.open && pool !in c.pools.Values && next.open == c.open + {pool}
  {
    hide Run;
    RunKeeps(config, actions);
  }

  /**
   In every run the first call of its instance to come back shares its pool and returns it; later
   ones close theirs and return the shared one; and after Close a call closes its pool and fails.
   */
  lemma ShareServes(config: MysqlCompile.Compiled, actions: seq<Action>, i: nat)
    requires i < |Run(config, actions).callers| && Run(config, actions).callers[i].Holding?
    ensures
      var c, next := Run(config, actions), Step(Run(config, actions), Share(i));
      var name, pool := c.callers[i].name, c.callers[i].pool;
      && pool in c.open && next.closed == c.closed && next.closing == c.closing
      && if c.closed then
           next.callers == c.callers[i := Failed(ContainerClosed)] && next.pools == c.pools && next.open == c.open - {pool}
         else if name in c.pools then
           && next.callers == c.callers[i := Returned(name, c.pools[name])] && next.pools == c.pools
           && next.open == c.open - {pool} && c.pools[name] in next.open
         else
           next.callers == c.callers[i := Returned(name, pool)] && next.pools == c.pools[name := pool] && next.open == c.open
  {
    hide Run;
    RunKeeps(config, actions);
    assert CallerOk(Run(config, actions), i);
  }

  lemma StepKeepsPool(c: Container, a: Action, name: string)
    requires name in c.pools
    ensures name in Step(c, a).pools && Step(c, a).pools[name] == c.pools[name]
  {
    hide MysqlCompile.Resolve;
  }

  /** Once an instance's pool is shared, every later call for it returns that very pool until Close. */
  lemma {:induction false} SharedServesAll(config: MysqlCompile.Compiled, actions: seq<Action>, n: nat, name: Option<string>)
    requires n <= |actions| && !Run(config, actions).closed
    requires MysqlCompile.Resolve(config, name).Success?
    requires MysqlCompile.Resolve(config, name).value.name in Run(config, actions[..n]).pools
    ensures
      var instance := MysqlCompile.Resolve(config, name).value.name;
      var c, pool := Run(config, actions), Run(config, actions[..n]).pools[instance];
      && instance in c.pools && c.pools[instance] == pool && pool in c.open
      && Step(c, Enter(name)).callers == c.callers + [Returned(instance, pool)]
  {
    hide MysqlCompile.Resolve, Run;
    PoolStays(config, actions, n, MysqlCompile.Resolve(config, name).value.name);
    RunKeeps(config, actions);
  }

  lemma {:induction false} PoolStays(config: MysqlCompile.Compiled, actions: seq<Action>, n: nat, name: string)
    requires n <= |actions| && name in Run(config, actions[..n]).pools
    ensures name in Run(config, actions).pools
    ensures Run(config, actions).pools[name] == Run(config, actions[..n]).pools[name]
  {
    hide Step;
    if n == |actions| {
      assert actions[..n] == actions;
    } else {
      var init := actions[..|actions| - 1];
      assert init[..n] == actions[..n];
      PoolStays(config, init, n, name);
      StepKeepsPool(Run(config, init), actions[|actions| - 1], name);
    }
  }

  /** Close takes over exactly the shared pools, once, and closes nothing by itself; then each is closed. */
  lemma CloseTakesOver(config: MysqlCompile.Compiled, actions: seq<Action>, pool: PoolId)
    ensures
      var c := Run(config, actions);
      && Step(c, Close) == (if c.closed then c else c.(closed := true, closing := c.pools.Values))
      && Step(c, ClosePool(pool))
         == if pool in c.closing then c.(closing := c.closing - {pool}, open := c.open - {pool}) else c
  {
    hide Run;
  }

  // ---------------------------------------------------------------- the container object

  class InfraContainer {
    const config: MysqlCompile.Compiled
    var closed: bool
    var pools: map<string, PoolId>
    // The pools that exist outside the container, and the calls under way.
    var closing: set<PoolId>
    var minted: nat
    var open: set<PoolId>
    ghost var callers: seq<Caller>

    ghost function Abs(): Container
      reads this
    {
      Container(config, closed, pools, closing, minted, open, callers)
    }

    constructor (config: MysqlCompile.Compiled)
      ensures Abs() == New(config)
    {
      this.config := config;
      closed, pools, closing, minted, open, callers := false, map[], {}, 0, {}, [];
    }

    /** MySQL up to the point where it releases the lock for the first time. */
    method Enter(name: Option<string>) returns (caller: Caller)
      modifies this`callers
      ensures Abs() == Step(old(Abs()), Action.Enter(name))
      ensures callers == old(callers) + [caller]
    {
      hide MysqlCompile.Resolve;
      if closed {
        caller := Failed(ContainerClosed);
      } else {
        var instance := MysqlCompile.Resolve(config, name);
        if instance.Failure? {
          caller := Failed(Unresolved(instance.error));
        } else if instance.value.name in pools {
          caller := Returned(instance.value.name, pools[instance.value.name]);
        } else {
          caller := Opening(instance.value.name);
        }
      }
      callers := callers + [caller];
    }

    /** MySQL's second critical section, with the pool that call `i` has opened. */
    method Share(ghost i: nat, name: string, pool: PoolId) returns (caller: Caller)
      requires i < |callers| && callers[i] == Holding(name, pool)
      modifies this
      ensures Abs() == Step(old(Abs()), Action.Share(i))
      ensures callers == old(callers)[i := caller]
    {
      if closed {
        open := open - {pool};
        caller := Failed(ContainerClosed);
      } else if name in pools {
        open := open - {pool};
        caller := Returned(name, pools[name]);
      } else {
        pools := pools[name := pool];
        caller := Returned(name, pool);
      }
      callers := callers[i := caller];
    }

    /** Close's critical section: from here on the shared pools are Close's to close. */
    method BeginClose()
      modifies this
      ensures Abs() == Step(old(Abs()), Close)
    {
      if closed {
        return;
      }
      closed := true;
      closing := pools.Values;
    }
  }
}
