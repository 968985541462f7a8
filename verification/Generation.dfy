/**
 Generation identifiers: a process-wide counter that callers advance with compare-and-swap from
 whatever their clock says, and the "<service>-<number>" names made from it.
 */
module Generation {
  import opened Text

  const MAX_INT64 := 0x7FFF_FFFF_FFFF_FFFF
  const MIN_INT64 := -0x8000_0000_0000_0000

  type Int64 = x: int | MIN_INT64 <= x <= MAX_INT64

  /** x + 1 with the wrap-around of a 64-bit integer. */
  function Increment(x: Int64): Int64 {
    if x == MAX_INT64 then MIN_INT64 else x + 1
  }

  /** The value a caller with this clock reading tries to install over `last`. */
  function Proposed(now: Int64, last: Int64): Int64 {
    if now <= last then Increment(last) else now
  }

  type CallerId = nat

  /** A caller has read the clock, or has also loaded the counter when `seen` sequences were out. */
  datatype Caller = Timed(now: Int64) | Loaded(now: Int64, last: Int64, seen: nat)

  /** The counter, the callers inside the loop and every sequence handed out, in order. */
  datatype State = State(counter: Int64, callers: map<CallerId, Caller>, returned: seq<Int64>)

  const INITIAL := State(0, map[], [])

  datatype Action = ReadClock(caller: CallerId, now: Int64) | Load(caller: CallerId) | Swap(caller: CallerId)

  predicate Wins(s: State, caller: CallerId) {
    caller in s.callers && s.callers[caller].Loaded? && s.callers[caller].last == s.counter
  }

  /** One atomic step; a step that its caller is not ready for does nothing. */
  function Step(s: State, a: Action): State {
    match a
    case ReadClock(c, now) =>
      if c in s.callers then s else s.(callers := s.callers[c := Timed(now)])
    case Load(c) =>
      if c in s.callers && s.callers[c].Timed? then
        s.(callers := s.callers[c := Loaded(s.callers[c].now, s.counter, |s.returned|)])
      else s
    case Swap(c) =>
      if Wins(s, c) then
        var next := Proposed(s.callers[c].now, s.counter);
        State(next, s.callers - {c}, s.returned + [next])
      else if c in s.callers && s.callers[c].Loaded? then s.(callers := s.callers[c := Timed(s.callers[c].now)])
      else s
  }

  function Run(actions: seq<Action>): State {
    if actions == [] then INITIAL else Step(Run(actions[..|actions| - 1]), actions[|actions| - 1])
  }

  /** Some caller won the swap while the counter stood at the largest 64-bit integer. */
  predicate Wraps(actions: seq<Action>) {
    actions != [] &&
    var n := |actions| - 1;
    var s := Run(actions[..n]);
    Wraps(actions[..n]) || (actions[n].Swap? && s.counter == MAX_INT64 && Wins(s, actions[n].caller))
  }

  /** Positive and strictly increasing, so in particular all different. */
  predicate Rising(returned: seq<Int64>) {
    && (forall i | 0 <= i < |returned| :: returned[i] > 0)
    && (forall i, j | 0 <= i < j < |returned| :: returned[i] < returned[j])
  }

  function CounterAfter(returned: seq<Int64>, n: nat): Int64
    requires n <= |returned|
  {
    if n == 0 then 0 else returned[n - 1]
  }

  ghost predicate Inv(s: State) {
    && Rising(s.returned)
    && s.counter == CounterAfter(s.returned, |s.returned|)
    && forall c | c in s.callers && s.callers[c].Loaded? ::
         s.callers[c].seen <= |s.returned| && s.callers[c].last == CounterAfter(s.returned, s.callers[c].seen)
  }

  lemma StepKeeps(s: State, a: Action)
    requires Inv(s) && !(a.Swap? && s.counter == MAX_INT64 && Wins(s, a.caller))
    ensures Inv(Step(s, a))
  {
    var after := Step(s, a);
    assert forall n: nat | n <= |s.returned| :: CounterAfter(after.returned, n) == CounterAfter(s.returned, n);
  }

  lemma {:induction false} RunKeeps(actions: seq<Action>)
    requires !Wraps(actions)
    ensures Inv(Run(actions))
  {
    if actions != [] {
      var n := |actions| - 1;
      RunKeeps(actions[..n]);
      StepKeeps(Run(actions[..n]), actions[n]);
    }
  }

  lemma {:induction false} WrapsReturnsMin(actions: seq<Action>)
    requires Wraps(actions)
    ensures MIN_INT64 in Run(actions).returned
  {
    var n := |actions| - 1;
    var s := Run(actions[..n]);
    if Wraps(actions[..n]) {
      WrapsReturnsMin(actions[..n]);
      var i :| 0 <= i < |s.returned| && s.returned[i] == MIN_INT64;
      assert Run(actions).returned[i] == MIN_INT64;
    } else {
      var returned := Run(actions).returned;
      assert returned[|returned| - 1] == MIN_INT64;
    }
  }

  /**
   Over every interleaving and all clock readings, backwards ones included, the sequences handed
   out are positive and strictly increasing if and only if nobody advanced the counter past the
   largest 64-bit integer.
   */
  lemma SequencesRise(actions: seq<Action>)
    ensures Rising(Run(actions).returned) <==> !Wraps(actions)
  {
    if Wraps(actions) {
      WrapsReturnsMin(actions);
    } else {
      RunKeeps(actions);
    }
  }

  /** No swap is fooled by a counter that came back: it fails exactly if somebody else got through. */
  lemma SwapFailsOnProgress(actions: seq<Action>, caller: CallerId)
    requires !Wraps(actions)
    requires caller in Run(actions).callers && Run(actions).callers[caller].Loaded?
    ensures Wins(Run(actions), caller) <==> Run(actions).callers[caller].seen == |Run(actions).returned|
  {
    RunKeeps(actions);
  }

  /** In every run the counter is the sequence handed out last. */
  lemma {:induction false} CounterIsLast(actions: seq<Action>)
    ensures Run(actions).counter == CounterAfter(Run(actions).returned, |Run(actions).returned|)
  {
    if actions != [] {
      CounterIsLast(actions[..|actions| - 1]);
    }
  }

  /** What a caller with this clock reading gets over the sequence before. */
  predicate HandedOut(now: Int64, before: Int64, sequence: Int64) {
    && (now > before ==> sequence == now)
    && (now <= before < MAX_INT64 ==> sequence == before + 1)
    && (now <= before == MAX_INT64 ==> sequence == MIN_INT64)
  }

  /**
   In every run a caller whose swap gets through hands out what its clock said, or one more than the
   sequence before if the clock is not ahead of that; one that does not get through hands out nothing.
   */
  lemma SwapHandsOut(actions: seq<Action>, caller: CallerId)
    requires caller in Run(actions).callers && Run(actions).callers[caller].Loaded?
    ensures
      var s, next := Run(actions), Step(Run(actions), Swap(caller));
      var now, before := s.callers[caller].now, CounterAfter(s.returned, |s.returned|);
      if s.callers[caller].last != before then next == s.(callers := s.callers[caller := Timed(now)])
      else
        && next.callers == s.callers - {caller}
        && |next.returned| == |s.returned| + 1 && next.returned[..|s.returned|] == s.returned
        && next.counter == next.returned[|s.returned|]
        && HandedOut(now, before, next.counter)
  {
    hide Run;
    CounterIsLast(actions);
  }

  /**
   In every run a caller that nobody gets in front of reads the clock, loads the counter and gets
   through with its first swap.
   */
  lemma AloneGetsThrough(actions: seq<Action>, caller: CallerId, now: Int64)
    requires caller !in Run(actions).callers
    ensures
      var s := Run(actions);
      var timed := Step(s, ReadClock(caller, now));
      var loaded := Step(timed, Load(caller));
      var done := Step(loaded, Swap(caller));
      && timed == s.(callers := s.callers[caller := Timed(now)])
      && loaded == s.(callers := s.callers[caller := Loaded(now, s.counter, |s.returned|)])
      && done.callers == s.callers && |done.returned| == |s.returned| + 1 && done.returned[..|s.returned|] == s.returned
      && done.returned[|s.returned|] == done.counter && HandedOut(now, s.counter, done.counter)
  {
    hide Run;
    var s := Run(actions);
    assert s.callers[caller := Timed(now)][caller := Loaded(now, s.counter, |s.returned|)] - {caller} == s.callers;
  }

  predicate ReadsAtMost(actions: seq<Action>, bound: nat) {
    forall i | 0 <= i < |actions| && actions[i].ReadClock? :: actions[i].now <= bound
  }

  ghost predicate Bounded(s: State, bound: nat, slack: nat) {
    s.counter <= bound + slack && forall c | c in s.callers :: s.callers[c].now <= bound
  }

  lemma {:induction false} RunBounded(actions: seq<Action>, bound: nat)
    requires ReadsAtMost(actions, bound)
    ensures Bounded(Run(actions), bound, |actions|)
  {
    if actions != [] {
      RunBounded(actions[..|actions| - 1], bound);
    }
  }

  /** Clocks that stay below the limit by the number of steps never let the counter wrap. */
  lemma {:induction false} BoundedClocksNeverWrap(actions: seq<Action>, bound: nat)
    requires ReadsAtMost(actions, bound) && bound + |actions| <= MAX_INT64
    ensures !Wraps(actions) && Rising(Run(actions).returned)
  {
    if actions != [] {
      BoundedClocksNeverWrap(actions[..|actions| - 1], bound);
      RunBounded(actions[..|actions| - 1], bound);
    }
    SequencesRise(actions);
  }

  // ---------------------------------------------------------------- names

  /** A 64-bit integer as %d prints it. */
  function Signed(x: int): string {
    if x < 0 then "-" + Decimal(-x) else Decimal(x)
  }

  function ServiceName(service: string): string {
    if Blank(service) then "dataplane" else TrimSpace(service)
  }

  function Named(service: string, sequence: Int64): string {
    ServiceName(service) + "-" + Signed(sequence)
  }

  /** strings.LastIndex with a one-character separator; -1 if there is none. */
  function LastIndex(s: string, c: char): (i: int)
    ensures -1 <= i < |s|
    ensures i >= 0 ==> s[i] == c
    ensures forall k | i < k < |s| :: s[k] != c
  {
    if s == "" then -1
    else if s[|s| - 1] == c then |s| - 1
    else LastIndex(s[..|s| - 1], c)
  }

  /** moduleFromGeneration. */
  function ModuleOf(generation: string): string {
    var trimmed := TrimSpace(generation);
    var index := LastIndex(trimmed, '-');
    if trimmed == "" then "" else if index <= 0 then trimmed else trimmed[..index]
  }

  lemma ServiceNameTrimmed(service: string)
    ensures ServiceName(service) != "" && Trimmed(ServiceName(service), WHITESPACE)
  {
    TrimFixes(service, WHITESPACE);
  }

  lemma DigitNotSpace(c: char)
    requires '0' <= c <= '9'
    ensures c !in WHITESPACE && c != '-'
  {
  }

  lemma SignedEnds(x: Int64)
    ensures
      var s := Signed(x);
      && s != "" && s[|s| - 1] !in WHITESPACE
      && LastIndex(s, '-') == (if x < 0 then 0 else -1)
  {
    hide LastIndex, Decimal, DecimalValue;
    var magnitude: int := if x < 0 then -(x as int) else x;
    var s, digits := Signed(x), Decimal(magnitude);
    DecimalRoundTrip(magnitude);
    assert s[|s| - 1] == digits[|digits| - 1];
    DigitNotSpace(s[|s| - 1]);
    assert forall k | |s| - |digits| <= k < |s| :: s[k] == digits[k - (|s| - |digits|)];
    LastIndexUnique(s, '-', if x < 0 then 0 else -1);
  }

  lemma LastIndexUnique(s: string, c: char, i: int)
    requires -1 <= i < |s| && (i >= 0 ==> s[i] == c) && forall k | i < k < |s| :: s[k] != c
    ensures LastIndex(s, c) == i
  {
  }

  /** The module of a text, without the space around it: what comes before its last dash, if that is not the first thing in it. */
  lemma ModuleIs(generation: string)
    ensures
      var t := TrimSpace(generation);
      && ((forall i | 0 < i < |t| :: t[i] != '-') ==> ModuleOf(generation) == t)
      && forall i | 0 < i < |t| && t[i] == '-' && '-' !in t[i + 1..] :: ModuleOf(generation) == t[..i]
  {
    hide LastIndex, TrimSpace;
    var t := TrimSpace(generation);
    forall i | 0 < i < |t| && t[i] == '-' && '-' !in t[i + 1..] ensures LastIndex(t, '-') == i {
      assert forall k | i < k < |t| :: t[k] == t[i + 1..][k - i - 1];
      LastIndexUnique(t, '-', i);
    }
  }

  /** The module is read back from a generation exactly when its sequence did not wrap around. */
  lemma ModuleRoundTrip(service: string, sequence: Int64)
    ensures ModuleOf(Named(service, sequence)) == ServiceName(service) <==> sequence >= 0
  {
    hide Signed, ServiceName, LastIndex, TrimSpace, Trim;
    var name, digits, g := ServiceName(service), Signed(sequence), Named(service, sequence);
    ServiceNameTrimmed(service);
    SignedEnds(sequence);
    assert g[|g| - 1] == digits[|digits| - 1];
    assert TrimSpace(g) == g by {
      TrimIsTrimSpace(g);
      TrimFixes(g, WHITESPACE);
    }
    assert forall k | |name| < k < |g| :: g[k] == digits[k - |name| - 1];
    LastIndexUnique(g, '-', if sequence < 0 then |name| + 1 else |name|);
    assert g[..|name|] == name;
  }

  lemma TrimIsTrimSpace(s: string)
    ensures TrimSpace(s) == Trim(s, WHITESPACE)
  {
  }

  /** A generation is the trimmed service name, or "dataplane" for a blank one, a dash and the sequence. */
  lemma NamedIs(service: string, sequence: Int64)
    ensures
      var name := if TrimSpace(service) == "" then "dataplane" else TrimSpace(service);
      Named(service, sequence) == name + "-" + if sequence >= 0 then Decimal(sequence) else "-" + Decimal(-(sequence as int))
  {
    hide TrimSpace, Decimal;
  }

  /** A generation determines the service name and the sequence it was made from. */
  lemma NamedInjective(a: string, m: Int64, b: string, n: Int64)
    requires m >= 0 && n >= 0 && Named(a, m) == Named(b, n)
    ensures ServiceName(a) == ServiceName(b) && m == n
  {
    hide ServiceName, LastIndex, Decimal, DecimalValue, ModuleOf;
    ModuleRoundTrip(a, m);
    ModuleRoundTrip(b, n);
    var name, g := ServiceName(a), Named(a, m);
    assert g[|name| + 1..] == Decimal(m) && g[|name| + 1..] == Decimal(n);
    DecimalRoundTrip(m);
    DecimalRoundTrip(n);
  }

  /** No two generations of a process share a name, whatever services they are for. */
  lemma GenerationsDistinct(actions: seq<Action>, i: nat, j: nat, a: string, b: string)
    requires !Wraps(actions) && i < j < |Run(actions).returned|
    ensures Named(a, Run(actions).returned[i]) != Named(b, Run(actions).returned[j])
  {
    hide Named, Run, Wraps;
    SequencesRise(actions);
    var m, n := Run(actions).returned[i], Run(actions).returned[j];
    if Named(a, m) == Named(b, n) {
      NamedInjective(a, m, b, n);
    }
  }

  // ---------------------------------------------------------------- the counter object

  /** The process-wide atomic counter; `log` records every atomic step taken on it. */
  class Sequence {
    var value: Int64
    ghost var log: seq<Action>

    ghost predicate Valid()
      reads this
    {
      value == Run(log).counter
    }

    constructor ()
      ensures Valid() && log == []
    {
      value, log := 0, [];
    }

    ghost predicate Inside(caller: CallerId, state: Caller)
      reads this
    {
      caller in Run(log).callers && Run(log).callers[caller] == state
    }

    ghost predicate Others(caller: CallerId, before: State)
      reads this
    {
      forall c: CallerId | c != caller ::
        && (c in Run(log).callers <==> c in before.callers)
        && (c in before.callers ==> Run(log).callers[c] == before.callers[c])
    }

    method Clock(ghost caller: CallerId, ghost now: Int64)
      requires Valid() && caller !in Run(log).callers
      modifies this`log
      ensures Valid() && log == old(log) + [ReadClock(caller, now)]
      ensures Inside(caller, Timed(now)) && Others(caller, old(Run(log)))
      ensures Run(log).returned == old(Run(log)).returned
    {
      log := log + [ReadClock(caller, now)];
      assert log[..|log| - 1] == old(log);
    }

    method LoadValue(ghost caller: CallerId, ghost now: Int64) returns (last: Int64)
      requires Valid() && Inside(caller, Timed(now))
      modifies this`log
      ensures Valid() && log == old(log) + [Load(caller)]
      ensures last == value && Inside(caller, Loaded(now, last, |Run(log).returned|))
      ensures Others(caller, old(Run(log)))
      ensures Run(log).returned == old(Run(log)).returned
    {
      last := value;
      log := log + [Load(caller)];
      assert log[..|log| - 1] == old(log);
    }

    method CompareAndSwap(ghost caller: CallerId, ghost now: Int64, last: Int64, next: Int64, ghost seen: nat)
      returns (ok: bool)
      requires Valid() && Inside(caller, Loaded(now, last, seen)) && next == Proposed(now, last)
      modifies this
      ensures Valid() && log == old(log) + [Swap(caller)]
      ensures ok == (old(value) == last)
      ensures ok ==> value == next && caller !in Run(log).callers
      ensures ok ==> Run(log).returned == old(Run(log)).returned + [next]
      ensures ok ==> last == CounterAfter(Run(log).returned, |Run(log).returned| - 1)
      ensures !ok ==> Inside(caller, Timed(now)) && Run(log).returned == old(Run(log)).returned
      ensures Others(caller, old(Run(log)))
    {
      CounterIsLast(log);
      log := log + [Swap(caller)];
      assert log[..|log| - 1] == old(log);
      ok := value == last;
      if ok {
        value := next;
      }
    }

    /**
     nextGenerationSequence, with the clock readings of the calls that get through between the load
     and the swap of each round; once those run out, the swap succeeds.
     */
    method Next(ghost caller: CallerId, now: Int64, rivals: seq<seq<Int64>>, ghost rival: CallerId) returns (next: Int64)
      requires Valid() && caller != rival && caller !in Run(log).callers && rival !in Run(log).callers
      modifies this
      ensures Valid() && old(log) <= log
      ensures |Run(log).returned| > 0 && next == Run(log).returned[|Run(log).returned| - 1] == value
      ensures HandedOut(now, CounterAfter(Run(log).returned, |Run(log).returned| - 1), next)
      ensures old(Run(log)).returned <= Run(log).returned
      ensures caller !in Run(log).callers && Others(caller, old(Run(log)))
    {
      hide Run;
      Clock(caller, now);
      var round := 0;
      while true
        invariant 0 <= round <= |rivals| + 1
        invariant Valid() && old(log) <= log && Inside(caller, Timed(now))
        invariant old(Run(log)).returned <= Run(log).returned
        invariant rival !in Run(log).callers && Others(caller, old(Run(log)))
        invariant round <= |rivals|
        decreases |rivals| + 1 - round
      {
        var last := LoadValue(caller, now);
        next := if now <= last then Increment(last) else now;
        ghost var seen := |Run(log).returned|;
        if round < |rivals| {
          Interfere(rivals[round], rival, caller, Loaded(now, last, seen));
        }
        var swapped := CompareAndSwap(caller, now, last, next, seen);
        if swapped {
          return;
        }
        round := round + 1;
      }
    }

    /** Calls by others that run from start to end, one for each clock reading. */
    method Interfere(readings: seq<Int64>, ghost rival: CallerId, ghost caller: CallerId, ghost waiting: Caller)
      requires Valid() && caller != rival && rival !in Run(log).callers && Inside(caller, waiting)
      modifies this
      ensures Valid() && old(log) <= log && Inside(caller, waiting)
      ensures rival !in Run(log).callers && Run(log).callers == old(Run(log)).callers
      ensures old(Run(log)).returned <= Run(log).returned
      ensures readings == [] ==> value == old(value)
    {
      hide Run;
      var i := 0;
      while i < |readings|
        invariant 0 <= i <= |readings|
        invariant Valid() && old(log) <= log && Run(log).callers == old(Run(log)).callers
        invariant old(Run(log)).returned <= Run(log).returned
        invariant i == 0 ==> value == old(value)
      {
        ghost var before := Run(log).callers;
        Clock(rival, readings[i]);
        var last := LoadValue(rival, readings[i]);
        var next := if readings[i] <= last then Increment(last) else readings[i];
        var swapped := CompareAndSwap(rival, readings[i], last, next, |Run(log).returned|);
        assert swapped;
        assert Run(log).callers == before;
        i := i + 1;
      }
    }
  }
}
