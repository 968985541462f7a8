/** What a watcher of the in-process registry still knows after its full queue has lost events. */
module MemoryMirror {
  import opened Wrappers
  import opened Text
  import opened Registry
  import opened Discovery
  import opened MemoryRegistry

  predicate Tells(e: DiscoveryEvent, k: string) {
    Visible(e) && InstanceKey(e.instance) == k
  }

  /** What an event leaves behind under its key. */
  function Outcome(e: DiscoveryEvent): Option<ServiceInstance> {
    if e.kind.Removed? then None else Some(e.instance)
  }

  /** What a stream leaves behind under `k`. */
  function Left(events: seq<DiscoveryEvent>, k: string): Option<ServiceInstance> {
    var about := About(events, k);
    if about == [] then None else Outcome(about[|about| - 1])
  }

  function Lookup(snapshot: Snapshot, k: string): Option<ServiceInstance> {
    if k in snapshot then Some(snapshot[k]) else None
  }

  lemma ReplayLeaves(events: seq<DiscoveryEvent>, k: string)
    ensures Lookup(Replay(map[], events), k) == Left(events, k)
  {
    hide About, Replay, InstanceKey, Blank;
    ReplayAt(map[], events, k);
  }

  /** `j` is the last event about `k`. */
  ghost predicate IsLast(events: seq<DiscoveryEvent>, j: nat, k: string) {
    && j < |events| && Tells(events[j], k)
    && forall l | j < l < |events| :: !Tells(events[l], k)
  }

  lemma {:induction false} NoneAbout(events: seq<DiscoveryEvent>, k: string)
    requires forall l | 0 <= l < |events| :: !Tells(events[l], k)
    ensures About(events, k) == []
  {
    hide InstanceKey, Blank;
    if events != [] {
      assert !Tells(events[|events| - 1], k);
      NoneAbout(events[..|events| - 1], k);
    }
  }

  lemma {:induction false} LastLeaves(events: seq<DiscoveryEvent>, j: nat, k: string)
    requires IsLast(events, j, k)
    ensures Left(events, k) == Outcome(events[j])
  {
    hide InstanceKey, Blank;
    var n := |events| - 1;
    assert Visible(events[j]) && InstanceKey(events[j].instance) == k;
    if j < n {
      assert !Tells(events[n], k);
      LastLeaves(events[..n], j, k);
    }
  }

  lemma {:induction false} KeptAbout(events: seq<DiscoveryEvent>, mask: seq<bool>, k: string)
    requires |events| == |mask| && forall l | 0 <= l < |events| :: !Tells(events[l], k)
    ensures About(Kept(events, mask), k) == []
  {
    hide InstanceKey, Blank;
    if events != [] {
      var n := |events| - 1;
      KeptAbout(events[..n], mask[..n], k);
      assert !Tells(events[n], k);
      AboutConcat(Kept(events[..n], mask[..n]), if mask[n] then [events[n]] else [], k);
      AboutSingle(events[n], k);
    }
  }

  lemma AboutSingle(e: DiscoveryEvent, k: string)
    ensures About([e], k) == if Tells(e, k) then [e] else []
  {
    assert [e][..0] == [];
  }

  /** The last event about `k` decides also after others were lost, if it was itself kept. */
  lemma {:induction false} LastKept(events: seq<DiscoveryEvent>, mask: seq<bool>, j: nat, k: string)
    requires |events| == |mask| && IsLast(events, j, k) && mask[j]
    ensures Left(Kept(events, mask), k) == Outcome(events[j]) && About(Kept(events, mask), k) != []
  {
    hide InstanceKey, Blank;
    var n := |events| - 1;
    assert Tells(events[j], k);
    AboutConcat(Kept(events[..n], mask[..n]), if mask[n] then [events[n]] else [], k);
    AboutSingle(events[n], k);
    if j < n {
      assert !Tells(events[n], k);
      LastKept(events[..n], mask[..n], j, k);
      assert About(Kept(events[..n], mask[..n]), k) + [] == About(Kept(events[..n], mask[..n]), k);
    }
  }

  lemma LeftConcat(a: seq<DiscoveryEvent>, b: seq<DiscoveryEvent>, k: string)
    ensures Left(a + b, k) == if About(b, k) == [] then Left(a, k) else Left(b, k)
  {
    AboutConcat(a, b, k);
    if About(b, k) == [] {
      assert About(a, k) + [] == About(a, k);
    }
  }

  /** What the watcher's stream and the registry's table come down to under one key. */
  lemma BothSides(actions: seq<Action>, i: ChanId, k: string)
    requires i < |MemoryRegistry.Run(actions).channels| && MemoryRegistry.Run(actions).channels[i].until.None?
    ensures
      var s := MemoryRegistry.Run(actions);
      var c := s.channels[i];
      && Spans(c, s.log) && |Seen(c, s.log)| == |c.mask|
      && c.received + c.queue == c.snapshot + Kept(Seen(c, s.log), c.mask)
      && Lookup(Replay(map[], c.received + c.queue), k) == Left(c.received + c.queue, k)
      && Lookup(At(s.instances, c.service), k) == Left(c.snapshot + Seen(c, s.log), k)
  {
    hide MemoryRegistry.Run, On, Kept, Replay, Left, Lookup;
    MemoryRegistry.RunKeeps(actions);
    var s := MemoryRegistry.Run(actions);
    var c := s.channels[i];
    assert ChannelOk(s, i);
    ReplayLeaves(c.received + c.queue, k);
    ReplayLeaves(c.snapshot + Seen(c, s.log), k);
    ReplayConcat(map[], c.snapshot, Seen(c, s.log));
  }

  /**
   A registered watcher that lost events still agrees with the registry on every instance of which
   nothing was published since it came, or whose last publication it got. Where that one was lost,
   they agree exactly when what the watcher got before already says the same.
   */
  lemma LossyMirror(actions: seq<Action>, i: ChanId, k: string)
    requires i < |MemoryRegistry.Run(actions).channels| && MemoryRegistry.Run(actions).channels[i].until.None?
    ensures
      var s := MemoryRegistry.Run(actions);
      var c := s.channels[i];
      && Spans(c, s.log) && |Seen(c, s.log)| == |c.mask|
      && var seen := Seen(c, s.log);
         var agree := Lookup(Replay(map[], c.received + c.queue), k) == Lookup(At(s.instances, c.service), k);
      && ((forall l | 0 <= l < |seen| :: !Tells(seen[l], k)) ==> agree)
      && (forall j: nat | IsLast(seen, j, k) && c.mask[j] :: agree)
      && (forall j: nat | IsLast(seen, j, k) && !c.mask[j] ::
            agree <==> Left(c.received + c.queue, k) == Outcome(seen[j]))
  {
    hide MemoryRegistry.Run, On, Kept, Replay, Left, Lookup, Seen, Tells, Outcome;
    BothSides(actions, i, k);
    var s := MemoryRegistry.Run(actions);
    var c := s.channels[i];
    var seen := Seen(c, s.log);
    LeftConcat(c.snapshot, Kept(seen, c.mask), k);
    LeftConcat(c.snapshot, seen, k);
    if forall l | 0 <= l < |seen| :: !Tells(seen[l], k) {
      NoneAbout(seen, k);
      KeptAbout(seen, c.mask, k);
    }
    forall j: nat | IsLast(seen, j, k)
      ensures Left(c.snapshot + seen, k) == Outcome(seen[j])
      ensures c.mask[j] ==> Left(c.snapshot + Kept(seen, c.mask), k) == Outcome(seen[j])
    {
      LastLeaves(seen, j, k);
      LastAbout(seen, j, k);
      if c.mask[j] {
        LastKept(seen, c.mask, j, k);
      }
    }
  }

  lemma LastAbout(events: seq<DiscoveryEvent>, j: nat, k: string)
    requires IsLast(events, j, k)
    ensures About(events, k) != []
  {
    LastKeptAll(events, seq(|events|, _ => true), j, k);
  }

  lemma LastKeptAll(events: seq<DiscoveryEvent>, mask: seq<bool>, j: nat, k: string)
    requires |events| == |mask| && IsLast(events, j, k) && forall l | 0 <= l < |mask| :: mask[l]
    ensures About(events, k) != []
  {
    hide InstanceKey, Blank, Tells;
    LastKept(events, mask, j, k);
    KeptAll(events, mask);
  }
}
