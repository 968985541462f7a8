/**
 The events as they go over the channel. Unlike a snapshot, the channel also carries events whose
 address is blank; here the stream grammar is taken over all of them.
 */
module DiscoveryChannel {
  import opened Text
  import opened Discovery

  /** All the events about one instance key, in stream order, with or without a usable address. */
  function Every(events: seq<DiscoveryEvent>, k: string): seq<DiscoveryEvent> {
    if events == [] then []
    else
      var init := Every(events[..|events| - 1], k);
      var e := events[|events| - 1];
      if InstanceKey(e.instance) == k then init + [e] else init
  }

  function Announce(alive: set<string>, e: DiscoveryEvent): set<string> {
    if e.kind.Removed? then alive - {InstanceKey(e.instance)} else alive + {InstanceKey(e.instance)}
  }

  /** The instance keys that the channel has announced and not removed since. */
  function Announced(alive: set<string>, events: seq<DiscoveryEvent>): set<string> {
    if events == [] then alive
    else Announce(Announced(alive, events[..|events| - 1]), events[|events| - 1])
  }

  /** Added is for a key that is not announced, the others are for one that is. */
  predicate Suits(alive: set<string>, e: DiscoveryEvent) {
    e.kind.Added? <==> InstanceKey(e.instance) !in alive
  }

  predicate Orderly(alive: set<string>, events: seq<DiscoveryEvent>) {
    events == [] ||
    var n := |events| - 1;
    Orderly(alive, events[..n]) && Suits(Announced(alive, events[..n]), events[n])
  }

  lemma EveryOne(init: seq<DiscoveryEvent>, e: DiscoveryEvent, k: string)
    ensures Every(init + [e], k) == if InstanceKey(e.instance) == k then Every(init, k) + [e] else Every(init, k)
  {
    assert (init + [e])[..|init|] == init;
  }

  lemma {:induction false} EveryConcat(a: seq<DiscoveryEvent>, b: seq<DiscoveryEvent>, k: string)
    ensures Every(a + b, k) == Every(a, k) + Every(b, k)
  {
    if b == [] {
      assert a + b == a;
    } else {
      var n := |b| - 1;
      assert (a + b)[..|a + b| - 1] == a + b[..n];
      EveryConcat(a, b[..n], k);
    }
  }

  lemma {:induction false} AnnouncedAt(alive: set<string>, events: seq<DiscoveryEvent>, k: string)
    ensures k in Announced(alive, events) <==> LiveAfter(Every(events, k), k in alive)
  {
    if events != [] {
      AnnouncedAt(alive, events[..|events| - 1], k);
    }
  }

  lemma OrderlyStep(alive: set<string>, init: seq<DiscoveryEvent>, e: DiscoveryEvent, k: string)
    ensures Cyclic(Every(init + [e], k), k in alive)
       <==> Cyclic(Every(init, k), k in alive)
            && (InstanceKey(e.instance) == k ==> Suits(Announced(alive, init), e))
  {
    EveryOne(init, e, k);
    if InstanceKey(e.instance) == k {
      CyclicConcat(Every(init, k), [e], k in alive);
      AnnouncedAt(alive, init, k);
      assert [e][1..] == [];
    }
  }

  /**
   The channel is orderly exactly when, for every instance key, the events about it, whatever
   their addresses, follow (Added Updated* Removed)*.
   */
  lemma {:induction false} OrderlyIsCyclic(alive: set<string>, events: seq<DiscoveryEvent>)
    ensures Orderly(alive, events) <==> forall k :: Cyclic(Every(events, k), k in alive)
  {
    if events != [] {
      var n := |events| - 1;
      var init, e := events[..n], events[n];
      assert events == init + [e];
      OrderlyIsCyclic(alive, init);
      forall k ensures
        Cyclic(Every(events, k), k in alive)
        <==> Cyclic(Every(init, k), k in alive) && (InstanceKey(e.instance) == k ==> Suits(Announced(alive, init), e))
      {
        OrderlyStep(alive, init, e, k);
      }
      if !Suits(Announced(alive, init), e) {
        assert !Cyclic(Every(events, InstanceKey(e.instance)), InstanceKey(e.instance) in alive);
      }
    } else {
      assert forall k :: Cyclic(Every(events, k), k in alive);
    }
  }

  lemma {:induction false} AnnouncedConcat(alive: set<string>, a: seq<DiscoveryEvent>, b: seq<DiscoveryEvent>)
    ensures Announced(alive, a + b) == Announced(Announced(alive, a), b)
  {
    if b == [] {
      assert a + b == a;
    } else {
      var n := |b| - 1;
      assert (a + b)[..|a + b| - 1] == a + b[..n];
      AnnouncedConcat(alive, a, b[..n]);
    }
  }

  lemma {:induction false} OrderlyConcat(alive: set<string>, a: seq<DiscoveryEvent>, b: seq<DiscoveryEvent>)
    ensures Orderly(alive, a + b) <==> Orderly(alive, a) && Orderly(Announced(alive, a), b)
  {
    if b == [] {
      assert a + b == a;
    } else {
      var n := |b| - 1;
      assert (a + b)[..|a + b| - 1] == a + b[..n];
      OrderlyConcat(alive, a, b[..n]);
      AnnouncedConcat(alive, a, b[..n]);
    }
  }

  // ---------------------------------------------------------------- diffs

  ghost predicate AllVisible(events: seq<DiscoveryEvent>) {
    forall i | 0 <= i < |events| :: Visible(events[i])
  }

  lemma {:induction false} VisibleEvery(events: seq<DiscoveryEvent>, k: string)
    requires AllVisible(events)
    ensures Every(events, k) == About(events, k)
  {
    if events != [] {
      VisibleEvery(events[..|events| - 1], k);
    }
  }

  lemma {:induction false} RemovedVisible(keys: seq<string>, prior: Snapshot, next: Snapshot)
    requires WellKeyed(prior) && forall i | 0 <= i < |keys| :: keys[i] in prior
    ensures AllVisible(RemovedEvents(keys, prior, next))
  {
    hide InstanceKey, Blank;
    if keys != [] {
      RemovedVisible(keys[..|keys| - 1], prior, next);
      assert keys[|keys| - 1] in prior;
    }
  }

  lemma {:induction false} ChangedVisible(keys: seq<string>, prior: Snapshot, next: Snapshot)
    requires WellKeyed(next) && forall i | 0 <= i < |keys| :: keys[i] in next
    ensures AllVisible(ChangedEvents(keys, prior, next))
  {
    hide InstanceKey, Blank;
    if keys != [] {
      ChangedVisible(keys[..|keys| - 1], prior, next);
      assert keys[|keys| - 1] in next;
    }
  }

  lemma DiffVisible(prior: Snapshot, next: Snapshot)
    requires WellKeyed(prior) && WellKeyed(next)
    ensures AllVisible(Diff(prior, next))
  {
    hide InstanceKey, Blank, RemovedEvents, ChangedEvents, WellKeyed;
    RemovedVisible(SortedKeys(prior.Keys), prior, next);
    ChangedVisible(SortedKeys(next.Keys), prior, next);
  }

  /** The snapshot that a diff starts from and the channel know the same of every key that it changes. */
  ghost predicate DiffSuits(alive: set<string>, prior: Snapshot, next: Snapshot) {
    forall k | Change(prior, next, k) != [] :: k in alive <==> k in prior
  }

  lemma DiffEvery(prior: Snapshot, next: Snapshot, k: string)
    requires WellKeyed(prior) && WellKeyed(next)
    ensures Every(Diff(prior, next), k) == Change(prior, next, k)
  {
    hide InstanceKey, WellKeyed, Diff, Every, About, AllVisible;
    DiffVisible(prior, next);
    VisibleEvery(Diff(prior, next), k);
    DiffPerKey(prior, next, k);
  }

  lemma OneCyclic(events: seq<DiscoveryEvent>, live: bool)
    requires |events| == 1
    ensures Cyclic(events, live) <==> (events[0].kind.Added? <==> !live)
  {
    assert events[1..] == [];
  }

  /** A resync keeps the channel orderly exactly when the two agree on the keys that it changes. */
  lemma DiffOrderly(alive: set<string>, prior: Snapshot, next: Snapshot)
    requires WellKeyed(prior) && WellKeyed(next)
    ensures Orderly(alive, Diff(prior, next)) <==> DiffSuits(alive, prior, next)
  {
    hide InstanceKey, WellKeyed, Diff, Every, Cyclic, Orderly;
    var events := Diff(prior, next);
    OrderlyIsCyclic(alive, events);
    forall k
      ensures Cyclic(Every(events, k), k in alive)
         <==> (Change(prior, next, k) != [] ==> (k in alive <==> k in prior))
    {
      DiffEvery(prior, next, k);
      if Change(prior, next, k) != [] {
        OneCyclic(Change(prior, next, k), k in alive);
      } else {
        CyclicNone(k in alive);
      }
    }
  }

  /** What was told of a resync before it was cut off suits the channel. */
  ghost predicate PartSuits(alive: set<string>, prior: Snapshot, told: seq<DiscoveryEvent>) {
    forall k | Every(told, k) != [] :: k in alive <==> k in prior
  }

  /** Of what is told about one key, a part is nothing or the whole. */
  lemma PartEvery(prior: Snapshot, next: Snapshot, told: seq<DiscoveryEvent>, k: string)
    requires WellKeyed(prior) && WellKeyed(next) && told <= Diff(prior, next)
    ensures Every(told, k) == [] || Every(told, k) == Change(prior, next, k)
  {
    hide InstanceKey, WellKeyed, Diff, Every;
    var rest := Diff(prior, next)[|told|..];
    assert Diff(prior, next) == told + rest;
    EveryConcat(told, rest, k);
    DiffEvery(prior, next, k);
    assert |Change(prior, next, k)| <= 1;
    if Every(told, k) != [] {
      assert |Every(told, k)| == 1 && Every(rest, k) == [];
    }
  }

  /** A resync that is cut off keeps the channel orderly exactly when the two agree on what was told. */
  lemma PartOrderly(alive: set<string>, prior: Snapshot, next: Snapshot, told: seq<DiscoveryEvent>)
    requires WellKeyed(prior) && WellKeyed(next) && told <= Diff(prior, next)
    ensures Orderly(alive, told) <==> PartSuits(alive, prior, told)
  {
    hide InstanceKey, WellKeyed, Diff, Every, Cyclic, Orderly;
    OrderlyIsCyclic(alive, told);
    forall k ensures Cyclic(Every(told, k), k in alive) <==> (Every(told, k) != [] ==> (k in alive <==> k in prior)) {
      PartEvery(prior, next, told, k);
      if Every(told, k) != [] {
        OneCyclic(Change(prior, next, k), k in alive);
      } else {
        CyclicNone(k in alive);
      }
    }
  }

  lemma CyclicNone(live: bool)
    ensures Cyclic([], live)
  {
  }

  /** What the channel has announced after a resync. */
  lemma DiffAnnounces(alive: set<string>, prior: Snapshot, next: Snapshot, k: string)
    requires WellKeyed(prior) && WellKeyed(next)
    ensures k in Announced(alive, Diff(prior, next))
       <==> if Change(prior, next, k) != [] then k in next else k in alive
  {
    hide InstanceKey, WellKeyed, Diff, Every;
    AnnouncedAt(alive, Diff(prior, next), k);
    DiffEvery(prior, next, k);
  }

  // ---------------------------------------------------------------- whole runs

  /** One more round keeps the channel orderly exactly when its increments and then its diff do. */
  lemma RoundOrderly(first: Snapshot, before: seq<Round>, last: Round)
    requires WellKeyed(first) && LoadedRounds(before + [last])
    ensures
      var alive := Announced({}, RunStream(first, before));
      var mid := Replay(RunSnapshot(first, before), Emit(last.events));
      && (Orderly({}, RunStream(first, before + [last]))
          <==> Orderly({}, RunStream(first, before)) && Orderly(alive, Emit(last.events))
               && DiffSuits(Announced(alive, Emit(last.events)), mid, last.next))
      && Announced({}, RunStream(first, before + [last]))
         == Announced(Announced(alive, Emit(last.events)), Diff(mid, last.next))
  {
    hide WellKeyed, Orderly, Announced, Diff, Emit, Replay, DiffSuits, RunSnapshot;
    var rounds := before + [last];
    var stream, sent := RunStream(first, before), Emit(last.events);
    assert rounds[..|before|] == before && rounds[|before|] == last;
    var mid := Replay(RunSnapshot(first, before), sent);
    RoundsWellKeyed(first, before, last, sent);
    OrderlyConcat({}, stream, sent);
    OrderlyConcat({}, stream + sent, Diff(mid, last.next));
    AnnouncedConcat({}, stream, sent);
    AnnouncedConcat({}, stream + sent, Diff(mid, last.next));
    DiffOrderly(Announced(Announced({}, stream), sent), mid, last.next);
  }

  lemma RoundsWellKeyed(first: Snapshot, before: seq<Round>, last: Round, sent: seq<DiscoveryEvent>)
    requires WellKeyed(first) && LoadedRounds(before + [last])
    ensures WellKeyed(Replay(RunSnapshot(first, before), sent)) && WellKeyed(last.next)
  {
    hide WellKeyed, Replay;
    var rounds := before + [last];
    assert rounds[|before|] == last;
    if before != [] {
      assert rounds[|before| - 1] == before[|before| - 1];
    }
    ReplayWellKeyed(RunSnapshot(first, before), sent);
  }

  /** The first snapshot is announced in full and in order. */
  lemma FirstOrderly(first: Snapshot)
    requires WellKeyed(first)
    ensures Orderly({}, Diff(map[], first)) && Announced({}, Diff(map[], first)) == first.Keys
  {
    hide Diff, Orderly, Announced;
    DiffOrderly({}, map[], first);
    forall k ensures k in Announced({}, Diff(map[], first)) <==> k in first {
      DiffAnnounces({}, map[], first, k);
    }
  }
}
