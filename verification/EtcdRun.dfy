/**
 The watcher against etcd itself: when the client's reads and watches are those of one log, the runs
 of the watch loop are exactly the runs over that log.
 */
module EtcdRun {
  import opened Wrappers
  import opened Discovery
  import opened DiscoveryChannel
  import opened EtcdLog
  import opened EtcdChannel
  import opened EtcdDiscovery

  /**
   An etcd cluster as one client meets it: everything that is ever written, the positions whose
   previous values are gone, the position that the n-th read sees, and how far the n-th watch gets.
   */
  datatype Etcd = Etcd(
    scope: Scope,
    log: seq<Entry>,
    compacted: set<nat>,
    readAt: nat -> nat,
    watchTo: (nat, nat) -> nat)

  /** A watch opened behind the revision of `position` delivers the entries after it, in order, up to some point. */
  ghost predicate Watches(e: Etcd, client: Client, w: nat, position: nat)
    requires position <= |e.log|
  {
    && position <= e.watchTo(w, position) <= |e.log|
    && Delivered(client.watches(w, Some(Revision(position) + 1)))
       == Feed(e.scope, e.log, e.compacted, position, e.watchTo(w, position))
  }

  /** A read that succeeds returns the store at some position, under that position's revision. */
  ghost predicate Answers(e: Etcd, client: Client, n: nat) {
    client.gets(n).Success? ==>
      && e.readAt(n) <= |e.log|
      && Reads(client.gets(n).value.kvs, e.scope, StoreAt(e.log[..e.readAt(n)]))
      && client.gets(n).value.revision == Revision(e.readAt(n))
  }

  ghost predicate Backs(e: Etcd, client: Client) {
    && (forall n: nat :: Answers(e, client, n))
    && (forall w: nat, position: nat | position <= |e.log| :: Watches(e, client, w, position))
  }

  lemma LaidOutPrefix(scope: Scope, layout: Layout, log: seq<Entry>, n: nat)
    requires LaidOut(scope, layout, log) && n <= |log|
    ensures LaidOut(scope, layout, log[..n])
  {
    hide Placed;
    assert forall i | 0 <= i < n :: log[..n][i] == log[i];
  }

  /** What a load makes of such a read. */
  lemma LoadIsView(e: Etcd, layout: Layout, client: Client, n: nat)
    requires Backs(e, client) && LaidOut(e.scope, layout, e.log) && LoadResult(client.gets(n)).Success?
    ensures e.readAt(n) <= |e.log|
    ensures LoadResult(client.gets(n)).value == (View(layout, StoreAt(e.log[..e.readAt(n)])), Revision(e.readAt(n)))
  {
    hide Load, View, StoreAt, LaidOut, Reads;
    assert Answers(e, client, n);
    LaidOutPrefix(e.scope, layout, e.log, e.readAt(n));
    ReloadIsView(client.gets(n).value.kvs, e.scope, layout, e.log[..e.readAt(n)]);
  }

  /** The position that turn `i` watches from: that of the read before it. */
  ghost function PositionBefore(e: Etcd, loads: seq<nat>, first: nat, i: nat): nat
    requires i <= |loads|
  {
    if i == 0 then first else e.readAt(loads[i - 1])
  }

  ghost function LegsOf(e: Etcd, loads: seq<nat>, firstWatch: nat, first: nat): (legs: seq<Leg>)
    ensures |legs| == |loads|
    ensures forall i | 0 <= i < |legs| ::
      legs[i] == Leg(e.watchTo(firstWatch + i, PositionBefore(e, loads, first, i)), e.readAt(loads[i]))
  {
    seq(|loads|, i requires 0 <= i < |loads| =>
          Leg(e.watchTo(firstWatch + i, PositionBefore(e, loads, first, i)), e.readAt(loads[i])))
  }

  lemma FromIsBefore(e: Etcd, loads: seq<nat>, firstWatch: nat, first: nat, i: nat)
    requires i <= |loads|
    ensures From(first, LegsOf(e, loads, firstWatch, first), i) == PositionBefore(e, loads, first, i)
  {
  }

  /** The revision that a turn starts behind is that of the position before it. */
  lemma RevisionIsBefore(w: ServiceWatch, e: Etcd, layout: Layout, loads: seq<nat>, first: nat, i: nat)
    requires Backs(e, w.client) && LaidOut(e.scope, layout, e.log) && first <= |e.log| && i <= |loads|
    requires forall j | 0 <= j < |loads| :: LoadResult(w.client.gets(loads[j])).Success?
    ensures PositionBefore(e, loads, first, i) <= |e.log|
    ensures w.RevisionBefore(loads, Revision(first), i) == Revision(PositionBefore(e, loads, first, i))
  {
    hide Backs, LaidOut, View, StoreAt, LoadResult;
    if i > 0 {
      LoadIsView(e, layout, w.client, loads[i - 1]);
    }
  }

  /** One turn of the loop is one leg over the log. */
  lemma TurnIsLeg(w: ServiceWatch, e: Etcd, layout: Layout, round: Round, load: nat, watch: nat, position: nat)
    requires Backs(e, w.client) && LaidOut(e.scope, layout, e.log) && position <= |e.log|
    requires w.TurnOf(round, load, watch, Revision(position))
    ensures position <= e.watchTo(watch, position) <= |e.log| && e.readAt(load) <= |e.log|
    ensures round
         == RoundOf(e.scope, layout, e.log, e.compacted, position, Leg(e.watchTo(watch, position), e.readAt(load)))
  {
    hide LaidOut, View, StoreAt, Feed, Delivered, LoadResult;
    assert Watches(e, w.client, watch, position);
    LoadIsView(e, layout, w.client, load);
  }

  /** The completed turns of the loop are the legs of a run over the log. */
  lemma RoundsAreLegs(w: ServiceWatch, e: Etcd, layout: Layout, rounds: seq<Round>, loads: seq<nat>, first: nat,
                      firstWatch: nat, firstRead: nat)
    requires Backs(e, w.client) && LaidOut(e.scope, layout, e.log) && first <= |e.log|
    requires w.FromClient(rounds, loads, Revision(first), firstWatch, firstRead)
    ensures
      var legs := LegsOf(e, loads, firstWatch, first);
      Within(e.log, first, legs) && rounds == RoundsOf(e.scope, layout, e.log, e.compacted, first, legs)
  {
    hide Backs, LaidOut, View, StoreAt, Feed, Delivered, LoadResult, RoundOf;
    var legs := LegsOf(e, loads, firstWatch, first);
    LoadsSucceed(w, rounds, loads, Revision(first), firstWatch, firstRead);
    forall i | 0 <= i < |legs|
      ensures From(first, legs, i) <= legs[i].delivered <= |e.log| && legs[i].reloaded <= |e.log|
      ensures rounds[i] == RoundOf(e.scope, layout, e.log, e.compacted, From(first, legs, i), legs[i])
    {
      FromIsBefore(e, loads, firstWatch, first, i);
      RevisionIsBefore(w, e, layout, loads, first, i);
      assert w.TurnOf(rounds[i], loads[i], firstWatch + i, w.RevisionBefore(loads, Revision(first), i));
      TurnIsLeg(w, e, layout, rounds[i], loads[i], firstWatch + i, PositionBefore(e, loads, first, i));
    }
  }

  lemma LoadsSucceed(w: ServiceWatch, rounds: seq<Round>, loads: seq<nat>, revision: nat, firstWatch: nat, firstRead: nat)
    requires w.FromClient(rounds, loads, revision, firstWatch, firstRead)
    ensures |loads| == |rounds| && forall j | 0 <= j < |loads| :: LoadResult(w.client.gets(loads[j])).Success?
  {
    hide Delivered, LoadResult;
    forall j | 0 <= j < |loads| ensures LoadResult(w.client.gets(loads[j])).Success? {
      assert w.TurnOf(rounds[j], loads[j], firstWatch + j, w.RevisionBefore(loads, revision, j));
    }
  }

  /** An initial part of what a watch delivers is what it delivers up to some earlier point. */
  lemma {:induction false} FeedPrefix(e: Etcd, lo: nat, hi: nat, part: seq<WatchEvent>) returns (mid: nat)
    requires lo <= hi <= |e.log| && part <= Feed(e.scope, e.log, e.compacted, lo, hi)
    ensures lo <= mid <= hi && part == Feed(e.scope, e.log, e.compacted, lo, mid)
  {
    if lo == hi || part == Feed(e.scope, e.log, e.compacted, lo, hi) {
      mid := hi;
    } else {
      var shorter := Feed(e.scope, e.log, e.compacted, lo, hi - 1);
      assert |Feed(e.scope, e.log, e.compacted, lo, hi)| <= |shorter| + 1;
      assert part <= shorter;
      mid := FeedPrefix(e, lo, hi - 1, part);
    }
  }

  /** How far the watch of the last, possibly interrupted turn got. */
  lemma LastReached(w: ServiceWatch, e: Etcd, last: Round, start: Snapshot, at: nat, watch: nat, position: nat)
    returns (reached: nat)
    requires Backs(e, w.client) && position <= |e.log|
    requires w.Unfinished(last, start, at, watch, Revision(position))
    ensures position <= reached <= |e.log| && last.events == Feed(e.scope, e.log, e.compacted, position, reached)
  {
    hide Feed, Delivered, LoadResult;
    assert Watches(e, w.client, watch, position);
    reached := FeedPrefix(e, position, e.watchTo(watch, position), last.events);
  }

  lemma NoDiff(snapshot: Snapshot)
    requires WellKeyed(snapshot)
    ensures Diff(snapshot, snapshot) == []
  {
    hide Diff, WellKeyed, InstanceKey;
    var events := Diff(snapshot, snapshot);
    if events != [] {
      DiffEvery(snapshot, snapshot, InstanceKey(events[|events| - 1].instance));
    }
  }

  /** The last turn sends at most what the leg from `position` to where its watch got sends. */
  lemma LastLeg(w: ServiceWatch, e: Etcd, layout: Layout, start: Snapshot, rounds: seq<Round>, last: Round, at: nat,
                watch: nat, position: nat)
    returns (leg: Leg)
    requires Backs(e, w.client) && LaidOut(e.scope, layout, e.log) && position <= |e.log|
    requires LoadedRounds(rounds) && RunSnapshot(start, rounds) == View(layout, StoreAt(e.log[..position]))
    requires w.Unfinished(last, RunSnapshot(start, rounds), at, watch, Revision(position))
    ensures position <= leg.delivered <= |e.log| && leg.reloaded <= |e.log|
    ensures RunStream(start, rounds + [last])
         <= RunStream(start, rounds + [RoundOf(e.scope, layout, e.log, e.compacted, position, leg)])
  {
    hide Backs, LaidOut, View, StoreAt, Feed, Delivered, RunStream, Replay, Diff, LoadedRounds, WellKeyed, LoadResult;
    hide RunSnapshot;
    var reached := LastReached(w, e, last, RunSnapshot(start, rounds), at, watch, position);
    if LoadResult(w.client.gets(at)).Success? && LoadResult(w.client.gets(at)).value.0 == last.next {
      LoadIsView(e, layout, w.client, at);
      leg := Leg(reached, e.readAt(at));
    } else {
      leg := Leg(reached, reached);
      var whole := RoundOf(e.scope, layout, e.log, e.compacted, position, leg);
      PrefixView(e.scope, layout, e.log, position);
      PrefixView(e.scope, layout, e.log, reached);
      ReplayWellKeyed(RunSnapshot(start, rounds), Emit(last.events));
      NoDiff(last.next);
      LastRound(start, rounds, last);
      LastRound(start, rounds, whole);
    }
  }

  lemma PrefixView(scope: Scope, layout: Layout, log: seq<Entry>, n: nat)
    requires LaidOut(scope, layout, log) && n <= |log|
    ensures WellKeyed(View(layout, StoreAt(log[..n])))
  {
    hide LaidOut, WellKeyed, View, StoreAt;
    LaidOutPrefix(scope, layout, log, n);
    ViewWellKeyed(scope, layout, log[..n]);
  }

  ghost function StreamOf(e: Etcd, layout: Layout, first: nat, legs: seq<Leg>): seq<DiscoveryEvent>
    requires Within(e.log, first, legs)
  {
    RunStream(View(layout, StoreAt(e.log[..first])), RoundsOf(e.scope, layout, e.log, e.compacted, first, legs))
  }

  /** The stream of a run up to where the watch of its last leg ends. */
  ghost function UpToWatch(e: Etcd, layout: Layout, first: nat, legs: seq<Leg>): seq<DiscoveryEvent>
    requires legs != [] && Within(e.log, first, legs) && Within(e.log, first, legs[..|legs| - 1])
  {
    var n := |legs| - 1;
    StreamOf(e, layout, first, legs[..n])
    + Emit(Feed(e.scope, e.log, e.compacted, From(first, legs, n), legs[n].delivered))
  }

  /**
   What has been sent is the stream of a run over the log in which every watch starts where the read
   before it left off: all of the legs but the last, what the watch of the last one delivered, and as
   much of its resync as was sent before the end.
   */
  ghost predicate RunsOnLog(e: Etcd, layout: Layout, first: nat, legs: seq<Leg>, sent: seq<DiscoveryEvent>) {
    && legs != []
    && Within(e.log, first, legs)
    && Within(e.log, first, legs[..|legs| - 1])
    && UpToWatch(e, layout, first, legs) <= sent <= StreamOf(e, layout, first, legs)
  }

  /** One more leg is one more round. */
  lemma LegsGrow(e: Etcd, layout: Layout, first: nat, legs: seq<Leg>, leg: Leg)
    requires Within(e.log, first, legs)
    requires From(first, legs, |legs|) <= leg.delivered <= |e.log| && leg.reloaded <= |e.log|
    ensures Within(e.log, first, legs + [leg])
    ensures RoundsOf(e.scope, layout, e.log, e.compacted, first, legs + [leg])
         == RoundsOf(e.scope, layout, e.log, e.compacted, first, legs)
            + [RoundOf(e.scope, layout, e.log, e.compacted, From(first, legs, |legs|), leg)]
  {
    hide RoundOf, RoundsOf;
    var more := legs + [leg];
    assert more[..|more| - 1] == legs;
    forall i | 0 <= i < |more|
      ensures From(first, more, i) <= more[i].delivered <= |e.log| && more[i].reloaded <= |e.log|
    {
      if i < |legs| {
        FromShorter(first, more, i);
      }
    }
    RoundsShorter(e.scope, layout, e.log, e.compacted, first, more);
  }

  /** An initial part of what a stretch of the log makes the watcher send is what a shorter one does. */
  lemma {:induction false} EmitPrefix(e: Etcd, lo: nat, hi: nat, part: seq<DiscoveryEvent>) returns (mid: nat)
    requires lo <= hi <= |e.log| && part <= Emit(Feed(e.scope, e.log, e.compacted, lo, hi))
    ensures lo <= mid <= hi && part == Emit(Feed(e.scope, e.log, e.compacted, lo, mid))
  {
    hide Emit, Feed, Observe;
    if lo == hi || part == Emit(Feed(e.scope, e.log, e.compacted, lo, hi)) {
      mid := hi;
      if lo == hi {
        NothingFed(e.scope, e.log, e.compacted, lo, map[]);
      }
    } else {
      FeedStep(e.scope, e.log, e.compacted, lo, hi);
      assert part <= Emit(Feed(e.scope, e.log, e.compacted, lo, hi - 1));
      mid := EmitPrefix(e, lo, hi - 1, part);
    }
  }

  /** What a leg adds to the stream: its increments and its resync. */
  lemma LegStream(e: Etcd, layout: Layout, first: nat, legs: seq<Leg>)
    requires LaidOut(e.scope, layout, e.log) && legs != []
    requires Within(e.log, first, legs) && Within(e.log, first, legs[..|legs| - 1])
    ensures
      var n := |legs| - 1;
      var from := From(first, legs, n);
      && from <= legs[n].delivered <= |e.log| && legs[n].reloaded <= |e.log|
      && StreamOf(e, layout, first, legs)
         == UpToWatch(e, layout, first, legs)
            + Diff(Incremental(e.scope, layout, e.log, e.compacted, from, legs[n].delivered),
                   View(layout, StoreAt(e.log[..legs[n].reloaded])))
  {
    hide LaidOut, View, StoreAt, Feed, Emit, RunStream, Replay, Diff, LoadedRounds, WellKeyed, RunSnapshot, RoundsOf;
    hide Within, From;
    var n := |legs| - 1;
    WithinShorter(e.log, first, legs);
    WithinFirst(e.log, first, legs);
    RoundsShorter(e.scope, layout, e.log, e.compacted, first, legs);
    RoundsLoaded(e.scope, layout, e.log, e.compacted, first, legs[..n]);
    LegStart(e.scope, layout, e.log, e.compacted, first, legs[..n]);
    PrefixView(e.scope, layout, e.log, legs[n].reloaded);
    LastRound(View(layout, StoreAt(e.log[..first])),
              RoundsOf(e.scope, layout, e.log, e.compacted, first, legs[..n]),
              RoundOf(e.scope, layout, e.log, e.compacted, From(first, legs, n), legs[n]));
  }

  /** The same of a leg that comes behind the others. */
  lemma NextLegStream(e: Etcd, layout: Layout, first: nat, done: seq<Leg>, leg: Leg)
    requires LaidOut(e.scope, layout, e.log) && Within(e.log, first, done)
    requires From(first, done, |done|) <= leg.delivered <= |e.log| && leg.reloaded <= |e.log|
    ensures
      var legs := done + [leg];
      && Within(e.log, first, legs) && legs[..|legs| - 1] == done
      && UpToWatch(e, layout, first, legs)
         == StreamOf(e, layout, first, done)
            + Emit(Feed(e.scope, e.log, e.compacted, From(first, done, |done|), leg.delivered))
      && UpToWatch(e, layout, first, legs) <= StreamOf(e, layout, first, legs)
  {
    hide LaidOut, View, StoreAt, Feed, Emit, RunStream, Replay, Diff, RoundsOf, Within;
    var legs := done + [leg];
    LegsGrow(e, layout, first, done, leg);
    assert legs[..|legs| - 1] == done;
    assert From(first, legs, |done|) == From(first, done, |done|);
    LegStream(e, layout, first, legs);
  }

  /** A last leg that was cut short within its watch is one whose watch got only that far. */
  lemma CutLeg(e: Etcd, layout: Layout, first: nat, done: seq<Leg>, leg: Leg, sent: seq<DiscoveryEvent>)
    returns (cut: Leg)
    requires LaidOut(e.scope, layout, e.log) && Within(e.log, first, done)
    requires From(first, done, |done|) <= leg.delivered <= |e.log| && leg.reloaded <= |e.log|
    requires Within(e.log, first, done + [leg])
    requires StreamOf(e, layout, first, done) <= sent <= StreamOf(e, layout, first, done + [leg])
    ensures RunsOnLog(e, layout, first, done + [cut], sent)
  {
    hide LaidOut, Feed, Emit, StreamOf, UpToWatch, Within, From;
    NextLegStream(e, layout, first, done, leg);
    var from, base := From(first, done, |done|), StreamOf(e, layout, first, done);
    var increments := Emit(Feed(e.scope, e.log, e.compacted, from, leg.delivered));
    if |base| + |increments| <= |sent| {
      cut := leg;
      assert UpToWatch(e, layout, first, done + [leg]) <= sent;
    } else {
      var part := sent[|base|..];
      assert base + part == sent;
      assert sent <= base + increments;
      var reached := EmitPrefix(e, from, leg.delivered, part);
      cut := Leg(reached, leg.reloaded);
      NextLegStream(e, layout, first, done, cut);
    }
  }

  /** A run of the loop on the client's answers is a run over the log. */
  lemma LoopRunsOnLog(w: ServiceWatch, e: Etcd, layout: Layout, first: nat, rounds: seq<Round>, loads: seq<nat>,
                      last: Round, at: nat, firstWatch: nat, firstRead: nat, start: Snapshot, sent: seq<DiscoveryEvent>)
    returns (legs: seq<Leg>)
    requires Backs(e, w.client) && LaidOut(e.scope, layout, e.log) && first <= |e.log|
    requires start == View(layout, StoreAt(e.log[..first]))
    requires w.FromClient(rounds, loads, Revision(first), firstWatch, firstRead)
    requires w.Unfinished(last, RunSnapshot(start, rounds), at, firstWatch + |rounds|,
                          w.RevisionBefore(loads, Revision(first), |loads|))
    requires RunStream(start, rounds) <= sent <= RunStream(start, rounds + [last])
    ensures RunsOnLog(e, layout, first, legs, sent)
  {
    hide Backs, LaidOut, View, StoreAt, Feed, Delivered, LoadResult, RunStream, Replay, RoundOf, RunSnapshot;
    hide EtcdDiscovery.ServiceWatch.FromClient, EtcdDiscovery.ServiceWatch.Unfinished, LoadedRounds;
    hide EtcdDiscovery.ServiceWatch.RevisionBefore, RoundsOf, Within, From, LegsOf, PositionBefore;
    RoundsAreLegs(w, e, layout, rounds, loads, first, firstWatch, firstRead);
    legs := LegsOf(e, loads, firstWatch, first);
    LoadsSucceed(w, rounds, loads, Revision(first), firstWatch, firstRead);
    RevisionIsBefore(w, e, layout, loads, first, |loads|);
    FromIsBefore(e, loads, firstWatch, first, |loads|);
    LegStart(e.scope, layout, e.log, e.compacted, first, legs);
    RoundsLoaded(e.scope, layout, e.log, e.compacted, first, legs);
    var leg := LastLeg(w, e, layout, start, rounds, last, at, firstWatch + |rounds|,
                       PositionBefore(e, loads, first, |loads|));
    LegsGrow(e, layout, first, legs, leg);
    assert (legs + [leg])[..|legs|] == legs;
    var cut := CutLeg(e, layout, first, legs, leg, sent);
    legs := legs + [cut];
  }

  /** Watch from its first load to the end of its loop, on a log. */
  method WatchService(w: ServiceWatch, ghost e: Etcd, ghost layout: Layout)
    returns (ok: bool, ghost first: nat, ghost legs: seq<Leg>)
    requires w.Valid() && w.snapshot == map[] && w.sent == []
    requires Backs(e, w.client) && LaidOut(e.scope, layout, e.log)
    modifies w, w.ctx, w.client
    ensures if ok then RunsOnLog(e, layout, first, legs, w.sent) else w.sent == []
  {
    hide Backs, LaidOut, View, StoreAt, LoadResult, RunStream, RunSnapshot, RunsOnLog, Reported;
    hide EtcdDiscovery.ServiceWatch.FromClient, EtcdDiscovery.ServiceWatch.Unfinished;
    hide EtcdDiscovery.ServiceWatch.RevisionBefore, LoadedRounds;
    first, legs := 0, [];
    ghost var read, watch := w.client.readCount, w.client.watchCount;
    var started := w.Start();
    if started.Failure? {
      return false, first, legs;
    }
    LoadIsView(e, layout, w.client, read);
    first := e.readAt(read);
    ghost var start, firstRead := w.snapshot, w.client.readCount;
    ghost var rounds, loads, last, at;
    rounds, loads, last, at := w.WatchLoop();
    legs := LoopRunsOnLog(w, e, layout, first, rounds, loads, last, at, watch, firstRead, start, w.sent);
    ok := true;
  }
}
