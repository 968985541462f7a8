/**
 The channel of the etcd watcher over a log, events with blank addresses included: exactly when it
 follows the grammar, for one watch and for whole runs with resyncs.
 */
module EtcdChannel {
  import opened Text
  import opened Discovery
  import opened DiscoveryChannel
  import opened EtcdLog

  /** A decodable value, usable or not, is written where the layout places its instance key. */
  ghost predicate Named(layout: Layout, key: string, value: Value) {
    value.Json? ==> key in layout.names && layout.names[key] == InstanceKey(value.instance)
  }

  ghost predicate LaidOutWhole(scope: Scope, layout: Layout, log: seq<Entry>) {
    && layout.OneToOne(scope)
    && forall i | 0 <= i < |log| && log[i].Write? && log[i].key in scope :: Named(layout, log[i].key, log[i].value)
  }

  lemma WholeIsLaidOut(scope: Scope, layout: Layout, log: seq<Entry>)
    requires LaidOutWhole(scope, layout, log)
    ensures LaidOut(scope, layout, log)
  {
    forall i | 0 <= i < |log| && log[i].Write? && log[i].key in scope ensures Placed(layout, log[i].key, log[i].value) {
      assert Named(layout, log[i].key, log[i].value);
    }
  }

  lemma {:induction false} StoreNamed(scope: Scope, layout: Layout, log: seq<Entry>, n: nat, key: string)
    requires n <= |log| && LaidOutWhole(scope, layout, log) && key in scope && key in StoreAt(log[..n])
    ensures Named(layout, key, StoreAt(log[..n])[key])
    decreases n
  {
    hide InstanceKey, Named;
    if n > 0 {
      assert log[..n][..n - 1] == log[..n - 1] && log[..n][n - 1] == log[n - 1];
      if log[n - 1].key != key {
        StoreNamed(scope, layout, log, n - 1, key);
      }
    }
  }

  // ---------------------------------------------------------------- the keys that were announced

  /** The effect of one entry on the etcd keys whose instance the channel has announced. */
  ghost function Learn(scope: Scope, store: Store, entry: Entry, gap: bool, known: set<string>): set<string> {
    match Observe(scope, store, entry, gap)
    case None => known
    case Some(e) => if e.kind.Removed? then known - {entry.key} else known + {entry.key}
  }

  ghost function Known(scope: Scope, log: seq<Entry>, compacted: set<nat>, lo: nat, hi: nat, known: set<string>)
    : set<string>
    requires hi <= |log|
  {
    if hi <= lo then known
    else Learn(scope, StoreAt(log[..hi - 1]), log[hi - 1], hi in compacted,
               Known(scope, log, compacted, lo, hi - 1, known))
  }

  /** An entry that the watch announces finds its key announced exactly when the store has it. */
  ghost predicate Heeds(scope: Scope, store: Store, entry: Entry, gap: bool, known: set<string>) {
    Observe(scope, store, entry, gap).Some? ==> (entry.key in store <==> entry.key in known)
  }

  ghost predicate Proper(scope: Scope, log: seq<Entry>, compacted: set<nat>, lo: nat, hi: nat, known: set<string>)
    requires hi <= |log|
  {
    lo < hi ==>
      && Proper(scope, log, compacted, lo, hi - 1, known)
      && Heeds(scope, StoreAt(log[..hi - 1]), log[hi - 1], hi in compacted,
               Known(scope, log, compacted, lo, hi - 1, known))
  }

  /** The announced instance keys are, through the layout, the announced etcd keys. */
  ghost predicate Matches(layout: Layout, known: set<string>, alive: set<string>) {
    && known <= layout.names.Keys
    && forall k | k in layout.names :: k in known <==> layout.names[k] in alive
  }

  lemma ObserveNamed(scope: Scope, layout: Layout, store: Store, entry: Entry, gap: bool)
    requires Observe(scope, store, entry, gap).Some?
    requires entry.key in scope && entry.Write? ==> Named(layout, entry.key, entry.value)
    requires entry.key in scope && entry.key in store ==> Named(layout, entry.key, store[entry.key])
    ensures entry.key in layout.names
    ensures InstanceKey(Observe(scope, store, entry, gap).value.instance) == layout.names[entry.key]
    ensures Observe(scope, store, entry, gap).value.kind
         == if entry.Erase? then Removed else if entry.key in store then Updated else Added
    ensures entry.Erase? ==> entry.key in store
  {
  }

  /** One announced entry suits the channel exactly when it heeds the log, and both learn the same. */
  lemma EntryMatches(scope: Scope, layout: Layout, store: Store, entry: Entry, gap: bool, known: set<string>,
                     alive: set<string>)
    requires layout.OneToOne(scope) && Matches(layout, known, alive)
    requires Observe(scope, store, entry, gap).Some?
    requires entry.key in scope && entry.Write? ==> Named(layout, entry.key, entry.value)
    requires entry.key in scope && entry.key in store ==> Named(layout, entry.key, store[entry.key])
    ensures var e := Observe(scope, store, entry, gap).value;
      && (Suits(alive, e) <==> Heeds(scope, store, entry, gap, known))
      && Matches(layout, Learn(scope, store, entry, gap, known), Announce(alive, e))
  {
    ObserveNamed(scope, layout, store, entry, gap);
    hide InstanceKey, Observe, Named;
    var e := Observe(scope, store, entry, gap).value;
    forall k | k in layout.names
      ensures k in Learn(scope, store, entry, gap, known) <==> layout.names[k] in Announce(alive, e)
    {
      if k != entry.key {
        Apart(scope, layout, k, entry.key);
      }
    }
  }

  lemma FeedStep(scope: Scope, log: seq<Entry>, compacted: set<nat>, lo: nat, hi: nat)
    requires lo < hi <= |log|
    ensures Emit(Feed(scope, log, compacted, lo, hi))
         == Emit(Feed(scope, log, compacted, lo, hi - 1))
            + match Observe(scope, StoreAt(log[..hi - 1]), log[hi - 1], hi in compacted)
              case Some(e) => [e]
              case None => []
  {
    hide Emit, Observe, Report;
    var report := Report(scope, StoreAt(log[..hi - 1]), log[hi - 1], hi in compacted, Revision(hi));
    EmitConcat(Feed(scope, log, compacted, lo, hi - 1), report);
    EmitReport(scope, StoreAt(log[..hi - 1]), log[hi - 1], hi in compacted, Revision(hi));
  }

  lemma OneMore(alive: set<string>, events: seq<DiscoveryEvent>, e: DiscoveryEvent)
    ensures Orderly(alive, events + [e]) <==> Orderly(alive, events) && Suits(Announced(alive, events), e)
    ensures Announced(alive, events + [e]) == Announce(Announced(alive, events), e)
  {
    assert (events + [e])[..|events|] == events;
  }

  lemma IncrementsOrderlyStep(scope: Scope, layout: Layout, log: seq<Entry>, compacted: set<nat>, lo: nat, hi: nat,
                              known: set<string>, alive: set<string>)
    requires lo < hi <= |log| && LaidOutWhole(scope, layout, log)
    requires Matches(layout, Known(scope, log, compacted, lo, hi - 1, known),
                     Announced(alive, Emit(Feed(scope, log, compacted, lo, hi - 1))))
    ensures
      Orderly(alive, Emit(Feed(scope, log, compacted, lo, hi)))
      <==> Orderly(alive, Emit(Feed(scope, log, compacted, lo, hi - 1)))
           && Heeds(scope, StoreAt(log[..hi - 1]), log[hi - 1], hi in compacted,
                    Known(scope, log, compacted, lo, hi - 1, known))
    ensures Matches(layout, Known(scope, log, compacted, lo, hi, known),
                    Announced(alive, Emit(Feed(scope, log, compacted, lo, hi))))
  {
    hide Emit, Feed, Observe, Named, Suits, Orderly, Announced, Announce, StoreAt, Matches;
    var store, entry, gap := StoreAt(log[..hi - 1]), log[hi - 1], hi in compacted;
    var before := Emit(Feed(scope, log, compacted, lo, hi - 1));
    var learned := Known(scope, log, compacted, lo, hi - 1, known);
    FeedStep(scope, log, compacted, lo, hi);
    if Observe(scope, store, entry, gap).Some? {
      var e := Observe(scope, store, entry, gap).value;
      if entry.key in scope && entry.key in store {
        StoreNamed(scope, layout, log, hi - 1, entry.key);
      }
      OneMore(alive, before, e);
      EntryMatches(scope, layout, store, entry, gap, learned, Announced(alive, before));
    } else {
      assert before + [] == before;
    }
  }

  /**
   One watch keeps the channel orderly exactly when every announced entry finds its key announced
   just when the store has it.
   */
  lemma {:induction false} IncrementsOrderly(scope: Scope, layout: Layout, log: seq<Entry>, compacted: set<nat>,
                                             lo: nat, hi: nat, known: set<string>, alive: set<string>)
    requires lo <= hi <= |log| && LaidOutWhole(scope, layout, log) && Matches(layout, known, alive)
    ensures Orderly(alive, Emit(Feed(scope, log, compacted, lo, hi))) <==> Proper(scope, log, compacted, lo, hi, known)
    ensures Matches(layout, Known(scope, log, compacted, lo, hi, known),
                    Announced(alive, Emit(Feed(scope, log, compacted, lo, hi))))
  {
    if lo < hi {
      hide Emit, Feed, Observe, Orderly, Announced, StoreAt, Matches, Heeds, LaidOutWhole;
      IncrementsOrderly(scope, layout, log, compacted, lo, hi - 1, known, alive);
      IncrementsOrderlyStep(scope, layout, log, compacted, lo, hi, known, alive);
    }
  }

  // ---------------------------------------------------------------- whole runs

  /** The incremental snapshot at the end of a watch from `lo` to `hi`. */
  ghost function Incremental(scope: Scope, layout: Layout, log: seq<Entry>, compacted: set<nat>, lo: nat, hi: nat)
    : Snapshot
    requires lo <= hi <= |log|
  {
    Replay(View(layout, StoreAt(log[..lo])), Emit(Feed(scope, log, compacted, lo, hi)))
  }

  /** The etcd keys announced after a resync: of those it touches, the ones that the reload lists. */
  ghost function Resynced(layout: Layout, known: set<string>, prior: Snapshot, next: Snapshot): set<string> {
    set k | k in layout.names.Keys
            && if Change(prior, next, layout.names[k]) != [] then layout.names[k] in next else k in known
  }

  /** Every key that the resync touches is announced exactly when the incremental snapshot holds it. */
  ghost predicate ResyncHeeds(layout: Layout, known: set<string>, prior: Snapshot, next: Snapshot) {
    forall k | k in layout.names && Change(prior, next, layout.names[k]) != [] ::
      k in known <==> layout.names[k] in prior
  }

  /** The etcd keys that the first load announces. */
  function ListedKeys(layout: Layout, store: Store): set<string> {
    set k | k in layout.names.Keys && Listed(store, k)
  }

  /** The etcd keys that the channel has announced after all the legs of a run. */
  ghost function KnownAfter(scope: Scope, layout: Layout, log: seq<Entry>, compacted: set<nat>, first: nat,
                            legs: seq<Leg>): set<string>
    requires Within(log, first, legs)
  {
    if legs == [] then ListedKeys(layout, StoreAt(log[..first]))
    else
      var n := |legs| - 1;
      WithinShorter(log, first, legs);
      var from, leg := From(first, legs, n), legs[n];
      Resynced(layout,
               Known(scope, log, compacted, from, leg.delivered,
                     KnownAfter(scope, layout, log, compacted, first, legs[..n])),
               Incremental(scope, layout, log, compacted, from, leg.delivered),
               View(layout, StoreAt(log[..leg.reloaded])))
  }

  /** In every leg the watch is proper, and the resync heeds what has been announced by then. */
  ghost predicate ProperLegs(scope: Scope, layout: Layout, log: seq<Entry>, compacted: set<nat>, first: nat,
                             legs: seq<Leg>)
    requires Within(log, first, legs)
  {
    legs == [] ||
    var n := |legs| - 1;
    WithinShorter(log, first, legs);
    var from, leg := From(first, legs, n), legs[n];
    var known := KnownAfter(scope, layout, log, compacted, first, legs[..n]);
    && ProperLegs(scope, layout, log, compacted, first, legs[..n])
    && Proper(scope, log, compacted, from, leg.delivered, known)
    && ResyncHeeds(layout, Known(scope, log, compacted, from, leg.delivered, known),
                   Incremental(scope, layout, log, compacted, from, leg.delivered),
                   View(layout, StoreAt(log[..leg.reloaded])))
  }

  lemma WithinShorter(log: seq<Entry>, first: nat, legs: seq<Leg>)
    requires Within(log, first, legs) && legs != []
    ensures
      var n := |legs| - 1;
      && Within(log, first, legs[..n])
      && From(first, legs, n) == From(first, legs[..n], n)
      && From(first, legs, n) <= legs[n].delivered <= |log| && legs[n].reloaded <= |log|
  {
    var n := |legs| - 1;
    forall i | 0 <= i < n
      ensures From(first, legs[..n], i) <= legs[..n][i].delivered <= |log| && legs[..n][i].reloaded <= |log|
    {
      assert From(first, legs, i) <= legs[i].delivered;
    }
  }

  lemma RoundsShorter(scope: Scope, layout: Layout, log: seq<Entry>, compacted: set<nat>, first: nat, legs: seq<Leg>)
    requires Within(log, first, legs) && legs != []
    ensures
      var n := |legs| - 1;
      && Within(log, first, legs[..n])
      && From(first, legs, n) <= legs[n].delivered
      && RoundsOf(scope, layout, log, compacted, first, legs)
         == RoundsOf(scope, layout, log, compacted, first, legs[..n])
            + [RoundOf(scope, layout, log, compacted, From(first, legs, n), legs[n])]
  {
    hide RoundOf, Within, From;
    var n := |legs| - 1;
    WithinShorter(log, first, legs);
    var rounds, shorter := RoundsOf(scope, layout, log, compacted, first, legs),
                           RoundsOf(scope, layout, log, compacted, first, legs[..n]);
    forall i | 0 <= i < n ensures shorter[i] == rounds[i] {
      FromShorter(first, legs, i);
    }
    assert rounds == shorter + [rounds[n]];
  }

  lemma FromShorter(first: nat, legs: seq<Leg>, i: nat)
    requires i < |legs|
    ensures From(first, legs[..|legs| - 1], i) == From(first, legs, i)
  {
  }

  lemma FirstMatches(scope: Scope, layout: Layout, store: Store)
    requires layout.OneToOne(scope)
    ensures Matches(layout, ListedKeys(layout, store), View(layout, store).Keys)
  {
    forall k | k in layout.names ensures Listed(store, k) <==> layout.names[k] in View(layout, store) {
      assert layout.home[layout.names[k]] == k;
    }
  }

  lemma ResyncMatches(layout: Layout, known: set<string>, alive: set<string>, prior: Snapshot, next: Snapshot)
    requires Matches(layout, known, alive) && WellKeyed(prior) && WellKeyed(next)
    ensures Matches(layout, Resynced(layout, known, prior, next), Announced(alive, Diff(prior, next)))
  {
    hide Announced, Diff, WellKeyed, Change;
    forall k | k in layout.names
      ensures k in Resynced(layout, known, prior, next) <==> layout.names[k] in Announced(alive, Diff(prior, next))
    {
      DiffAnnounces(alive, prior, next, layout.names[k]);
    }
  }

  lemma ResyncSuits(scope: Scope, layout: Layout, known: set<string>, alive: set<string>, prior: Snapshot, next: Snapshot)
    requires layout.OneToOne(scope) && Matches(layout, known, alive)
    requires prior.Keys <= layout.home.Keys && next.Keys <= layout.home.Keys
    ensures DiffSuits(alive, prior, next) <==> ResyncHeeds(layout, known, prior, next)
  {
    if ResyncHeeds(layout, known, prior, next) {
      forall x | Change(prior, next, x) != [] ensures x in alive <==> x in prior {
        assert x in layout.home;
        var k := layout.home[x];
        assert k in layout.names && layout.names[k] == x;
      }
    }
  }

  /** What the incremental snapshot of a leg holds is all placed by the layout. */
  lemma IncrementalPlaced(scope: Scope, layout: Layout, log: seq<Entry>, compacted: set<nat>, lo: nat, hi: nat)
    requires lo <= hi <= |log| && LaidOut(scope, layout, log)
    ensures WellKeyed(View(layout, StoreAt(log[..lo])))
    ensures WellKeyed(Incremental(scope, layout, log, compacted, lo, hi))
    ensures Incremental(scope, layout, log, compacted, lo, hi).Keys <= layout.home.Keys
  {
    hide WellKeyed, Emit, Feed, StoreAt, Placed;
    var start := View(layout, StoreAt(log[..lo]));
    assert forall i | 0 <= i < lo :: log[..lo][i] == log[i];
    ViewWellKeyed(scope, layout, log[..lo]);
    ViewTracks(scope, layout, log[..lo]);
    IncrementalTracks(scope, layout, log, compacted, lo, hi, start);
    ReplayWellKeyed(start, Emit(Feed(scope, log, compacted, lo, hi)));
  }

  /** The snapshot that the last leg starts from is the view at its first position. */
  lemma LegStart(scope: Scope, layout: Layout, log: seq<Entry>, compacted: set<nat>, first: nat, legs: seq<Leg>)
    requires Within(log, first, legs)
    ensures From(first, legs, |legs|) <= |log|
    ensures RunSnapshot(View(layout, StoreAt(log[..first])), RoundsOf(scope, layout, log, compacted, first, legs))
         == View(layout, StoreAt(log[..From(first, legs, |legs|)]))
  {
    hide View, StoreAt, Feed, Within, RoundOf;
    if legs != [] {
      var n := |legs| - 1;
      WithinShorter(log, first, legs);
      LegNext(scope, layout, log, compacted, From(first, legs, n), legs[n]);
    } else {
      assert first <= |log| by { WithinFirst(log, first, legs); }
    }
  }

  lemma LegNext(scope: Scope, layout: Layout, log: seq<Entry>, compacted: set<nat>, from: nat, leg: Leg)
    requires leg.delivered <= |log| && leg.reloaded <= |log|
    ensures RoundOf(scope, layout, log, compacted, from, leg).next == View(layout, StoreAt(log[..leg.reloaded]))
  {
  }

  lemma WithinFirst(log: seq<Entry>, first: nat, legs: seq<Leg>)
    requires Within(log, first, legs)
    ensures first <= |log|
  {
  }

  /** What the last leg adds to a run. */
  lemma LegOrderly(scope: Scope, layout: Layout, log: seq<Entry>, compacted: set<nat>, first: nat, legs: seq<Leg>)
    requires LaidOutWhole(scope, layout, log) && Within(log, first, legs) && legs != []
    requires Within(log, first, legs[..|legs| - 1])
    requires
      var before := legs[..|legs| - 1];
      Matches(layout, KnownAfter(scope, layout, log, compacted, first, before),
              Announced({}, RunStream(View(layout, StoreAt(log[..first])),
                                      RoundsOf(scope, layout, log, compacted, first, before))))
    ensures From(first, legs, |legs| - 1) <= legs[|legs| - 1].delivered
    ensures
      var n := |legs| - 1;
      var start := View(layout, StoreAt(log[..first]));
      var from, leg := From(first, legs, n), legs[n];
      var known := KnownAfter(scope, layout, log, compacted, first, legs[..n]);
      && Matches(layout, KnownAfter(scope, layout, log, compacted, first, legs),
                 Announced({}, RunStream(start, RoundsOf(scope, layout, log, compacted, first, legs))))
      && (Orderly({}, RunStream(start, RoundsOf(scope, layout, log, compacted, first, legs)))
          <==> Orderly({}, RunStream(start, RoundsOf(scope, layout, log, compacted, first, legs[..n])))
               && Proper(scope, log, compacted, from, leg.delivered, known)
               && ResyncHeeds(layout, Known(scope, log, compacted, from, leg.delivered, known),
                              Incremental(scope, layout, log, compacted, from, leg.delivered),
                              View(layout, StoreAt(log[..leg.reloaded]))))
  {
    hide WellKeyed, Orderly, Announced, Diff, Emit, Replay, DiffSuits, RunStream, RunSnapshot, StoreAt, Feed;
    hide LoadedRounds, Matches, Resynced, ResyncHeeds, Proper, Known, View, Change, RoundsOf, LaidOut, LaidOutWhole;
    var n := |legs| - 1;
    var start := View(layout, StoreAt(log[..first]));
    WholeIsLaidOut(scope, layout, log);
    WithinShorter(log, first, legs);
    var from, leg := From(first, legs, n), legs[n];
    var before := RoundsOf(scope, layout, log, compacted, first, legs[..n]);
    var last := RoundOf(scope, layout, log, compacted, from, leg);
    var alive := Announced({}, RunStream(start, before));
    var known := KnownAfter(scope, layout, log, compacted, first, legs[..n]);
    RoundsLoaded(scope, layout, log, compacted, first, legs);
    RoundsShorter(scope, layout, log, compacted, first, legs);
    LegStart(scope, layout, log, compacted, first, legs[..n]);
    RoundOrderly(start, before, last);
    IncrementsOrderly(scope, layout, log, compacted, from, leg.delivered, known, alive);
    var mid := Incremental(scope, layout, log, compacted, from, leg.delivered);
    IncrementalPlaced(scope, layout, log, compacted, from, leg.delivered);
    NextPlaced(scope, layout, log, leg.reloaded);
    var learned := Known(scope, log, compacted, from, leg.delivered, known);
    var told := Announced(alive, Emit(Feed(scope, log, compacted, from, leg.delivered)));
    OneToOneOf(scope, layout, log);
    ResyncSuits(scope, layout, learned, told, mid, last.next);
    ResyncMatches(layout, learned, told, mid, last.next);
  }

  lemma OneToOneOf(scope: Scope, layout: Layout, log: seq<Entry>)
    requires LaidOutWhole(scope, layout, log)
    ensures layout.OneToOne(scope)
  {
  }

  lemma NextPlaced(scope: Scope, layout: Layout, log: seq<Entry>, n: nat)
    requires LaidOut(scope, layout, log) && n <= |log|
    ensures WellKeyed(View(layout, StoreAt(log[..n]))) && View(layout, StoreAt(log[..n])).Keys <= layout.home.Keys
  {
    hide WellKeyed, StoreAt, Placed;
    assert forall i | 0 <= i < n :: log[..n][i] == log[i];
    ViewWellKeyed(scope, layout, log[..n]);
  }

  lemma {:induction false} RunOrderlyMatches(scope: Scope, layout: Layout, log: seq<Entry>, compacted: set<nat>,
                                             first: nat, legs: seq<Leg>)
    requires LaidOutWhole(scope, layout, log) && Within(log, first, legs)
    ensures
      var stream := RunStream(View(layout, StoreAt(log[..first])),
                              RoundsOf(scope, layout, log, compacted, first, legs));
      && (Orderly({}, stream) <==> ProperLegs(scope, layout, log, compacted, first, legs))
      && Matches(layout, KnownAfter(scope, layout, log, compacted, first, legs), Announced({}, stream))
    decreases |legs|
  {
    hide Orderly, Announced, Diff, StoreAt, Matches, Resynced, ResyncHeeds, Proper, Known, View, RoundOf, LaidOutWhole;
    hide WellKeyed, LaidOut;
    if legs == [] {
      var start := View(layout, StoreAt(log[..first]));
      WholeIsLaidOut(scope, layout, log);
      OneToOneOf(scope, layout, log);
      NextPlaced(scope, layout, log, first);
      FirstOrderly(start);
      FirstMatches(scope, layout, StoreAt(log[..first]));
    } else {
      hide RunStream, KnownAfter;
      WithinShorter(log, first, legs);
      RunOrderlyMatches(scope, layout, log, compacted, first, legs[..|legs| - 1]);
      LegOrderly(scope, layout, log, compacted, first, legs);
    }
  }

  /**
   Per instance key everything that a run sends, events with blank addresses included, follows
   (Added Updated* Removed)* exactly when the log is proper for the run's legs.
   */
  lemma RunChannelCyclic(scope: Scope, layout: Layout, log: seq<Entry>, compacted: set<nat>, first: nat,
                         legs: seq<Leg>)
    requires LaidOutWhole(scope, layout, log) && Within(log, first, legs)
    ensures
      var stream := RunStream(View(layout, StoreAt(log[..first])),
                              RoundsOf(scope, layout, log, compacted, first, legs));
      (forall k :: Cyclic(Every(stream, k), false)) <==> ProperLegs(scope, layout, log, compacted, first, legs)
  {
    hide Orderly, Announced, StoreAt, Matches, ProperLegs, View, RoundsOf, LaidOutWhole, RunStream, KnownAfter, Cyclic;
    hide Every;
    RunOrderlyMatches(scope, layout, log, compacted, first, legs);
    OrderlyIsCyclic({}, RunStream(View(layout, StoreAt(log[..first])),
                                  RoundsOf(scope, layout, log, compacted, first, legs)));
  }

  // ---------------------------------------------------------------- clean logs

  /** On a clean log the keys announced by a watch are those that the store lists. */
  lemma {:induction false} CleanKnown(scope: Scope, layout: Layout, log: seq<Entry>, compacted: set<nat>, lo: nat, hi: nat)
    requires lo <= hi <= |log| && LaidOutWhole(scope, layout, log) && Clean(scope, log, compacted)
    ensures Known(scope, log, compacted, lo, hi, ListedKeys(layout, StoreAt(log[..lo])))
         == ListedKeys(layout, StoreAt(log[..hi]))
    ensures Proper(scope, log, compacted, lo, hi, ListedKeys(layout, StoreAt(log[..lo])))
  {
    if lo < hi {
      hide Known, Proper, LaidOutWhole, Clean;
      CleanKnown(scope, layout, log, compacted, lo, hi - 1);
      CleanStep(scope, layout, log, compacted, hi);
      KnownStep(scope, log, compacted, lo, hi, ListedKeys(layout, StoreAt(log[..lo])));
    }
  }

  lemma KnownStep(scope: Scope, log: seq<Entry>, compacted: set<nat>, lo: nat, hi: nat, known: set<string>)
    requires lo < hi <= |log|
    ensures
      var before := Known(scope, log, compacted, lo, hi - 1, known);
      && Known(scope, log, compacted, lo, hi, known)
         == Learn(scope, StoreAt(log[..hi - 1]), log[hi - 1], hi in compacted, before)
      && (Proper(scope, log, compacted, lo, hi, known)
          <==> Proper(scope, log, compacted, lo, hi - 1, known)
               && Heeds(scope, StoreAt(log[..hi - 1]), log[hi - 1], hi in compacted, before))
  {
  }

  lemma CleanPrefix(scope: Scope, log: seq<Entry>, n: nat)
    requires n <= |log| && Clean(scope, log, {})
    ensures Clean(scope, log[..n], {})
  {
    assert forall i | 0 <= i < n :: log[..n][i] == log[i];
  }

  lemma CleanStep(scope: Scope, layout: Layout, log: seq<Entry>, compacted: set<nat>, hi: nat)
    requires 0 < hi <= |log| && LaidOutWhole(scope, layout, log) && Clean(scope, log, compacted)
    ensures
      var store, entry := StoreAt(log[..hi - 1]), log[hi - 1];
      && Learn(scope, store, entry, hi in compacted, ListedKeys(layout, store))
         == ListedKeys(layout, StoreAt(log[..hi]))
      && Heeds(scope, store, entry, hi in compacted, ListedKeys(layout, store))
  {
    hide InstanceKey, Blank;
    var store, entry := StoreAt(log[..hi - 1]), log[hi - 1];
    assert log[..hi][..hi - 1] == log[..hi - 1] && log[..hi][hi - 1] == entry;
    CleanPrefix(scope, log, hi - 1);
    if entry.key in scope {
      CleanStore(scope, log[..hi - 1], entry.key);
      if entry.Write? {
        assert Named(layout, entry.key, entry.value);
      } else if entry.key in store {
        StoreNamed(scope, layout, log, hi - 1, entry.key);
      }
    }
  }

  /** A resync from one view to another leaves announced what the second one lists. */
  lemma ViewsResync(scope: Scope, layout: Layout, prior: Store, next: Store)
    requires layout.OneToOne(scope)
    ensures
      var known := ListedKeys(layout, prior);
      && ResyncHeeds(layout, known, View(layout, prior), View(layout, next))
      && Resynced(layout, known, View(layout, prior), View(layout, next)) == ListedKeys(layout, next)
  {
    hide View;
    FirstMatches(scope, layout, prior);
    FirstMatches(scope, layout, next);
    assert forall k | k in layout.names :: k in ListedKeys(layout, prior) <==> layout.names[k] in View(layout, prior);
    assert forall k | k in layout.names :: k in ListedKeys(layout, next) <==> layout.names[k] in View(layout, next);
  }

  /** Logs that only ever write usable values, watched without compaction gaps, are proper for every run. */
  lemma {:induction false} CleanIsProper(scope: Scope, layout: Layout, log: seq<Entry>, compacted: set<nat>,
                                         first: nat, legs: seq<Leg>)
    requires LaidOutWhole(scope, layout, log) && Within(log, first, legs) && Clean(scope, log, compacted)
    ensures ProperLegs(scope, layout, log, compacted, first, legs)
    ensures From(first, legs, |legs|) <= |log|
    ensures KnownAfter(scope, layout, log, compacted, first, legs)
         == ListedKeys(layout, StoreAt(log[..From(first, legs, |legs|)]))
    decreases |legs|
  {
    hide View, StoreAt, Known, Proper, ResyncHeeds, Resynced, ListedKeys, Incremental, LaidOutWhole, Clean, Change;
    if legs == [] {
      WithinFirst(log, first, legs);
    } else {
      hide Within;
      var n := |legs| - 1;
      WithinShorter(log, first, legs);
      CleanIsProper(scope, layout, log, compacted, first, legs[..n]);
      var from, leg := From(first, legs, n), legs[n];
      CleanKnown(scope, layout, log, compacted, from, leg.delivered);
      CleanIncremental(scope, layout, log, compacted, from, leg.delivered);
      OneToOneOf(scope, layout, log);
      ViewsResync(scope, layout, StoreAt(log[..leg.delivered]), StoreAt(log[..leg.reloaded]));
    }
  }

  lemma CleanIncremental(scope: Scope, layout: Layout, log: seq<Entry>, compacted: set<nat>, lo: nat, hi: nat)
    requires lo <= hi <= |log| && LaidOutWhole(scope, layout, log) && Clean(scope, log, compacted)
    ensures Incremental(scope, layout, log, compacted, lo, hi) == View(layout, StoreAt(log[..hi]))
  {
    hide View, Emit, Feed, StoreAt, Replay, Stranded, LaidOut, LaidOutWhole;
    WholeIsLaidOut(scope, layout, log);
    CleanIsTidy(scope, log, compacted, lo, hi);
    IncrementalEqualsReload(scope, layout, log, compacted, lo, hi);
  }

  /**
   So on such logs everything that any run sends follows (Added Updated* Removed)* per instance key,
   without a condition.
   */
  lemma CleanChannelCyclic(scope: Scope, layout: Layout, log: seq<Entry>, compacted: set<nat>, first: nat,
                           legs: seq<Leg>, k: string)
    requires LaidOut(scope, layout, log) && Within(log, first, legs) && Clean(scope, log, compacted)
    ensures Cyclic(Every(RunStream(View(layout, StoreAt(log[..first])),
                                   RoundsOf(scope, layout, log, compacted, first, legs)), k), false)
  {
    hide StoreAt, ProperLegs, View, RoundsOf, RunStream, KnownAfter, Cyclic, Every, ListedKeys, From, Within;
    CleanIsWhole(scope, layout, log, compacted);
    CleanIsProper(scope, layout, log, compacted, first, legs);
    RunChannelCyclic(scope, layout, log, compacted, first, legs);
  }

  lemma CleanIsWhole(scope: Scope, layout: Layout, log: seq<Entry>, compacted: set<nat>)
    requires LaidOut(scope, layout, log) && Clean(scope, log, compacted)
    ensures LaidOutWhole(scope, layout, log)
  {
    forall i | 0 <= i < |log| && log[i].Write? && log[i].key in scope ensures Named(layout, log[i].key, log[i].value) {
      assert Placed(layout, log[i].key, log[i].value);
    }
  }

  // ---------------------------------------------------------------- the two grammars are different

  /**
   A blank address that is corrected while it is being watched: the channel announces the instance
   with the blank address, which consumers skip, so they see it Updated before it is Added.
   */
  lemma BlankAddedFirst(scope: Scope, key: string, id: string, address: string)
    requires key in scope && !Blank(address)
    ensures
      var log := [Write(key, Json(Instance(id, ""))), Write(key, Json(Instance(id, address)))];
      !Tidy(scope, log, {}, 0, 2) && Proper(scope, log, {}, 0, 2, {})
  {
    hide TrimSpace;
    var log := [Write(key, Json(Instance(id, ""))), Write(key, Json(Instance(id, address)))];
    assert log[..1] == [log[0]] && log[..0] == [] && log[..1][..0] == [];
    assert StoreAt(log[..1]) == map[key := log[0].value];
    BlankEmpty();
    assert !Meets(scope, StoreAt(log[..1]), log[1], Stranded(scope, log, {}, 0, 1));
    KnownStep(scope, log, {}, 0, 1, {});
    KnownStep(scope, log, {}, 0, 2, {});
    assert Known(scope, log, {}, 0, 0, {}) == {} && Known(scope, log, {}, 0, 1, {}) == {key};
  }

  /** A blank address that stays blank: consumers see nothing, the channel an Updated never Added. */
  lemma BlankStaysBlank(scope: Scope, key: string, id: string)
    requires key in scope
    ensures
      var log := [Write(key, Json(Instance(id, ""))), Write(key, Json(Instance(id, "")))];
      Tidy(scope, log, {}, 1, 2) && !Proper(scope, log, {}, 1, 2, {})
  {
    hide TrimSpace;
    var log := [Write(key, Json(Instance(id, ""))), Write(key, Json(Instance(id, "")))];
    assert log[..1] == [log[0]] && log[..0] == [] && log[..1][..0] == [];
    assert StoreAt(log[..1]) == map[key := log[0].value];
    BlankEmpty();
    KnownStep(scope, log, {}, 1, 2, {});
    assert Known(scope, log, {}, 1, 1, {}) == {};
    assert !Heeds(scope, StoreAt(log[..1]), log[1], false, {});
  }
}
