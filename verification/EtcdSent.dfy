/**
 What the watcher sends in a run on one log, to the end of the run: what a consumer holds, exactly
 when the channel follows its grammar, and where each entry of the log ends up.
 */
module EtcdSent {
  import opened Discovery
  import opened DiscoveryChannel
  import opened EtcdLog
  import opened EtcdChannel
  import opened EtcdRun

  /** As far as the completed legs go, replaying what was sent gives the store as of the last reload. */
  lemma SentMirrorsStore(e: Etcd, layout: Layout, first: nat, legs: seq<Leg>, sent: seq<DiscoveryEvent>)
    requires LaidOut(e.scope, layout, e.log) && RunsOnLog(e, layout, first, legs, sent)
    ensures
      var done := legs[..|legs| - 1];
      var stream := StreamOf(e, layout, first, done);
      && stream <= sent
      && Replay(map[], stream) == View(layout, StoreAt(e.log[..From(first, done, |done|)]))
  {
    hide View, StoreAt, RoundsOf, RunStream, Replay, Within, From, LaidOut;
    RunMirrorsStore(e.scope, layout, e.log, e.compacted, first, legs[..|legs| - 1]);
  }

  // ---------------------------------------------------------------- the grammar of all that is sent

  /** What was told of the last resync is about keys that the channel knows just as the watcher does. */
  ghost predicate ToldHeeds(layout: Layout, known: set<string>, prior: Snapshot, told: seq<DiscoveryEvent>) {
    forall k | k in layout.names && Every(told, layout.names[k]) != [] :: k in known <==> layout.names[k] in prior
  }

  lemma ToldSuits(scope: Scope, layout: Layout, known: set<string>, alive: set<string>, prior: Snapshot,
                  next: Snapshot, told: seq<DiscoveryEvent>)
    requires layout.OneToOne(scope) && Matches(layout, known, alive)
    requires prior.Keys <= layout.home.Keys && next.Keys <= layout.home.Keys
    requires WellKeyed(prior) && WellKeyed(next) && told <= Diff(prior, next)
    ensures PartSuits(alive, prior, told) <==> ToldHeeds(layout, known, prior, told)
  {
    hide Every, Diff, WellKeyed;
    if ToldHeeds(layout, known, prior, told) {
      forall x | Every(told, x) != [] ensures x in alive <==> x in prior {
        PartEvery(prior, next, told, x);
        assert x in layout.home;
        var k := layout.home[x];
        assert k in layout.names && layout.names[k] == x;
      }
    }
  }

  /** The part of the last resync that was sent. */
  ghost function Told(e: Etcd, layout: Layout, first: nat, legs: seq<Leg>, sent: seq<DiscoveryEvent>)
    : seq<DiscoveryEvent>
    requires RunsOnLog(e, layout, first, legs, sent)
  {
    sent[|UpToWatch(e, layout, first, legs)|..]
  }

  /** The increments of the last leg, then what was told of its resync. */
  lemma SentInParts(e: Etcd, layout: Layout, first: nat, legs: seq<Leg>, sent: seq<DiscoveryEvent>)
    requires LaidOut(e.scope, layout, e.log) && RunsOnLog(e, layout, first, legs, sent)
    ensures
      var n := |legs| - 1;
      var from := From(first, legs, n);
      && from <= legs[n].delivered <= |e.log| && legs[n].reloaded <= |e.log|
      && sent == StreamOf(e, layout, first, legs[..n])
                 + Emit(Feed(e.scope, e.log, e.compacted, from, legs[n].delivered))
                 + Told(e, layout, first, legs, sent)
      && Told(e, layout, first, legs, sent)
         <= Diff(Incremental(e.scope, layout, e.log, e.compacted, from, legs[n].delivered),
                 View(layout, StoreAt(e.log[..legs[n].reloaded])))
  {
    hide LaidOut, View, StoreAt, Feed, Emit, StreamOf, Diff, Incremental, Within, From;
    WithinShorter(e.log, first, legs);
    LegStream(e, layout, first, legs);
    var upTo, told := UpToWatch(e, layout, first, legs), Told(e, layout, first, legs, sent);
    assert sent == upTo + told;
  }

  lemma ThreeParts(a: seq<DiscoveryEvent>, b: seq<DiscoveryEvent>, c: seq<DiscoveryEvent>)
    ensures Orderly({}, a + b + c)
       <==> && Orderly({}, a) && Orderly(Announced({}, a), b)
            && Orderly(Announced(Announced({}, a), b), c)
  {
    hide Orderly, Announced;
    OrderlyConcat({}, a + b, c);
    OrderlyConcat({}, a, b);
    AnnouncedConcat({}, a, b);
  }

  /**
   Per instance key everything that the watcher ever sends, events with blank addresses included and
   whenever it is cut off, follows (Added Updated* Removed)* exactly when the completed legs are
   proper, so is the last watch as far as it got, and what was told of the last resync heeds what was
   announced by then.
   */
  lemma SentCyclic(e: Etcd, layout: Layout, first: nat, legs: seq<Leg>, sent: seq<DiscoveryEvent>)
    requires LaidOutWhole(e.scope, layout, e.log) && RunsOnLog(e, layout, first, legs, sent)
    ensures From(first, legs, |legs| - 1) <= legs[|legs| - 1].delivered <= |e.log|
    ensures
      var n := |legs| - 1;
      var from, to := From(first, legs, n), legs[n].delivered;
      var known := KnownAfter(e.scope, layout, e.log, e.compacted, first, legs[..n]);
      (forall k :: Cyclic(Every(sent, k), false))
      <==> && ProperLegs(e.scope, layout, e.log, e.compacted, first, legs[..n])
           && Proper(e.scope, e.log, e.compacted, from, to, known)
           && ToldHeeds(layout, Known(e.scope, e.log, e.compacted, from, to, known),
                        Incremental(e.scope, layout, e.log, e.compacted, from, to),
                        Told(e, layout, first, legs, sent))
  {
    hide LaidOut, LaidOutWhole, View, StoreAt, Feed, Emit, RunStream, Diff, Incremental, Within, From, WellKeyed, Matches;
    hide Told, Orderly, Announced, Cyclic, Every, ProperLegs, Proper, Known, KnownAfter, ToldHeeds, PartSuits, RoundsOf;
    hide UpToWatch;
    var n := |legs| - 1;
    var done := legs[..n];
    WholeIsLaidOut(e.scope, layout, e.log);
    OneToOneOf(e.scope, layout, e.log);
    WithinShorter(e.log, first, legs);
    WithinFirst(e.log, first, legs);
    SentInParts(e, layout, first, legs, sent);
    var from, to := From(first, legs, n), legs[n].delivered;
    var base, increments := StreamOf(e, layout, first, done), Emit(Feed(e.scope, e.log, e.compacted, from, to));
    var told := Told(e, layout, first, legs, sent);
    OrderlyIsCyclic({}, sent);
    ThreeParts(base, increments, told);
    RunOrderlyMatches(e.scope, layout, e.log, e.compacted, first, done);
    var known := KnownAfter(e.scope, layout, e.log, e.compacted, first, done);
    var alive := Announced({}, base);
    IncrementsOrderly(e.scope, layout, e.log, e.compacted, from, to, known, alive);
    var prior := Incremental(e.scope, layout, e.log, e.compacted, from, to);
    var next := View(layout, StoreAt(e.log[..legs[n].reloaded]));
    IncrementalPlaced(e.scope, layout, e.log, e.compacted, from, to);
    NextPlaced(e.scope, layout, e.log, legs[n].reloaded);
    PartOrderly(Announced(alive, increments), prior, next, told);
    ToldSuits(e.scope, layout, Known(e.scope, e.log, e.compacted, from, to, known), Announced(alive, increments),
              prior, next, told);
  }

  /** On a clean log it always does. */
  lemma CleanSentCyclic(e: Etcd, layout: Layout, first: nat, legs: seq<Leg>, sent: seq<DiscoveryEvent>, k: string)
    requires LaidOut(e.scope, layout, e.log) && RunsOnLog(e, layout, first, legs, sent)
    requires Clean(e.scope, e.log, e.compacted)
    ensures Cyclic(Every(sent, k), false)
  {
    hide View, StoreAt, RoundsOf, RunStream, Within, From, LaidOut, Every, Cyclic, Clean, UpToWatch;
    WithinFirst(e.log, first, legs);
    CleanChannelCyclic(e.scope, layout, e.log, e.compacted, first, legs, k);
    var stream := StreamOf(e, layout, first, legs);
    var rest := stream[|sent|..];
    assert stream == sent + rest;
    EveryConcat(sent, rest, k);
    CyclicConcat(Every(sent, k), Every(rest, k), false);
  }

  // ---------------------------------------------------------------- every entry is covered once

  /** Reads see at least what watches have delivered before them. */
  predicate Linear(first: nat, legs: seq<Leg>) {
    forall i | 0 <= i < |legs| :: From(first, legs, i) <= legs[i].delivered <= legs[i].reloaded
  }

  /** The entry at position p falls to leg i: to its watch up to `delivered`, to its resync from there. */
  predicate FallsTo(first: nat, legs: seq<Leg>, i: nat, p: nat) {
    i < |legs| && From(first, legs, i) < p <= legs[i].reloaded
  }

  lemma {:induction false} FromAscends(first: nat, legs: seq<Leg>, i: nat, j: nat)
    requires Linear(first, legs) && i <= j <= |legs|
    ensures From(first, legs, i) <= From(first, legs, j)
    decreases j
  {
    if i < j {
      FromAscends(first, legs, i, j - 1);
      assert From(first, legs, j - 1) <= legs[j - 1].delivered;
    }
  }

  /**
   As reads see what was delivered before them, every entry between the first load and the last
   reload falls to exactly one leg of the run.
   */
  lemma {:induction false} EntryCoveredOnce(first: nat, legs: seq<Leg>, p: nat)
    requires Linear(first, legs) && first < p <= From(first, legs, |legs|)
    ensures exists i: nat :: FallsTo(first, legs, i, p) && forall j: nat :: FallsTo(first, legs, j, p) ==> j == i
  {
    var i := LegOf(first, legs, |legs|, p);
    forall j: nat | FallsTo(first, legs, j, p) ensures j == i {
      if j < i {
        FromAscends(first, legs, j + 1, i);
      } else if i < j {
        FromAscends(first, legs, i + 1, j);
      }
    }
  }

  lemma {:induction false} LegOf(first: nat, legs: seq<Leg>, n: nat, p: nat) returns (i: nat)
    requires n <= |legs| && first < p <= From(first, legs, n)
    ensures FallsTo(first, legs, i, p)
  {
    if From(first, legs, n - 1) < p {
      i := n - 1;
    } else {
      i := LegOf(first, legs, n - 1, p);
    }
  }

  // ---------------------------------------------------------------- what carries an entry

  /** Those of the watch events that report the entry of one revision. */
  function ReportsOf(events: seq<WatchEvent>, revision: nat): seq<WatchEvent> {
    if events == [] then []
    else
      var init, event := ReportsOf(events[..|events| - 1], revision), events[|events| - 1];
      if event.revision == revision then init + [event] else init
  }

  lemma ReportsOfMore(events: seq<WatchEvent>, report: seq<WatchEvent>, revision: nat)
    requires |report| <= 1
    ensures ReportsOf(events + report, revision)
         == ReportsOf(events, revision) + if report != [] && report[0].revision == revision then report else []
  {
    if report != [] {
      assert (events + report)[..|events|] == events;
    } else {
      assert events + report == events;
    }
  }

  /** A watch over a stretch of the log reports each of its entries once, and no other. */
  lemma {:induction false} FeedReports(e: Etcd, lo: nat, hi: nat, p: nat)
    requires lo <= hi <= |e.log| && 0 < p <= |e.log|
    ensures ReportsOf(Feed(e.scope, e.log, e.compacted, lo, hi), Revision(p))
         == if lo < p <= hi
            then Report(e.scope, StoreAt(e.log[..p - 1]), e.log[p - 1], p in e.compacted, Revision(p))
            else []
  {
    hide StoreAt, Report, ReportsOf;
    if lo < hi {
      FeedReports(e, lo, hi - 1, p);
      OneReport(e.scope, StoreAt(e.log[..hi - 1]), e.log[hi - 1], hi in e.compacted, Revision(hi));
      ReportsOfMore(Feed(e.scope, e.log, e.compacted, lo, hi - 1),
                    Report(e.scope, StoreAt(e.log[..hi - 1]), e.log[hi - 1], hi in e.compacted, Revision(hi)),
                    Revision(p));
    } else {
      NoReports(Revision(p));
    }
  }

  lemma OneReport(scope: Scope, store: Store, entry: Entry, gap: bool, revision: nat)
    ensures
      var report := Report(scope, store, entry, gap, revision);
      |report| <= 1 && (report != [] ==> report[0].revision == revision)
  {
  }

  lemma NoReports(revision: nat)
    ensures ReportsOf([], revision) == []
  {
  }

  /**
   The entry at position p falls to leg i, and that leg carries it: the leg's watch reports it, or
   else the resync sends the one net change of its key from what the watcher held to what the
   reload, which is at p or later, found.
   */
  ghost predicate Carries(e: Etcd, layout: Layout, first: nat, legs: seq<Leg>, i: nat, p: nat)
    requires Within(e.log, first, legs) && 0 < p <= |e.log| && i < |legs|
  {
    var round := RoundsOf(e.scope, layout, e.log, e.compacted, first, legs)[i];
    var key := e.log[p - 1].key;
    var held := Replay(View(layout, StoreAt(e.log[..From(first, legs, i)])), Emit(round.events));
    && FallsTo(first, legs, i, p)
    && ReportsOf(round.events, Revision(p))
       == (if p <= legs[i].delivered
           then Report(e.scope, StoreAt(e.log[..p - 1]), e.log[p - 1], p in e.compacted, Revision(p))
           else [])
    && (p > legs[i].delivered && key in layout.names ==>
          About(Diff(held, round.next), layout.names[key]) == Change(held, round.next, layout.names[key]))
  }

  lemma LegCarries(e: Etcd, layout: Layout, first: nat, legs: seq<Leg>, i: nat, p: nat)
    requires LaidOut(e.scope, layout, e.log) && Within(e.log, first, legs)
    requires 0 < p <= |e.log| && FallsTo(first, legs, i, p)
    ensures Carries(e, layout, first, legs, i, p)
  {
    hide LaidOut, View, StoreAt, Emit, Feed, Diff, About, Change, Replay, WellKeyed, Report, ReportsOf;
    var from, leg := From(first, legs, i), legs[i];
    FeedReports(e, from, leg.delivered, p);
    IncrementalPlaced(e.scope, layout, e.log, e.compacted, from, leg.delivered);
    NextPlaced(e.scope, layout, e.log, leg.reloaded);
    if e.log[p - 1].key in layout.names {
      DiffPerKey(Incremental(e.scope, layout, e.log, e.compacted, from, leg.delivered),
                 View(layout, StoreAt(e.log[..leg.reloaded])), layout.names[e.log[p - 1].key]);
    }
  }

  /** A leg that an entry does not fall to does not report it either. */
  lemma OthersSilent(e: Etcd, layout: Layout, first: nat, legs: seq<Leg>, j: nat, p: nat)
    requires Within(e.log, first, legs) && Linear(first, legs) && j < |legs|
    requires 0 < p <= |e.log| && !FallsTo(first, legs, j, p)
    ensures ReportsOf(RoundsOf(e.scope, layout, e.log, e.compacted, first, legs)[j].events, Revision(p)) == []
  {
    hide StoreAt, Feed, View, Report, ReportsOf;
    assert From(first, legs, j) <= legs[j].delivered <= legs[j].reloaded;
    FeedReports(e, From(first, legs, j), legs[j].delivered, p);
  }

  /**
   Every entry between the first load and the last reload is carried by exactly one leg, by the
   watch's report or by the resync's net change, and reported by no other.
   */
  lemma EntryCarried(e: Etcd, layout: Layout, first: nat, legs: seq<Leg>, p: nat)
    requires LaidOut(e.scope, layout, e.log) && Within(e.log, first, legs) && Linear(first, legs)
    requires first < p <= From(first, legs, |legs|)
    ensures p <= |e.log|
    ensures
      exists i: nat :: i < |legs| && Carries(e, layout, first, legs, i, p)
        && forall j: nat | j < |legs| && j != i ::
             && !FallsTo(first, legs, j, p)
             && ReportsOf(RoundsOf(e.scope, layout, e.log, e.compacted, first, legs)[j].events, Revision(p)) == []
  {
    hide LaidOut, Carries, ReportsOf, RoundsOf;
    EntryCoveredOnce(first, legs, p);
    var i: nat :| FallsTo(first, legs, i, p) && forall j: nat :: FallsTo(first, legs, j, p) ==> j == i;
    assert From(first, legs, i) < p <= legs[i].reloaded <= |e.log|;
    hide FallsTo, Within, Linear, From;
    assert i < |legs| by { FallsWithin(first, legs, i, p); }
    LegCarries(e, layout, first, legs, i, p);
    forall j: nat | j < |legs| && j != i
      ensures !FallsTo(first, legs, j, p)
      ensures ReportsOf(RoundsOf(e.scope, layout, e.log, e.compacted, first, legs)[j].events, Revision(p)) == []
    {
      OthersSilent(e, layout, first, legs, j, p);
    }
  }

  lemma FallsWithin(first: nat, legs: seq<Leg>, i: nat, p: nat)
    requires FallsTo(first, legs, i, p)
    ensures i < |legs|
  {
  }
}
