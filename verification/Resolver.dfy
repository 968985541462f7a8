/** The gRPC resolver: a replica of the discovery snapshot that publishes addresses. */
module Resolver {
  import opened Wrappers
  import opened Text
  import opened Registry
  import opened Discovery
  import opened EtcdLog
  import EtcdRun

  /** The resolver's own key: unlike InstanceKey it keeps the id untrimmed. */
  function ResolverKey(instance: ServiceInstance): string {
    if !Blank(instance.id) then instance.id
    else TrimSpace(instance.name) + "/" + TrimSpace(instance.address)
  }

  function Applied(instances: Snapshot, event: DiscoveryEvent): Snapshot {
    if !Visible(event) then instances
    else
      var key := ResolverKey(event.instance);
      if event.kind.Removed? then instances - {key} else instances[key := event.instance]
  }

  function Consumed(instances: Snapshot, events: seq<DiscoveryEvent>): Snapshot {
    if events == [] then instances
    else Applied(Consumed(instances, events[..|events| - 1]), events[|events| - 1])
  }

  /** The map that a resolved list leaves behind; later entries win. */
  function Replaced(list: seq<ServiceInstance>): Snapshot {
    if list == [] then map[]
    else
      var init, last := Replaced(list[..|list| - 1]), list[|list| - 1];
      if Blank(last.address) then init else init[ResolverKey(last) := last]
  }

  /** Entry `i` of the list has a usable address and goes under `k`. */
  predicate ListedAs(list: seq<ServiceInstance>, i: nat, k: string) {
    i < |list| && !Blank(list[i].address) && ResolverKey(list[i]) == k
  }

  /** It is the last such entry. */
  predicate LastListedAs(list: seq<ServiceInstance>, i: nat, k: string) {
    ListedAs(list, i, k) && forall j: nat | i < j < |list| :: !ListedAs(list, j, k)
  }

  /** The map holds, under the resolver's key, the last usable entry of the list for each key, and no other. */
  ghost predicate HoldsList(instances: Snapshot, list: seq<ServiceInstance>) {
    && (forall k :: k in instances <==> exists i: nat :: ListedAs(list, i, k))
    && (forall k, i: nat | LastListedAs(list, i, k) :: k in instances && instances[k] == list[i])
  }

  lemma ReplacedStep(list: seq<ServiceInstance>)
    requires list != []
    ensures
      var init, last := Replaced(list[..|list| - 1]), list[|list| - 1];
      Replaced(list) == if Blank(last.address) then init else init[ResolverKey(last) := last]
  {
    hide ResolverKey, Blank;
  }

  /** Where the entries for a key are, with one more entry in the list. */
  lemma ListedStep(list: seq<ServiceInstance>, i: nat, k: string)
    requires list != []
    ensures
      var n := |list| - 1;
      && (ListedAs(list, i, k) <==> ListedAs(list[..n], i, k) || (i == n && ListedAs(list, n, k)))
      && (LastListedAs(list, i, k) ==> if ListedAs(list, n, k) then i == n else LastListedAs(list[..n], i, k))
  {
    hide ResolverKey, Blank;
    var n := |list| - 1;
    if LastListedAs(list, i, k) && !ListedAs(list, n, k) {
      forall j: nat | i < j < n ensures !ListedAs(list[..n], j, k) {
        assert !ListedAs(list, j, k);
      }
    }
  }

  lemma {:induction false} ReplacedAt(list: seq<ServiceInstance>, k: string)
    ensures k in Replaced(list) <==> exists i: nat :: ListedAs(list, i, k)
    ensures forall i: nat | LastListedAs(list, i, k) ::
      i < |list| && k in Replaced(list) && Replaced(list)[k] == list[i]
  {
    hide ResolverKey, Blank, Replaced, ListedAs, LastListedAs;
    if list == [] {
      NothingListed(k);
    } else {
      var n := |list| - 1;
      var init := list[..n];
      ReplacedAt(init, k);
      ReplacedStep(list);
      LastIsListed(list, k);
      if i: nat :| ListedAs(list, i, k) {
        ListedStep(list, i, k);
      }
      if i: nat :| ListedAs(init, i, k) {
        ListedStep(list, i, k);
      }
      forall i: nat | LastListedAs(list, i, k)
        ensures i < |list| && k in Replaced(list) && Replaced(list)[k] == list[i]
      {
        ListedStep(list, i, k);
      }
    }
  }

  lemma NothingListed(k: string)
    ensures Replaced([]) == map[] && forall i: nat :: !ListedAs([], i, k) && !LastListedAs([], i, k)
  {
  }

  lemma LastIsListed(list: seq<ServiceInstance>, k: string)
    requires list != []
    ensures
      var last := list[|list| - 1];
      ListedAs(list, |list| - 1, k) <==> !Blank(last.address) && ResolverKey(last) == k
  {
  }

  lemma ReplacedHoldsList(list: seq<ServiceInstance>)
    ensures HoldsList(Replaced(list), list)
  {
    hide ResolverKey, Blank, Replaced;
    forall k
      ensures k in Replaced(list) <==> exists i: nat :: ListedAs(list, i, k)
      ensures forall i: nat | LastListedAs(list, i, k) :: k in Replaced(list) && Replaced(list)[k] == list[i]
    {
      ReplacedAt(list, k);
    }
  }

  function AddressesOf(instances: Snapshot, keys: seq<string>): seq<string>
    requires forall i | 0 <= i < |keys| :: keys[i] in instances
  {
    seq(|keys|, i requires 0 <= i < |keys| => instances[keys[i]].address)
  }

  /** The published list: the addresses in key order. */
  function Addresses(instances: Snapshot): seq<string> {
    AddressesOf(instances, SortedKeys(instances.Keys))
  }

  /** The lists that a stream makes the resolver publish: one for each visible event, of the map after it. */
  function Publications(instances: Snapshot, events: seq<DiscoveryEvent>): seq<seq<string>> {
    if events == [] then []
    else
      var init := Publications(instances, events[..|events| - 1]);
      if Visible(events[|events| - 1]) then init + [Addresses(Consumed(instances, events))] else init
  }

  predicate Usable(instances: Snapshot) {
    forall k | k in instances :: ResolverKey(instances[k]) == k && !Blank(instances[k].address)
  }

  // ---------------------------------------------------------------- the resolver object

  class ServiceResolver {
    var instances: Snapshot
    var published: seq<seq<string>>
    var reports: nat

    ghost predicate Valid()
      reads this
    {
      && Usable(instances)
      && (published == [] ==> instances == map[])
      && (published != [] ==> published[|published| - 1] == Addresses(instances))
    }

    constructor ()
      ensures Valid() && instances == map[] && published == []
    {
      instances, published, reports := map[], [], 0;
    }

    method AddressesLocked() returns (addresses: seq<string>)
      ensures addresses == Addresses(instances)
    {
      var keys := SortedKeys(instances.Keys);
      addresses := [];
      var i := 0;
      while i < |keys|
        invariant 0 <= i <= |keys|
        invariant addresses == AddressesOf(instances, keys)[..i]
      {
        addresses := addresses + [instances[keys[i]].address];
        i := i + 1;
      }
    }

    /** Hands the current addresses to gRPC, reporting Unavailable beside an empty list. */
    method Update()
      requires Usable(instances)
      modifies this`published, this`reports
      ensures Valid() && published == old(published) + [Addresses(instances)]
      ensures reports == old(reports) + (if instances == map[] then 1 else 0)
    {
      hide Usable;
      var addresses := AddressesLocked();
      if |addresses| == 0 {
        reports := reports + 1;
      }
      published := published + [addresses];
    }

    method Replace(list: seq<ServiceInstance>)
      modifies this
      ensures Valid() && instances == Replaced(list) && HoldsList(instances, list)
      ensures published == old(published) + [Addresses(instances)]
    {
      hide ResolverKey, Blank, HoldsList;
      ReplacedHoldsList(list);
      var next: Snapshot := map[];
      var i := 0;
      assert list[..0] == [];
      while i < |list|
        invariant 0 <= i <= |list|
        invariant next == Replaced(list[..i]) && Usable(next)
        invariant instances == old(instances) && published == old(published)
      {
        assert list[..i + 1][..i] == list[..i];
        if !Blank(list[i].address) {
          next := next[ResolverKey(list[i]) := list[i]];
        }
        i := i + 1;
      }
      assert list[..i] == list;
      instances := next;
      Update();
    }

    method Apply(event: DiscoveryEvent)
      requires Valid()
      modifies this
      ensures Valid() && instances == Applied(old(instances), event)
      ensures published == if Visible(event) then old(published) + [Addresses(instances)] else old(published)
    {
      hide ResolverKey, Blank, AddressesOf;
      if Blank(event.instance.address) {
        return;
      }
      match event.kind {
        case Removed => instances := instances - {ResolverKey(event.instance)};
        case _ => instances := instances[ResolverKey(event.instance) := event.instance];
      }
      Update();
    }

    /** The resolver's goroutine: one refresh, then the events of the watch. */
    method Run(refreshed: Result<seq<ServiceInstance>, string>, events: seq<DiscoveryEvent>)
      requires Valid() && instances == map[]
      modifies this
      ensures Valid()
      ensures instances == Consumed(if refreshed.Success? then Replaced(refreshed.value) else map[], events)
      ensures
        var start := if refreshed.Success? then Replaced(refreshed.value) else map[];
        published == old(published) + (if refreshed.Success? then [Addresses(start)] else []) + Publications(start, events)
    {
      hide Addresses, Applied, Visible, Replaced;
      if refreshed.Success? {
        Replace(refreshed.value);
      } else {
        reports := reports + 1;
      }
      ghost var start, before := instances, published;
      var i := 0;
      while i < |events|
        invariant 0 <= i <= |events|
        invariant Valid() && instances == Consumed(start, events[..i])
        invariant published == before + Publications(start, events[..i])
      {
        assert events[..i + 1][..i] == events[..i];
        Apply(events[i]);
        i := i + 1;
      }
      assert events[..i] == events;
      reports := reports + 1;
    }
  }

  // ---------------------------------------------------------------- the mirror

  /** The two keys agree exactly when the id is blank or carries no surrounding space. */
  lemma KeysAgree(instance: ServiceInstance)
    ensures ResolverKey(instance) == InstanceKey(instance)
       <==> Blank(instance.id) || TrimSpace(instance.id) == instance.id
  {
  }

  /** Event `i` is usable and about the resolver's key `k`. */
  predicate Mentions(events: seq<DiscoveryEvent>, i: nat, k: string) {
    i < |events| && Visible(events[i]) && ResolverKey(events[i].instance) == k
  }

  predicate LastMentions(events: seq<DiscoveryEvent>, i: nat, k: string) {
    Mentions(events, i, k) && forall j: nat | i < j < |events| :: !Mentions(events, j, k)
  }

  /** Whatever the ids, what the resolver holds under its own key is decided by the last event about that key. */
  lemma {:induction false} ConsumedAt(start: Snapshot, events: seq<DiscoveryEvent>, k: string)
    ensures
      var mine := Consumed(start, events);
      && ((forall i: nat :: !Mentions(events, i, k)) ==>
            (k in mine <==> k in start) && (k in start ==> mine[k] == start[k]))
      && forall i: nat | LastMentions(events, i, k) ::
           if events[i].kind.Removed? then k !in mine else k in mine && mine[k] == events[i].instance
  {
    hide ResolverKey, Blank;
    if events != [] {
      var n := |events| - 1;
      var init := events[..n];
      ConsumedAt(start, init, k);
      assert forall i: nat | i < n :: Mentions(init, i, k) <==> Mentions(events, i, k);
      if Mentions(events, n, k) {
        assert forall i: nat | LastMentions(events, i, k) :: i == n;
      } else {
        forall i: nat | LastMentions(events, i, k) ensures LastMentions(init, i, k) {
        }
        if forall i: nat :: !Mentions(events, i, k) {
          assert forall i: nat :: !Mentions(init, i, k);
        }
      }
    }
  }

  predicate TrimmedIds(events: seq<DiscoveryEvent>) {
    forall i | 0 <= i < |events| && Visible(events[i]) ::
      Blank(events[i].instance.id) || TrimSpace(events[i].instance.id) == events[i].instance.id
  }

  /** With trimmed ids the resolver performs the producer's replay. */
  lemma {:induction false} ConsumesReplay(start: Snapshot, events: seq<DiscoveryEvent>)
    requires TrimmedIds(events)
    ensures Consumed(start, events) == Replay(start, events)
  {
    if events != [] {
      var n := |events| - 1;
      ConsumesReplay(start, events[..n]);
      KeysAgree(events[n].instance);
    }
  }

  /**
   The mirror: on every key that the stream mentions, the resolver agrees with the producer's
   snapshot, whatever map the initial refresh left. It equals the snapshot exactly when the stream
   mentioned every key that was in that map.
   */
  lemma ResolverMirrors(start: Snapshot, stream: seq<DiscoveryEvent>)
    requires TrimmedIds(stream)
    ensures
      var mine, theirs := Consumed(start, stream), Replay(map[], stream);
      && (forall k | About(stream, k) != [] ::
            (k in mine <==> k in theirs) && (k in theirs ==> mine[k] == theirs[k]))
      && (mine == theirs <==> forall k | k in start :: About(stream, k) != [])
  {
    hide About, Replay, Consumed, TrimmedIds;
    ConsumesReplay(start, stream);
    var mine, theirs := Consumed(start, stream), Replay(map[], stream);
    forall k
      ensures About(stream, k) != [] ==> (k in mine <==> k in theirs) && (k in theirs ==> mine[k] == theirs[k])
      ensures About(stream, k) == [] ==> k !in theirs && (k in mine <==> k in start)
    {
      ReplayAt(start, stream, k);
      ReplayAt(map[], stream, k);
    }
  }

  /**
   End to end: after a run of the watcher over an etcd log, the resolver and the store, as last
   reloaded, agree on every key that the stream mentioned.
   */
  lemma ResolverHoldsStore(scope: Scope, layout: Layout, log: seq<Entry>, compacted: set<nat>, first: nat,
                           legs: seq<Leg>, refreshed: Snapshot, k: string)
    requires LaidOut(scope, layout, log) && Within(log, first, legs)
    requires TrimmedIds(RunStream(View(layout, StoreAt(log[..first])),
                                  RoundsOf(scope, layout, log, compacted, first, legs)))
    requires About(RunStream(View(layout, StoreAt(log[..first])),
                             RoundsOf(scope, layout, log, compacted, first, legs)), k) != []
    ensures
      var mine := Consumed(refreshed, RunStream(View(layout, StoreAt(log[..first])),
                                                RoundsOf(scope, layout, log, compacted, first, legs)));
      var stored := View(layout, StoreAt(log[..From(first, legs, |legs|)]));
      (k in mine <==> k in stored) && (k in stored ==> mine[k] == stored[k])
  {
    hide About, Consumed, TrimmedIds, RunStream, View, StoreAt, Replay;
    RunMirrorsStore(scope, layout, log, compacted, first, legs);
    ResolverMirrors(refreshed, RunStream(View(layout, StoreAt(log[..first])),
                                         RoundsOf(scope, layout, log, compacted, first, legs)));
  }

  /**
   The same of the watcher itself: when the reads and watches of its client come from one log, a
   resolver that has consumed what it sent up to its last resync agrees with the store on every key
   mentioned by then.
   */
  lemma ResolverFollowsService(e: EtcdRun.Etcd, layout: Layout, first: nat, legs: seq<Leg>,
                               sent: seq<DiscoveryEvent>, refreshed: Snapshot, k: string)
    requires LaidOut(e.scope, layout, e.log) && EtcdRun.RunsOnLog(e, layout, first, legs, sent)
    requires TrimmedIds(EtcdRun.StreamOf(e, layout, first, legs[..|legs| - 1]))
    requires About(EtcdRun.StreamOf(e, layout, first, legs[..|legs| - 1]), k) != []
    ensures
      var done := legs[..|legs| - 1];
      var mine := Consumed(refreshed, EtcdRun.StreamOf(e, layout, first, done));
      var stored := View(layout, StoreAt(e.log[..From(first, done, |done|)]));
      && EtcdRun.StreamOf(e, layout, first, done) <= sent
      && (k in mine <==> k in stored) && (k in stored ==> mine[k] == stored[k])
  {
    hide About, Consumed, TrimmedIds, RunStream, View, StoreAt, RoundsOf, LaidOut;
    ResolverHoldsStore(e.scope, layout, e.log, e.compacted, first, legs[..|legs| - 1], refreshed, k);
  }

  /** Every published list is the addresses of the map in key order, none of them blank. */
  lemma PublishedAddresses(instances: Snapshot)
    requires Usable(instances)
    ensures |Addresses(instances)| == |instances|
    ensures forall i | 0 <= i < |Addresses(instances)| :: !Blank(Addresses(instances)[i])
    ensures forall k | k in instances :: instances[k].address in Addresses(instances)
  {
    hide ResolverKey, Blank;
    var keys := SortedKeys(instances.Keys);
    SortedKeysSorts(instances.Keys);
    forall k | k in instances ensures instances[k].address in Addresses(instances) {
      var i :| 0 <= i < |keys| && keys[i] == k;
      assert Addresses(instances)[i] == instances[k].address;
    }
  }

  /**
   Without trimmed ids the replica can go wrong: two updates that the producer files under one key
   leave two entries here.
   */
  lemma UntrimmedIdsDuplicate(id: string, one: ServiceInstance, two: ServiceInstance)
    requires id != "" && Trimmed(id, WHITESPACE) && one.id == id && two.id == id + " "
    requires !Blank(one.address) && !Blank(two.address)
    ensures InstanceKey(one) == InstanceKey(two)
    ensures |Consumed(map[], [DiscoveryEvent(Added, one), DiscoveryEvent(Updated, two)])| == 2
    ensures |Replay(map[], [DiscoveryEvent(Added, one), DiscoveryEvent(Updated, two)])| == 1
  {
    UntrimmedKeys(id, one, two);
    var a, b := DiscoveryEvent(Added, one), DiscoveryEvent(Updated, two);
    assert [a, b][..1] == [a] && [a][..0] == [];
    ConsumedNext(map[], [], a);
    ConsumedNext(map[], [a], b);
    assert [] + [a] == [a] && [a] + [b] == [a, b];
    assert id + " " != id;
    hide Consumed, Replay, ResolverKey, InstanceKey, Blank;
    assert Consumed(map[], [a, b]) == map[id := one, id + " " := two];
    assert Replay(map[], [a, b]) == map[id := two];
  }

  /** The two views after one more event that is not a removal. */
  lemma ConsumedNext(start: Snapshot, events: seq<DiscoveryEvent>, e: DiscoveryEvent)
    requires Visible(e) && !e.kind.Removed?
    ensures Consumed(start, []) == start && Replay(start, []) == start
    ensures Consumed(start, events + [e]) == Consumed(start, events)[ResolverKey(e.instance) := e.instance]
    ensures Replay(start, events + [e]) == Replay(start, events)[InstanceKey(e.instance) := e.instance]
  {
    hide ResolverKey, InstanceKey;
    assert (events + [e])[..|events|] == events;
  }

  lemma UntrimmedKeys(id: string, one: ServiceInstance, two: ServiceInstance)
    requires id != "" && Trimmed(id, WHITESPACE) && one.id == id && two.id == id + " "
    ensures ResolverKey(one) == id && ResolverKey(two) == id + " "
    ensures InstanceKey(one) == id && InstanceKey(two) == id
  {
    hide Trim;
    TrimFixes(id, WHITESPACE);
    TrimAppended(id, ' ', WHITESPACE);
  }
}
