/**
 What discovery computes, as functions: one snapshot of a service's instances, the events that
 describe its changes, and the replay that a consumer of those events performs.
 */
module Discovery {
  import opened Wrappers
  import opened Text
  import opened Registry

  datatype EventType = Added | Updated | Removed

  datatype DiscoveryEvent = DiscoveryEvent(kind: EventType, instance: ServiceInstance)

  // A snapshot is indexed by InstanceKey.
  type Snapshot = map<string, ServiceInstance>

  // A stored value either decodes to an instance or does not decode at all.
  datatype Value = Json(instance: ServiceInstance) | Corrupt

  datatype KeyValue = KeyValue(key: string, value: Value)

  /** An etcd watch event; `prev` is missing when the previous revision was compacted away. */
  datatype WatchEvent =
    | Put(key: string, value: Value, modified: bool, revision: nat)
    | Delete(key: string, prev: Option<Value>, revision: nat)

  function InstanceKey(instance: ServiceInstance): string {
    var id := TrimSpace(instance.id);
    if id != "" then id else TrimSpace(instance.name) + "/" + TrimSpace(instance.address)
  }

  /** A value that a snapshot lists: it decodes and its address is not blank. */
  predicate Good(v: Value) {
    v.Json? && !Blank(v.instance.address)
  }

  predicate Visible(e: DiscoveryEvent) {
    !Blank(e.instance.address)
  }

  function DecodeEvent(event: WatchEvent): Option<DiscoveryEvent> {
    match event
    case Put(_, Json(instance), modified, _) =>
      Some(DiscoveryEvent(if modified then Updated else Added, instance))
    case Delete(_, Some(Json(instance)), _) =>
      Some(DiscoveryEvent(Removed, instance))
    case _ => None
  }

  function ApplySnapshotEvent(snapshot: Snapshot, event: DiscoveryEvent): Snapshot {
    if !Visible(event) then snapshot
    else
      var key := InstanceKey(event.instance);
      match event.kind
      case Added => snapshot[key := event.instance]
      case Updated => snapshot[key := event.instance]
      case Removed => snapshot - {key}
  }

  /** The consumer's view after a stream of events. */
  function Replay(start: Snapshot, events: seq<DiscoveryEvent>): Snapshot {
    if events == [] then start
    else ApplySnapshotEvent(Replay(start, events[..|events| - 1]), events[|events| - 1])
  }

  lemma {:induction false} ReplayConcat(start: Snapshot, a: seq<DiscoveryEvent>, b: seq<DiscoveryEvent>)
    ensures Replay(start, a + b) == Replay(Replay(start, a), b)
  {
    if b == [] {
      assert a + b == a;
    } else {
      var n := |b| - 1;
      assert (a + b)[..|a + b| - 1] == a + b[..n];
      ReplayConcat(start, a, b[..n]);
    }
  }

  /** Every entry has a usable address and sits under its own key. */
  predicate WellKeyed(snapshot: Snapshot) {
    forall k | k in snapshot :: InstanceKey(snapshot[k]) == k && !Blank(snapshot[k].address)
  }

  lemma ApplyKeepsWellKeyed(snapshot: Snapshot, event: DiscoveryEvent)
    requires WellKeyed(snapshot)
    ensures WellKeyed(ApplySnapshotEvent(snapshot, event))
  {
  }

  // ---------------------------------------------------------------- loading

  /** The entries of a prefix read folded into a snapshot; the first corrupt value fails the load. */
  function Load(kvs: seq<KeyValue>): Result<Snapshot, string> {
    if kvs == [] then Success(map[])
    else
      var init := Load(kvs[..|kvs| - 1]);
      var last := kvs[|kvs| - 1].value;
      if init.Failure? then init
      else if last.Corrupt? then Failure("unmarshal")
      else if !Good(last) then init
      else Success(init.value[InstanceKey(last.instance) := last.instance])
  }

  lemma {:induction false} LoadWellKeyed(kvs: seq<KeyValue>)
    ensures Load(kvs).Success? ==> WellKeyed(Load(kvs).value)
    ensures Load(kvs).Failure? <==> exists i | 0 <= i < |kvs| :: kvs[i].value.Corrupt?
  {
    if kvs != [] {
      var n := |kvs| - 1;
      LoadWellKeyed(kvs[..n]);
      if i :| 0 <= i < |kvs| && kvs[i].value.Corrupt? {
        if i < n {
          assert kvs[..n][i].value.Corrupt?;
        }
      }
    }
  }

  /** Entry `i` of the read holds a usable instance with the key `k`. */
  predicate LoadedAs(kvs: seq<KeyValue>, i: nat, k: string) {
    i < |kvs| && Good(kvs[i].value) && InstanceKey(kvs[i].value.instance) == k
  }

  /** It is the last such entry. */
  predicate LastLoadedAs(kvs: seq<KeyValue>, i: nat, k: string) {
    LoadedAs(kvs, i, k) && forall j: nat | i < j < |kvs| :: !LoadedAs(kvs, j, k)
  }

  /** A load that succeeds holds, for each key, the last usable instance that the read has for it, and no other. */
  lemma {:induction false} LoadExact(kvs: seq<KeyValue>, k: string)
    requires Load(kvs).Success?
    ensures k in Load(kvs).value <==> exists i: nat :: LoadedAs(kvs, i, k)
    ensures forall i: nat | LastLoadedAs(kvs, i, k) :: k in Load(kvs).value && Load(kvs).value[k] == kvs[i].value.instance
  {
    hide InstanceKey, Blank;
    if kvs != [] {
      var n := |kvs| - 1;
      var init := kvs[..n];
      LoadExact(init, k);
      assert forall i: nat | i < n :: LoadedAs(init, i, k) <==> LoadedAs(kvs, i, k);
      if LoadedAs(kvs, n, k) {
        assert Load(kvs).value[k] == kvs[n].value.instance;
      }
      forall i: nat | LastLoadedAs(kvs, i, k)
        ensures k in Load(kvs).value && Load(kvs).value[k] == kvs[i].value.instance
      {
        if i < n {
          assert !LoadedAs(kvs, n, k);
          assert LastLoadedAs(init, i, k);
        }
      }
    }
  }

  // ---------------------------------------------------------------- the incremental stream

  /** The discovery events that a batch of watch events gives rise to; undecodable ones are skipped. */
  function Emit(events: seq<WatchEvent>): seq<DiscoveryEvent> {
    if events == [] then []
    else
      var init := Emit(events[..|events| - 1]);
      match DecodeEvent(events[|events| - 1])
      case Some(e) => init + [e]
      case None => init
  }

  lemma {:induction false} EmitConcat(a: seq<WatchEvent>, b: seq<WatchEvent>)
    ensures Emit(a + b) == Emit(a) + Emit(b)
  {
    if b == [] {
      assert a + b == a;
    } else {
      var n := |b| - 1;
      assert (a + b)[..|a + b| - 1] == a + b[..n];
      EmitConcat(a, b[..n]);
    }
  }

  // ---------------------------------------------------------------- the snapshot diff

  /** Removed events for the keys of `prior` that `next` lacks, in the order given. */
  function RemovedEvents(keys: seq<string>, prior: Snapshot, next: Snapshot): seq<DiscoveryEvent>
    requires forall i | 0 <= i < |keys| :: keys[i] in prior
  {
    if keys == [] then []
    else
      var init := RemovedEvents(keys[..|keys| - 1], prior, next);
      var k := keys[|keys| - 1];
      if k in next then init else init + [DiscoveryEvent(Removed, prior[k])]
  }

  /** Added and updated events for the keys of `next` that `prior` lacks or holds differently. */
  function ChangedEvents(keys: seq<string>, prior: Snapshot, next: Snapshot): seq<DiscoveryEvent>
    requires forall i | 0 <= i < |keys| :: keys[i] in next
  {
    if keys == [] then []
    else
      var init := ChangedEvents(keys[..|keys| - 1], prior, next);
      var k := keys[|keys| - 1];
      if k !in prior then init + [DiscoveryEvent(Added, next[k])]
      else if prior[k] != next[k] then init + [DiscoveryEvent(Updated, next[k])]
      else init
  }

  function Diff(prior: Snapshot, next: Snapshot): seq<DiscoveryEvent> {
    RemovedEvents(SortedKeys(prior.Keys), prior, next) + ChangedEvents(SortedKeys(next.Keys), prior, next)
  }

  /** What the diff says about one key: nothing when the snapshots agree on it, else one event. */
  function Change(prior: Snapshot, next: Snapshot, k: string): seq<DiscoveryEvent> {
    if k in prior && k !in next then [DiscoveryEvent(Removed, prior[k])]
    else if k !in prior && k in next then [DiscoveryEvent(Added, next[k])]
    else if k in prior && k in next && prior[k] != next[k] then [DiscoveryEvent(Updated, next[k])]
    else []
  }

  /** The visible events about one instance key, in stream order. */
  function About(events: seq<DiscoveryEvent>, k: string): seq<DiscoveryEvent> {
    if events == [] then []
    else
      var init := About(events[..|events| - 1], k);
      var e := events[|events| - 1];
      if Visible(e) && InstanceKey(e.instance) == k then init + [e] else init
  }

  lemma {:induction false} AboutConcat(a: seq<DiscoveryEvent>, b: seq<DiscoveryEvent>, k: string)
    ensures About(a + b, k) == About(a, k) + About(b, k)
  {
    if b == [] {
      assert a + b == a;
    } else {
      var n := |b| - 1;
      assert (a + b)[..|a + b| - 1] == a + b[..n];
      AboutConcat(a, b[..n], k);
    }
  }

  /** Replay at one key is decided by the last event about that key. */
  lemma {:induction false} ReplayAt(start: Snapshot, events: seq<DiscoveryEvent>, k: string)
    ensures
      var about := About(events, k);
      if about == [] then
        (k in Replay(start, events) <==> k in start) && (k in start ==> Replay(start, events)[k] == start[k])
      else
        var last := about[|about| - 1];
        if last.kind.Removed? then k !in Replay(start, events)
        else k in Replay(start, events) && Replay(start, events)[k] == last.instance
  {
    hide InstanceKey, Blank;
    if events != [] {
      ReplayAt(start, events[..|events| - 1], k);
    }
  }

  lemma AboutOne(init: seq<DiscoveryEvent>, e: DiscoveryEvent, k: string)
    ensures About(init + [e], k) == if Visible(e) && InstanceKey(e.instance) == k then About(init, k) + [e] else About(init, k)
  {
    assert (init + [e])[..|init|] == init;
  }

  lemma {:induction false} AboutRemoved(keys: seq<string>, prior: Snapshot, next: Snapshot, k: string)
    requires WellKeyed(prior) && Ascending(keys)
    requires forall i | 0 <= i < |keys| :: keys[i] in prior
    ensures About(RemovedEvents(keys, prior, next), k)
         == if k in keys && k !in next then [DiscoveryEvent(Removed, prior[k])] else []
  {
    if keys != [] {
      var n := |keys| - 1;
      var j := keys[n];
      assert keys == keys[..n] + [j];
      AboutRemoved(keys[..n], prior, next, k);
      assert j !in keys[..n];
      if j !in next {
        AboutOne(RemovedEvents(keys[..n], prior, next), DiscoveryEvent(Removed, prior[j]), k);
      }
    }
  }

  lemma {:induction false} AboutChanged(keys: seq<string>, prior: Snapshot, next: Snapshot, k: string)
    requires WellKeyed(next) && Ascending(keys)
    requires forall i | 0 <= i < |keys| :: keys[i] in next
    ensures About(ChangedEvents(keys, prior, next), k)
         == if k !in keys then []
            else if k !in prior then [DiscoveryEvent(Added, next[k])]
            else if prior[k] != next[k] then [DiscoveryEvent(Updated, next[k])]
            else []
  {
    if keys != [] {
      var n := |keys| - 1;
      var j := keys[n];
      assert keys == keys[..n] + [j];
      AboutChanged(keys[..n], prior, next, k);
      assert j !in keys[..n];
      var init := ChangedEvents(keys[..n], prior, next);
      if j !in prior {
        AboutOne(init, DiscoveryEvent(Added, next[j]), k);
      } else if prior[j] != next[j] {
        AboutOne(init, DiscoveryEvent(Updated, next[j]), k);
      }
    }
  }

  /** Per key the diff holds exactly the one event that describes the difference, or none. */
  lemma {:induction false} DiffPerKey(prior: Snapshot, next: Snapshot, k: string)
    requires WellKeyed(prior) && WellKeyed(next)
    ensures About(Diff(prior, next), k) == Change(prior, next, k)
  {
    hide InstanceKey, Visible, About, RemovedEvents, ChangedEvents, Ascending, Blank;
    var removed := SortedKeys(prior.Keys);
    var changed := SortedKeys(next.Keys);
    SortedKeysSorts(prior.Keys);
    SortedKeysSorts(next.Keys);
    AboutRemoved(removed, prior, next, k);
    AboutChanged(changed, prior, next, k);
    AboutConcat(RemovedEvents(removed, prior, next), ChangedEvents(changed, prior, next), k);
  }

  lemma DiffReplaysAt(prior: Snapshot, next: Snapshot, k: string)
    requires WellKeyed(prior) && WellKeyed(next)
    ensures k in Replay(prior, Diff(prior, next)) <==> k in next
    ensures k in next ==> Replay(prior, Diff(prior, next))[k] == next[k]
  {
    hide Replay, Diff, InstanceKey, About;
    ReplayAt(prior, Diff(prior, next), k);
    DiffPerKey(prior, next, k);
  }

  function KeysOf(events: seq<DiscoveryEvent>): seq<string> {
    seq(|events|, i requires 0 <= i < |events| => InstanceKey(events[i].instance))
  }

  lemma AscendingNext(keys: seq<string>, events: seq<DiscoveryEvent>, e: DiscoveryEvent)
    requires keys != [] && Ascending(keys) && Ascending(KeysOf(events))
    requires forall i | 0 <= i < |events| :: KeysOf(events)[i] in keys[..|keys| - 1]
    requires InstanceKey(e.instance) == keys[|keys| - 1]
    ensures Ascending(KeysOf(events + [e]))
    ensures forall i | 0 <= i <= |events| :: KeysOf(events + [e])[i] in keys
  {
    hide Leq, InstanceKey;
    var before, after := KeysOf(events), KeysOf(events + [e]);
    assert after == before + [keys[|keys| - 1]];
    forall i | 0 <= i < |before|
      ensures before[i] in keys && before[i] != keys[|keys| - 1] && Leq(before[i], keys[|keys| - 1])
    {
      var front := keys[..|keys| - 1];
      assert before[i] in front;
      var j :| 0 <= j < |front| && front[j] == before[i];
      assert keys[j] == before[i];
    }
    forall i | 0 <= i <= |events| ensures after[i] in keys {
      assert i < |events| ==> after[i] == before[i];
      assert i == |events| ==> after[i] == keys[|keys| - 1];
    }
  }

  lemma {:induction false} RemovedInOrder(keys: seq<string>, prior: Snapshot, next: Snapshot)
    requires WellKeyed(prior) && Ascending(keys) && forall i | 0 <= i < |keys| :: keys[i] in prior
    ensures
      var events := RemovedEvents(keys, prior, next);
      && Ascending(KeysOf(events)) && (forall i | 0 <= i < |events| :: KeysOf(events)[i] in keys)
      && forall i | 0 <= i < |events| :: events[i].kind.Removed?
  {
    hide Leq, InstanceKey, Blank;
    if keys != [] {
      var n := |keys| - 1;
      assert keys == keys[..n] + [keys[n]];
      assert forall x :: x in keys[..n] ==> x in keys;
      RemovedInOrder(keys[..n], prior, next);
      if keys[n] !in next {
        AscendingNext(keys, RemovedEvents(keys[..n], prior, next), DiscoveryEvent(Removed, prior[keys[n]]));
      }
    }
  }

  lemma {:induction false} ChangedInOrder(keys: seq<string>, prior: Snapshot, next: Snapshot)
    requires WellKeyed(next) && Ascending(keys) && forall i | 0 <= i < |keys| :: keys[i] in next
    ensures
      var events := ChangedEvents(keys, prior, next);
      && Ascending(KeysOf(events)) && (forall i | 0 <= i < |events| :: KeysOf(events)[i] in keys)
      && forall i | 0 <= i < |events| :: !events[i].kind.Removed?
  {
    hide Leq, InstanceKey, Blank;
    if keys != [] {
      var n := |keys| - 1;
      assert keys == keys[..n] + [keys[n]];
      assert forall x :: x in keys[..n] ==> x in keys;
      ChangedInOrder(keys[..n], prior, next);
      var init := ChangedEvents(keys[..n], prior, next);
      if keys[n] !in prior {
        AscendingNext(keys, init, DiscoveryEvent(Added, next[keys[n]]));
      } else if prior[keys[n]] != next[keys[n]] {
        AscendingNext(keys, init, DiscoveryEvent(Updated, next[keys[n]]));
      }
    }
  }

  /** A diff sends its removals first and then its other events, each in ascending order of the keys. */
  lemma DiffInOrder(prior: Snapshot, next: Snapshot) returns (m: nat)
    requires WellKeyed(prior) && WellKeyed(next)
    ensures
      var events := Diff(prior, next);
      && m <= |events|
      && (forall i | 0 <= i < |events| :: events[i].kind.Removed? <==> i < m)
      && Ascending(KeysOf(events[..m])) && Ascending(KeysOf(events[m..]))
  {
    hide Leq, InstanceKey, Blank, RemovedEvents, ChangedEvents, WellKeyed, Ascending, KeysOf;
    SortedKeysSorts(prior.Keys);
    SortedKeysSorts(next.Keys);
    RemovedInOrder(SortedKeys(prior.Keys), prior, next);
    ChangedInOrder(SortedKeys(next.Keys), prior, next);
    var removed, changed := RemovedEvents(SortedKeys(prior.Keys), prior, next),
                            ChangedEvents(SortedKeys(next.Keys), prior, next);
    m := |removed|;
    assert Diff(prior, next)[..m] == removed && Diff(prior, next)[m..] == changed;
  }

  /** The diff preserves meaning: replayed over the old snapshot it yields the new one. */
  lemma {:induction false} DiffReplays(prior: Snapshot, next: Snapshot)
    requires WellKeyed(prior) && WellKeyed(next)
    ensures Replay(prior, Diff(prior, next)) == next
  {
    hide Replay, Diff, InstanceKey;
    var result := Replay(prior, Diff(prior, next));
    forall k
      ensures k in result <==> k in next
      ensures k in next ==> k in result && result[k] == next[k]
    {
      DiffReplaysAt(prior, next, k);
    }
  }

  // ---------------------------------------------------------------- the stream grammar

  /**
   `events` is a prefix of a word of (Added Updated* Removed)*, read from a state in which the
   instance is live or not.
   */
  predicate Cyclic(events: seq<DiscoveryEvent>, live: bool) {
    events == [] ||
    match events[0].kind
    case Added => !live && Cyclic(events[1..], true)
    case Updated => live && Cyclic(events[1..], true)
    case Removed => live && Cyclic(events[1..], false)
  }

  function LiveAfter(events: seq<DiscoveryEvent>, live: bool): bool {
    if events == [] then live else !events[|events| - 1].kind.Removed?
  }

  lemma {:induction false} CyclicConcat(a: seq<DiscoveryEvent>, b: seq<DiscoveryEvent>, live: bool)
    ensures Cyclic(a + b, live) <==> Cyclic(a, live) && Cyclic(b, LiveAfter(a, live))
  {
    if a == [] {
      assert a + b == b;
    } else {
      assert (a + b)[1..] == a[1..] + b;
      CyclicConcat(a[1..], b, !a[0].kind.Removed?);
    }
  }

  /** The word of each key ends live exactly when replay holds the key. */
  lemma {:induction false} LiveAfterReplay(start: Snapshot, events: seq<DiscoveryEvent>, k: string)
    ensures LiveAfter(About(events, k), k in start) <==> k in Replay(start, events)
  {
    if events != [] {
      LiveAfterReplay(start, events[..|events| - 1], k);
    }
  }

  /** An event that fits the snapshot it meets: Added for an absent key, the others for a present one. */
  predicate Fits(snapshot: Snapshot, e: DiscoveryEvent) {
    Visible(e) ==> (e.kind.Added? <==> InstanceKey(e.instance) !in snapshot)
  }

  /** Every visible event of the stream fits the replayed state it meets. */
  predicate WellBracketed(start: Snapshot, events: seq<DiscoveryEvent>) {
    events == [] ||
    var n := |events| - 1;
    WellBracketed(start, events[..n]) && Fits(Replay(start, events[..n]), events[n])
  }

  lemma BracketedStep(start: Snapshot, events: seq<DiscoveryEvent>, e: DiscoveryEvent)
    ensures WellBracketed(start, events + [e]) <==> WellBracketed(start, events) && Fits(Replay(start, events), e)
  {
    assert (events + [e])[..|events|] == events;
  }

  /** Extending the word of one key by one event. */
  lemma CyclicStep(start: Snapshot, events: seq<DiscoveryEvent>, e: DiscoveryEvent, k: string)
    ensures Cyclic(About(events + [e], k), k in start)
       <==> Cyclic(About(events, k), k in start)
            && (Visible(e) && InstanceKey(e.instance) == k ==> (e.kind.Added? <==> k !in Replay(start, events)))
  {
    AboutOne(events, e, k);
    if Visible(e) && InstanceKey(e.instance) == k {
      CyclicConcat(About(events, k), [e], k in start);
      LiveAfterReplay(start, events, k);
      assert [e][1..] == [];
    }
  }

  /**
   A stream is well bracketed exactly when, for every instance key, the visible events about it
   follow (Added Updated* Removed)*.
   */
  lemma {:induction false} BracketedIsCyclic(start: Snapshot, events: seq<DiscoveryEvent>)
    ensures WellBracketed(start, events) <==> forall k :: Cyclic(About(events, k), k in start)
  {
    if events != [] {
      var n := |events| - 1;
      var init, e := events[..n], events[n];
      assert events == init + [e];
      BracketedIsCyclic(start, init);
      forall k ensures
        Cyclic(About(events, k), k in start)
        <==> Cyclic(About(init, k), k in start)
             && (Visible(e) && InstanceKey(e.instance) == k ==> (e.kind.Added? <==> k !in Replay(start, init)))
      {
        CyclicStep(start, init, e, k);
      }
      if !Fits(Replay(start, init), e) {
        assert !Cyclic(About(events, InstanceKey(e.instance)), InstanceKey(e.instance) in start);
      }
    } else {
      assert forall k :: Cyclic(About(events, k), k in start);
    }
  }

  /** A stream that obeys the grammar may be continued by any stream that obeys it from there on. */
  lemma {:induction false} BracketedConcat(start: Snapshot, a: seq<DiscoveryEvent>, b: seq<DiscoveryEvent>)
    ensures WellBracketed(start, a + b) <==> WellBracketed(start, a) && WellBracketed(Replay(start, a), b)
  {
    if b == [] {
      assert a + b == a;
    } else {
      var n := |b| - 1;
      assert (a + b)[..|a + b| - 1] == a + b[..n];
      BracketedConcat(start, a, b[..n]);
      ReplayConcat(start, a, b[..n]);
    }
  }

  lemma DiffCyclic(prior: Snapshot, next: Snapshot, k: string)
    requires WellKeyed(prior) && WellKeyed(next)
    ensures Cyclic(About(Diff(prior, next), k), k in prior)
  {
    hide Diff, InstanceKey, About;
    DiffPerKey(prior, next, k);
    var c := Change(prior, next, k);
    assert c == [] || (|c| == 1 && c[1..] == []);
  }

  /** What a cancelled watcher managed to send still obeys the grammar. */
  lemma PrefixBracketed(start: Snapshot, sent: seq<DiscoveryEvent>, stream: seq<DiscoveryEvent>)
    requires sent <= stream && WellBracketed(start, stream)
    ensures WellBracketed(start, sent)
  {
    assert stream == sent + stream[|sent|..];
    BracketedConcat(start, sent, stream[|sent|..]);
  }

  /** A diff always obeys the grammar, whatever the two snapshots are. */
  lemma DiffBracketed(prior: Snapshot, next: Snapshot)
    requires WellKeyed(prior) && WellKeyed(next)
    ensures WellBracketed(prior, Diff(prior, next))
  {
    var events := Diff(prior, next);
    assert forall k :: Cyclic(About(events, k), k in prior) by {
      forall k ensures Cyclic(About(events, k), k in prior) { DiffCyclic(prior, next, k); }
    }
    BracketedIsCyclic(prior, events);
  }

  // ---------------------------------------------------------------- whole runs

  /** One turn of the watch loop: the watch events it consumed and the snapshot it then reloaded. */
  datatype Round = Round(events: seq<WatchEvent>, next: Snapshot)

  /** The snapshot after the given rounds. */
  function RunSnapshot(first: Snapshot, rounds: seq<Round>): Snapshot {
    if rounds == [] then first else rounds[|rounds| - 1].next
  }

  lemma RunSnapshotAt(first: Snapshot, rounds: seq<Round>, i: nat)
    requires i <= |rounds|
    ensures RunSnapshot(first, rounds[..i]) == if i == 0 then first else rounds[i - 1].next
  {
  }

  /** Everything sent on the channel: the first snapshot, then each round's increments and diff. */
  function RunStream(first: Snapshot, rounds: seq<Round>): seq<DiscoveryEvent> {
    if rounds == [] then Diff(map[], first)
    else
      var before := rounds[..|rounds| - 1];
      var last := rounds[|rounds| - 1];
      var sent := Emit(last.events);
      RunStream(first, before) + sent + Diff(Replay(RunSnapshot(first, before), sent), last.next)
  }

  ghost predicate LoadedRounds(rounds: seq<Round>) {
    forall i | 0 <= i < |rounds| :: WellKeyed(rounds[i].next)
  }

  lemma {:induction false} ReplayWellKeyed(start: Snapshot, events: seq<DiscoveryEvent>)
    requires WellKeyed(start)
    ensures WellKeyed(Replay(start, events))
  {
    if events != [] {
      ReplayWellKeyed(start, events[..|events| - 1]);
      ApplyKeepsWellKeyed(Replay(start, events[..|events| - 1]), events[|events| - 1]);
    }
  }

  /**
   Over every run, whatever the watch delivered, replaying all that was sent rebuilds the
   current snapshot.
   */
  lemma {:induction false} RunReplays(first: Snapshot, rounds: seq<Round>)
    requires WellKeyed(first) && LoadedRounds(rounds)
    ensures Replay(map[], RunStream(first, rounds)) == RunSnapshot(first, rounds)
    ensures WellKeyed(RunSnapshot(first, rounds))
  {
    if rounds == [] {
      DiffReplays(map[], first);
    } else {
      var before := rounds[..|rounds| - 1];
      var last := rounds[|rounds| - 1];
      var sent := Emit(last.events);
      RunReplays(first, before);
      ReplayConcat(map[], RunStream(first, before), sent);
      var mid := Replay(RunSnapshot(first, before), sent);
      ReplayWellKeyed(RunSnapshot(first, before), sent);
      ReplayConcat(map[], RunStream(first, before) + sent, Diff(mid, last.next));
      DiffReplays(mid, last.next);
    }
  }

  /** Each round's increments obey the grammar from the snapshot they are applied to. */
  ghost predicate BracketedRounds(first: Snapshot, rounds: seq<Round>) {
    forall i | 0 <= i < |rounds| :: WellBracketed(RunSnapshot(first, rounds[..i]), Emit(rounds[i].events))
  }

  lemma BracketedRoundsStep(first: Snapshot, before: seq<Round>, last: Round)
    ensures BracketedRounds(first, before + [last])
       <==> BracketedRounds(first, before) && WellBracketed(RunSnapshot(first, before), Emit(last.events))
  {
    var rounds := before + [last];
    var n := |before|;
    assert forall i | 0 <= i < n :: before[..i] == rounds[..i] && before[i] == rounds[i];
    assert rounds[..n] == before && rounds[n] == last;
  }

  /**
   Resyncs never break the grammar: over any run the whole stream obeys it exactly when each
   round's increments do.
   */
  lemma {:induction false} RunBracketed(first: Snapshot, rounds: seq<Round>)
    requires WellKeyed(first) && LoadedRounds(rounds)
    ensures WellBracketed(map[], RunStream(first, rounds)) <==> BracketedRounds(first, rounds)
  {
    if rounds == [] {
      DiffBracketed(map[], first);
    } else {
      var n := |rounds| - 1;
      var before, last := rounds[..n], rounds[n];
      RunBracketed(first, before);
      BracketedRoundsStep(first, before, last);
      assert before + [last] == rounds;
      RunReplays(first, before);
      var sent := Emit(last.events);
      var mid := Replay(RunSnapshot(first, before), sent);
      ReplayWellKeyed(RunSnapshot(first, before), sent);
      DiffBracketed(mid, last.next);
      BracketedConcat(map[], RunStream(first, before), sent);
      ReplayConcat(map[], RunStream(first, before), sent);
      BracketedConcat(map[], RunStream(first, before) + sent, Diff(mid, last.next));
    }
  }
}
