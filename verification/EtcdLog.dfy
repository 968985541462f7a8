/**
 Etcd as a revisioned log: the store at position n is the log's first n entries folded, a prefix
 read returns that store's entries, and a watch from there reports the entries after it. Etcd calls
 position n revision n + 1, as the empty store already has revision 1.
 Against this model the incremental snapshot is compared with a reload.
 */
module EtcdLog {
  import opened Wrappers
  import opened Text
  import opened Registry
  import opened Discovery

  datatype Entry = Write(key: string, value: Value) | Erase(key: string)

  type Store = map<string, Value>

  function Revision(position: nat): nat {
    position + 1
  }

  // The keys that a prefix read or a prefix watch covers.
  type Scope = iset<string>

  predicate Covers(prefix: string, key: string) {
    prefix <= key
  }

  ghost function Under(prefix: string): Scope {
    iset key: string | Covers(prefix, key)
  }

  function ApplyEntry(store: Store, entry: Entry): Store {
    match entry
    case Write(key, value) => store[key := value]
    case Erase(key) => store - {key}
  }

  function StoreAt(log: seq<Entry>): Store {
    if log == [] then map[] else ApplyEntry(StoreAt(log[..|log| - 1]), log[|log| - 1])
  }

  /**
   The watch event that reports one entry written at `revision` over `store`; `gap` says that the
   previous value is no longer available.
   */
  ghost function Report(scope: Scope, store: Store, entry: Entry, gap: bool, revision: nat): seq<WatchEvent> {
    if entry.key !in scope then []
    else match entry
      case Write(key, value) => [Put(key, value, key in store, revision)]
      case Erase(key) =>
        if key !in store then [] else [Delete(key, if gap then None else Some(store[key]), revision)]
  }

  /**
   The watch events for the entries after position `lo` up to position `hi` under `scope`. The
   entries at the positions in `compacted` are reported without the previous value.
   */
  ghost function Feed(scope: Scope, log: seq<Entry>, compacted: set<nat>, lo: nat, hi: nat): seq<WatchEvent>
    requires hi <= |log|
  {
    if hi <= lo then []
    else
      Feed(scope, log, compacted, lo, hi - 1)
      + Report(scope, StoreAt(log[..hi - 1]), log[hi - 1], hi in compacted, Revision(hi))
  }

  /**
   Which instance key lives at which etcd key: a one-to-one correspondence, so that each etcd key
   keeps one instance key for good and no two etcd keys share one.
   */
  datatype Layout = Layout(names: map<string, string>, home: map<string, string>) {
    ghost predicate OneToOne(scope: Scope) {
      && (forall k | k in names :: k in scope && names[k] in home && home[names[k]] == k)
      && (forall x | x in home :: home[x] in names && names[home[x]] == x)
    }
  }

  ghost predicate Placed(layout: Layout, key: string, value: Value) {
    Good(value) ==> key in layout.names && layout.names[key] == InstanceKey(value.instance)
  }

  /** Every usable value that the log writes in scope respects the layout. */
  ghost predicate LaidOut(scope: Scope, layout: Layout, log: seq<Entry>) {
    && layout.OneToOne(scope)
    && forall i | 0 <= i < |log| && log[i].Write? && log[i].key in scope :: Placed(layout, log[i].key, log[i].value)
  }

  predicate Listed(store: Store, key: string) {
    key in store && Good(store[key])
  }

  /** The instances a store holds in scope, by instance key. */
  function View(layout: Layout, store: Store): Snapshot {
    map x | x in layout.home && Listed(store, layout.home[x]) :: store[layout.home[x]].instance
  }

  lemma {:induction false} StorePlaced(scope: Scope, layout: Layout, log: seq<Entry>, key: string)
    requires LaidOut(scope, layout, log)
    requires key in scope && Listed(StoreAt(log), key)
    ensures Placed(layout, key, StoreAt(log)[key])
  {
    var n := |log| - 1;
    if log != [] && log[n].key != key {
      StorePlaced(scope, layout, log[..n], key);
    }
  }

  lemma ViewWellKeyed(scope: Scope, layout: Layout, log: seq<Entry>)
    requires LaidOut(scope, layout, log)
    ensures WellKeyed(View(layout, StoreAt(log)))
  {
    var store := StoreAt(log);
    forall x | x in View(layout, store) ensures InstanceKey(View(layout, store)[x]) == x {
      StorePlaced(scope, layout, log, layout.home[x]);
    }
  }

  // ---------------------------------------------------------------- reloading

  /** The answer to a prefix read: each entry of the store in scope, once. */
  ghost predicate Reads(kvs: seq<KeyValue>, scope: Scope, store: Store) {
    && (forall i, j | 0 <= i < j < |kvs| :: kvs[i].key != kvs[j].key)
    && (forall i | 0 <= i < |kvs| ::
          kvs[i].key in scope && kvs[i].key in store && store[kvs[i].key] == kvs[i].value)
    && (forall k | k in store && k in scope :: exists i :: 0 <= i < |kvs| && kvs[i].key == k)
  }

  ghost predicate DistinctInstances(kvs: seq<KeyValue>) {
    forall i, j | 0 <= i < j < |kvs| && Good(kvs[i].value) && Good(kvs[j].value) ::
      InstanceKey(kvs[i].value.instance) != InstanceKey(kvs[j].value.instance)
  }

  lemma {:induction false} LoadContents(kvs: seq<KeyValue>)
    requires DistinctInstances(kvs) && Load(kvs).Success?
    ensures forall i | 0 <= i < |kvs| && Good(kvs[i].value) ::
      InstanceKey(kvs[i].value.instance) in Load(kvs).value
      && Load(kvs).value[InstanceKey(kvs[i].value.instance)] == kvs[i].value.instance
    ensures forall x | x in Load(kvs).value ::
      exists i :: 0 <= i < |kvs| && Good(kvs[i].value) && InstanceKey(kvs[i].value.instance) == x
  {
    if kvs != [] {
      var n := |kvs| - 1;
      var rest := kvs[..n];
      assert forall i | 0 <= i < n :: rest[i] == kvs[i];
      LoadContents(rest);
      forall x | x in Load(kvs).value
        ensures exists i :: 0 <= i < |kvs| && Good(kvs[i].value) && InstanceKey(kvs[i].value.instance) == x
      {
        if x in Load(rest).value {
          var i :| 0 <= i < n && Good(rest[i].value) && InstanceKey(rest[i].value.instance) == x;
          assert kvs[i] == rest[i];
        } else {
          assert Good(kvs[n].value) && InstanceKey(kvs[n].value.instance) == x;
        }
      }
    }
  }

  lemma ReadsAreDistinct(kvs: seq<KeyValue>, scope: Scope, layout: Layout, log: seq<Entry>)
    requires LaidOut(scope, layout, log)
    requires Reads(kvs, scope, StoreAt(log))
    ensures DistinctInstances(kvs)
    ensures forall i | 0 <= i < |kvs| :: Placed(layout, kvs[i].key, kvs[i].value)
  {
    forall i | 0 <= i < |kvs| ensures Placed(layout, kvs[i].key, kvs[i].value) {
      if Good(kvs[i].value) {
        StorePlaced(scope, layout, log, kvs[i].key);
      }
    }
  }

  /** A reload fails exactly when some value in scope does not decode. */
  lemma ReloadFails(kvs: seq<KeyValue>, scope: Scope, store: Store)
    requires Reads(kvs, scope, store)
    ensures Load(kvs).Failure? <==> exists k :: k in store && k in scope && store[k].Corrupt?
  {
    LoadWellKeyed(kvs);
    if i :| 0 <= i < |kvs| && kvs[i].value.Corrupt? {
      assert kvs[i].key in store && kvs[i].key in scope && store[kvs[i].key].Corrupt?;
    }
    if k :| k in store && k in scope && store[k].Corrupt? {
      var i :| 0 <= i < |kvs| && kvs[i].key == k;
      assert kvs[i].value.Corrupt?;
    }
  }

  /** A reload that succeeds returns the instances of the store, whatever order they are read in. */
  lemma {:induction false} ReloadIsView(kvs: seq<KeyValue>, scope: Scope, layout: Layout, log: seq<Entry>)
    requires LaidOut(scope, layout, log)
    requires Reads(kvs, scope, StoreAt(log))
    requires Load(kvs).Success?
    ensures Load(kvs).value == View(layout, StoreAt(log))
  {
    ReadsAreDistinct(kvs, scope, layout, log);
    LoadContents(kvs);
    ViewOfReads(kvs, scope, layout, StoreAt(log), Load(kvs).value);
  }

  lemma ViewOfReads(kvs: seq<KeyValue>, scope: Scope, layout: Layout, store: Store, loaded: Snapshot)
    requires layout.OneToOne(scope) && Reads(kvs, scope, store)
    requires forall i | 0 <= i < |kvs| :: Placed(layout, kvs[i].key, kvs[i].value)
    requires forall i | 0 <= i < |kvs| && Good(kvs[i].value) ::
      InstanceKey(kvs[i].value.instance) in loaded
      && loaded[InstanceKey(kvs[i].value.instance)] == kvs[i].value.instance
    requires forall x | x in loaded ::
      exists i :: 0 <= i < |kvs| && Good(kvs[i].value) && InstanceKey(kvs[i].value.instance) == x
    ensures loaded == View(layout, store)
  {
    hide InstanceKey, Blank;
    var view := View(layout, store);
    forall x
      ensures x in loaded <==> x in view
      ensures x in view ==> x in loaded && loaded[x] == view[x]
    {
      if x in view {
        var i :| 0 <= i < |kvs| && kvs[i].key == layout.home[x];
        assert Good(kvs[i].value) && Placed(layout, kvs[i].key, kvs[i].value);
      }
      if x in loaded {
        var i :| 0 <= i < |kvs| && Good(kvs[i].value) && InstanceKey(kvs[i].value.instance) == x;
        assert Placed(layout, kvs[i].key, kvs[i].value);
        assert layout.home[x] == kvs[i].key;
      }
    }
  }

  // ---------------------------------------------------------------- the incremental snapshot

  /** The effect of one entry on the stranded keys. */
  ghost function Strand(scope: Scope, store: Store, entry: Entry, gap: bool, stranded: set<string>): set<string> {
    if entry.key !in scope then stranded
    else if entry.Write? && Good(entry.value) then stranded - {entry.key}
    else if Listed(store, entry.key) && (entry.Write? || gap) then stranded + {entry.key}
    else stranded
  }

  /**
   The etcd keys whose instance the incremental snapshot keeps although the store no longer lists
   it: a listed value was overwritten by an unusable one, or deleted in an event that carries no
   previous value, and no usable value was written since.
   */
  ghost function Stranded(scope: Scope, log: seq<Entry>, compacted: set<nat>, lo: nat, hi: nat): set<string>
    requires hi <= |log|
  {
    if hi <= lo then {}
    else Strand(scope, StoreAt(log[..hi - 1]), log[hi - 1], hi in compacted,
                Stranded(scope, log, compacted, lo, hi - 1))
  }

  /** The store, the stranded keys and the incremental snapshot after the same log entries. */
  datatype Cursor = Cursor(store: Store, stranded: set<string>, snapshot: Snapshot)

  /** What the watch makes of one entry. */
  ghost function Observe(scope: Scope, store: Store, entry: Entry, gap: bool): Option<DiscoveryEvent> {
    if entry.key !in scope then None
    else if entry.Write? then
      if entry.value.Corrupt? then None
      else Some(DiscoveryEvent(if entry.key in store then Updated else Added, entry.value.instance))
    else if gap || entry.key !in store || store[entry.key].Corrupt? then None
    else Some(DiscoveryEvent(Removed, store[entry.key].instance))
  }

  ghost function Advance(scope: Scope, c: Cursor, entry: Entry, gap: bool): Cursor {
    Cursor(ApplyEntry(c.store, entry),
           Strand(scope, c.store, entry, gap, c.stranded),
           match Observe(scope, c.store, entry, gap)
           case Some(e) => ApplySnapshotEvent(c.snapshot, e)
           case None => c.snapshot)
  }

  ghost function CursorAt(scope: Scope, log: seq<Entry>, compacted: set<nat>, lo: nat, hi: nat, start: Snapshot): Cursor
    requires lo <= hi <= |log|
  {
    if hi == lo then Cursor(StoreAt(log[..lo]), {}, start)
    else Advance(scope, CursorAt(scope, log, compacted, lo, hi - 1, start), log[hi - 1], hi in compacted)
  }

  lemma EmitReport(scope: Scope, store: Store, entry: Entry, gap: bool, revision: nat)
    ensures Emit(Report(scope, store, entry, gap, revision))
         == match Observe(scope, store, entry, gap) case Some(e) => [e] case None => []
  {
    var report := Report(scope, store, entry, gap, revision);
    assert report == [] || report[..|report| - 1] == [];
  }

  lemma ReplayEmit(start: Snapshot, a: seq<WatchEvent>, scope: Scope, store: Store, entry: Entry, gap: bool,
                   revision: nat)
    ensures Replay(start, Emit(a + Report(scope, store, entry, gap, revision)))
         == match Observe(scope, store, entry, gap)
            case Some(e) => ApplySnapshotEvent(Replay(start, Emit(a)), e)
            case None => Replay(start, Emit(a))
  {
    var report := Report(scope, store, entry, gap, revision);
    EmitConcat(a, report);
    EmitReport(scope, store, entry, gap, revision);
    if Observe(scope, store, entry, gap).Some? {
      var e := Observe(scope, store, entry, gap).value;
      assert (Emit(a) + [e])[..|Emit(a)|] == Emit(a);
    } else {
      assert Emit(a) + [] == Emit(a);
    }
  }

  lemma {:induction false} CursorIs(scope: Scope, log: seq<Entry>, compacted: set<nat>, lo: nat, hi: nat,
                                    start: Snapshot)
    requires lo <= hi <= |log|
    ensures CursorAt(scope, log, compacted, lo, hi, start)
         == Cursor(StoreAt(log[..hi]), Stranded(scope, log, compacted, lo, hi),
                   Replay(start, Emit(Feed(scope, log, compacted, lo, hi))))
  {
    hide Emit, Replay, Observe, Report, Strand, ApplySnapshotEvent;
    if lo < hi {
      CursorIs(scope, log, compacted, lo, hi - 1, start);
      assert log[..hi][..hi - 1] == log[..hi - 1] && log[..hi][hi - 1] == log[hi - 1];
      ReplayEmit(start, Feed(scope, log, compacted, lo, hi - 1), scope, StoreAt(log[..hi - 1]), log[hi - 1],
                 hi in compacted, Revision(hi));
    } else {
      NothingFed(scope, log, compacted, lo, start);
    }
  }

  /**
   Under `name`, the snapshot holds what the store lists at `key`, or else a stranded instance;
   and what the store lists at `key` goes by that name.
   */
  ghost predicate TracksKey(name: string, key: string, c: Cursor) {
    && (name in c.snapshot <==> Listed(c.store, key) || key in c.stranded)
    && (Listed(c.store, key) ==>
          && c.snapshot[name] == c.store[key].instance
          && InstanceKey(c.store[key].instance) == name
          && key !in c.stranded)
  }

  /** The snapshot holds what the store lists in scope and, besides, the stranded keys. */
  ghost predicate Tracks(scope: Scope, layout: Layout, c: Cursor) {
    && c.snapshot.Keys <= layout.home.Keys
    && c.stranded <= layout.names.Keys
    && (forall k | k in layout.names :: TracksKey(layout.names[k], k, c))
    && (forall k | k in scope && Listed(c.store, k) :: k in layout.names)
  }

  lemma Apart(scope: Scope, layout: Layout, a: string, b: string)
    requires layout.OneToOne(scope) && a in layout.names && b in layout.names && a != b
    ensures layout.names[a] != layout.names[b]
  {
    assert layout.home[layout.names[a]] == a && layout.home[layout.names[b]] == b;
  }

  /** Which key of the snapshot an entry can touch: the one that its etcd key goes by. */
  lemma ObservedKey(scope: Scope, layout: Layout, c: Cursor, entry: Entry, gap: bool)
    requires Tracks(scope, layout, c)
    requires entry.key in scope && entry.Write? ==> Placed(layout, entry.key, entry.value)
    ensures
      match Observe(scope, c.store, entry, gap)
      case None => true
      case Some(e) => Visible(e) ==> entry.key in layout.names && InstanceKey(e.instance) == layout.names[entry.key]
  {
    if entry.key in scope && Listed(c.store, entry.key) {
      assert TracksKey(layout.names[entry.key], entry.key, c);
    }
  }

  lemma AdvanceKey(scope: Scope, layout: Layout, c: Cursor, entry: Entry, gap: bool, k: string)
    requires Tracks(scope, layout, c) && layout.OneToOne(scope) && k in layout.names
    requires entry.key in scope && entry.Write? ==> Placed(layout, entry.key, entry.value)
    ensures TracksKey(layout.names[k], k, Advance(scope, c, entry, gap))
  {
    hide InstanceKey, Blank;
    assert TracksKey(layout.names[k], k, c);
    assert k in scope;
    ObservedKey(scope, layout, c, entry, gap);
    if entry.key != k && entry.key in layout.names {
      Apart(scope, layout, k, entry.key);
    }
  }

  /** What one log entry does to an incremental snapshot that tracked the log so far. */
  lemma AdvanceTracks(scope: Scope, layout: Layout, c: Cursor, entry: Entry, gap: bool)
    requires Tracks(scope, layout, c) && layout.OneToOne(scope)
    requires entry.key in scope && entry.Write? ==> Placed(layout, entry.key, entry.value)
    ensures Tracks(scope, layout, Advance(scope, c, entry, gap))
  {
    hide InstanceKey, Blank;
    ObservedKey(scope, layout, c, entry, gap);
    forall k | k in layout.names ensures TracksKey(layout.names[k], k, Advance(scope, c, entry, gap)) {
      AdvanceKey(scope, layout, c, entry, gap, k);
    }
  }

  /** A fresh view strands nothing, and a snapshot that strands nothing is the view. */
  lemma ViewTracks(scope: Scope, layout: Layout, log: seq<Entry>)
    requires LaidOut(scope, layout, log)
    ensures Tracks(scope, layout, Cursor(StoreAt(log), {}, View(layout, StoreAt(log))))
  {
    var c := Cursor(StoreAt(log), {}, View(layout, StoreAt(log)));
    forall k | k in scope && Listed(c.store, k) ensures Placed(layout, k, c.store[k]) {
      StorePlaced(scope, layout, log, k);
    }
    forall k | k in layout.names ensures TracksKey(layout.names[k], k, c) {
      assert layout.home[layout.names[k]] == k;
    }
  }

  lemma TracksExactly(scope: Scope, layout: Layout, c: Cursor)
    requires layout.OneToOne(scope) && Tracks(scope, layout, c)
    ensures c.snapshot == View(layout, c.store) <==> c.stranded == {}
  {
    var view := View(layout, c.store);
    if c.stranded != {} {
      var k :| k in c.stranded;
      assert TracksKey(layout.names[k], k, c);
      assert layout.home[layout.names[k]] == k;
      assert layout.names[k] in c.snapshot && layout.names[k] !in view;
    } else {
      forall x
        ensures x in c.snapshot <==> x in view
        ensures x in view ==> c.snapshot[x] == view[x]
      {
        if x in layout.home {
          assert TracksKey(layout.names[layout.home[x]], layout.home[x], c);
          assert layout.names[layout.home[x]] == x;
        }
      }
    }
  }

  lemma CursorStep(scope: Scope, layout: Layout, log: seq<Entry>, compacted: set<nat>, lo: nat, hi: nat,
                   start: Snapshot)
    requires lo < hi <= |log| && LaidOut(scope, layout, log)
    requires Tracks(scope, layout, CursorAt(scope, log, compacted, lo, hi - 1, start))
    ensures Tracks(scope, layout, CursorAt(scope, log, compacted, lo, hi, start))
  {
    AdvanceTracks(scope, layout, CursorAt(scope, log, compacted, lo, hi - 1, start), log[hi - 1], hi in compacted);
  }

  lemma {:induction false} CursorTracks(scope: Scope, layout: Layout, log: seq<Entry>, compacted: set<nat>,
                                        lo: nat, hi: nat, start: Snapshot)
    requires lo <= hi <= |log| && LaidOut(scope, layout, log)
    requires Tracks(scope, layout, Cursor(StoreAt(log[..lo]), {}, start))
    ensures Tracks(scope, layout, CursorAt(scope, log, compacted, lo, hi, start))
  {
    if lo < hi {
      CursorTracks(scope, layout, log, compacted, lo, hi - 1, start);
      CursorStep(scope, layout, log, compacted, lo, hi, start);
    }
  }

  lemma IncrementalTracks(scope: Scope, layout: Layout, log: seq<Entry>, compacted: set<nat>,
                          lo: nat, hi: nat, start: Snapshot)
    requires lo <= hi <= |log| && LaidOut(scope, layout, log)
    requires Tracks(scope, layout, Cursor(StoreAt(log[..lo]), {}, start))
    ensures Tracks(scope, layout, Cursor(StoreAt(log[..hi]), Stranded(scope, log, compacted, lo, hi),
                                         Replay(start, Emit(Feed(scope, log, compacted, lo, hi)))))
  {
    CursorTracks(scope, layout, log, compacted, lo, hi, start);
    CursorIs(scope, log, compacted, lo, hi, start);
  }

  /**
   Incremental equals reload: a snapshot loaded at position lo and fed the watch up to position hi
   is the snapshot a reload at hi would return exactly when no entry in between stranded a key.
   */
  lemma IncrementalEqualsReload(scope: Scope, layout: Layout, log: seq<Entry>, compacted: set<nat>, lo: nat, hi: nat)
    requires lo <= hi <= |log| && LaidOut(scope, layout, log)
    ensures Replay(View(layout, StoreAt(log[..lo])), Emit(Feed(scope, log, compacted, lo, hi)))
         == View(layout, StoreAt(log[..hi]))
       <==> Stranded(scope, log, compacted, lo, hi) == {}
  {
    var start := View(layout, StoreAt(log[..lo]));
    ViewTracks(scope, layout, log[..lo]);
    IncrementalTracks(scope, layout, log, compacted, lo, hi, start);
    TracksExactly(scope, layout, Cursor(StoreAt(log[..hi]), Stranded(scope, log, compacted, lo, hi),
                                        Replay(start, Emit(Feed(scope, log, compacted, lo, hi)))));
  }

  // ---------------------------------------------------------------- the grammar of increments

  /**
   A usable write meets a key that the snapshot treats as etcd does: created while the snapshot
   lacks it, or modified while the snapshot holds it.
   */
  ghost predicate Meets(scope: Scope, store: Store, entry: Entry, stranded: set<string>) {
    entry.key in scope && entry.Write? && Good(entry.value) ==>
      (entry.key in store <==> Listed(store, entry.key) || entry.key in stranded)
  }

  ghost predicate Tidy(scope: Scope, log: seq<Entry>, compacted: set<nat>, lo: nat, hi: nat)
    requires hi <= |log|
  {
    lo < hi ==>
      && Tidy(scope, log, compacted, lo, hi - 1)
      && Meets(scope, StoreAt(log[..hi - 1]), log[hi - 1], Stranded(scope, log, compacted, lo, hi - 1))
  }

  lemma ObservedFits(scope: Scope, layout: Layout, c: Cursor, entry: Entry, gap: bool)
    requires Tracks(scope, layout, c)
    requires entry.key in scope && entry.Write? ==> Placed(layout, entry.key, entry.value)
    ensures
      Meets(scope, c.store, entry, c.stranded) <==>
      match Observe(scope, c.store, entry, gap)
      case Some(e) => Fits(c.snapshot, e)
      case None => true
  {
    ObservedKey(scope, layout, c, entry, gap);
    if entry.key in scope && entry.key in layout.names {
      assert TracksKey(layout.names[entry.key], entry.key, c);
    }
  }

  lemma BracketedReport(start: Snapshot, a: seq<WatchEvent>, scope: Scope, store: Store, entry: Entry, gap: bool,
                        revision: nat)
    ensures WellBracketed(start, Emit(a + Report(scope, store, entry, gap, revision)))
       <==> WellBracketed(start, Emit(a))
            && match Observe(scope, store, entry, gap)
               case Some(e) => Fits(Replay(start, Emit(a)), e)
               case None => true
  {
    EmitConcat(a, Report(scope, store, entry, gap, revision));
    EmitReport(scope, store, entry, gap, revision);
    if Observe(scope, store, entry, gap).Some? {
      BracketedStep(start, Emit(a), Observe(scope, store, entry, gap).value);
    } else {
      assert Emit(a) + [] == Emit(a);
    }
  }

  lemma IncrementsStep(scope: Scope, layout: Layout, log: seq<Entry>, compacted: set<nat>, lo: nat, hi: nat,
                       start: Snapshot)
    requires lo < hi <= |log| && LaidOut(scope, layout, log)
    requires Tracks(scope, layout, Cursor(StoreAt(log[..lo]), {}, start))
    ensures WellBracketed(start, Emit(Feed(scope, log, compacted, lo, hi)))
       <==> WellBracketed(start, Emit(Feed(scope, log, compacted, lo, hi - 1)))
            && Meets(scope, StoreAt(log[..hi - 1]), log[hi - 1], Stranded(scope, log, compacted, lo, hi - 1))
  {
    hide WellBracketed, Replay, Emit;
    var entry, gap := log[hi - 1], hi in compacted;
    var store, feed := StoreAt(log[..hi - 1]), Feed(scope, log, compacted, lo, hi - 1);
    IncrementalTracks(scope, layout, log, compacted, lo, hi - 1, start);
    ObservedFits(scope, layout, Cursor(store, Stranded(scope, log, compacted, lo, hi - 1), Replay(start, Emit(feed))),
                 entry, gap);
    BracketedReport(start, feed, scope, store, entry, gap, Revision(hi));
  }

  lemma {:induction false} IncrementsTidy(scope: Scope, layout: Layout, log: seq<Entry>, compacted: set<nat>,
                                          lo: nat, hi: nat, start: Snapshot)
    requires lo <= hi <= |log| && LaidOut(scope, layout, log)
    requires Tracks(scope, layout, Cursor(StoreAt(log[..lo]), {}, start))
    ensures WellBracketed(start, Emit(Feed(scope, log, compacted, lo, hi))) <==> Tidy(scope, log, compacted, lo, hi)
  {
    hide WellBracketed, Emit, Feed, Meets, StoreAt, LaidOut, Tracks, Stranded;
    if lo < hi {
      IncrementsTidy(scope, layout, log, compacted, lo, hi - 1, start);
      IncrementsStep(scope, layout, log, compacted, lo, hi, start);
    } else {
      NothingFed(scope, log, compacted, lo, start);
    }
  }

  lemma NothingFed(scope: Scope, log: seq<Entry>, compacted: set<nat>, lo: nat, start: Snapshot)
    requires lo <= |log|
    ensures Emit(Feed(scope, log, compacted, lo, lo)) == [] && WellBracketed(start, []) && Replay(start, []) == start
  {
  }

  /**
   The visible increments obey (Added Updated* Removed)* for every key exactly when the log is tidy.
   EtcdChannel has the condition for all of them.
   */
  lemma {:induction false} IncrementsBracketed(scope: Scope, layout: Layout, log: seq<Entry>, compacted: set<nat>,
                                               lo: nat, hi: nat)
    requires lo <= hi <= |log| && LaidOut(scope, layout, log)
    ensures
      var start := View(layout, StoreAt(log[..lo]));
      (forall k :: Cyclic(About(Emit(Feed(scope, log, compacted, lo, hi)), k), k in start))
      <==> Tidy(scope, log, compacted, lo, hi)
  {
    var start := View(layout, StoreAt(log[..lo]));
    ViewTracks(scope, layout, log[..lo]);
    IncrementsTidy(scope, layout, log, compacted, lo, hi, start);
    BracketedIsCyclic(start, Emit(Feed(scope, log, compacted, lo, hi)));
  }

  /** Logs that only ever write usable values and are watched without compaction gaps. */
  ghost predicate Clean(scope: Scope, log: seq<Entry>, compacted: set<nat>) {
    && (forall i | 0 <= i < |log| && log[i].Write? && log[i].key in scope :: Good(log[i].value))
    && compacted == {}
  }

  lemma {:induction false} CleanStore(scope: Scope, log: seq<Entry>, key: string)
    requires Clean(scope, log, {}) && key in scope
    ensures key in StoreAt(log) <==> Listed(StoreAt(log), key)
  {
    if log != [] {
      CleanStore(scope, log[..|log| - 1], key);
    }
  }

  /** On such logs neither failure can happen, so both theorems above hold without a condition. */
  lemma {:induction false} CleanIsTidy(scope: Scope, log: seq<Entry>, compacted: set<nat>, lo: nat, hi: nat)
    requires hi <= |log| && Clean(scope, log, compacted)
    ensures Stranded(scope, log, compacted, lo, hi) == {}
    ensures Tidy(scope, log, compacted, lo, hi)
  {
    if lo < hi {
      CleanIsTidy(scope, log, compacted, lo, hi - 1);
      if log[hi - 1].key in scope {
        CleanStore(scope, log[..hi - 1], log[hi - 1].key);
      }
    }
  }

  // ---------------------------------------------------------------- where the two come apart

  /** An instance whose fields other than the address do not matter. */
  function Instance(id: string, address: string): ServiceInstance {
    ServiceInstance(id, "user", address, "", map[], 0, 0, 0, "")
  }

  /**
   Overwriting a listed instance with one whose address is blank strands it: a reload drops the
   instance, the incremental snapshot keeps it.
   */
  lemma BlankAddressStrands(scope: Scope, key: string, id: string, address: string)
    requires key in scope && !Blank(address)
    ensures
      var log := [Write(key, Json(Instance(id, address))), Write(key, Json(Instance(id, "")))];
      Stranded(scope, log, {}, 1, 2) == {key}
  {
    hide TrimSpace;
    var log := [Write(key, Json(Instance(id, address))), Write(key, Json(Instance(id, "")))];
    assert log[..1] == [log[0]] && log[..0] == [] && log[..1][..0] == [];
    assert StoreAt(log[..1]) == map[key := log[0].value];
    BlankEmpty();
  }

  /** A deletion whose previous value was compacted away strands the instance as well. */
  lemma CompactedDeleteStrands(scope: Scope, key: string, id: string, address: string)
    requires key in scope && !Blank(address)
    ensures Stranded(scope, [Write(key, Json(Instance(id, address))), Erase(key)], {2}, 1, 2) == {key}
  {
    var log := [Write(key, Json(Instance(id, address))), Erase(key)];
    assert log[..1] == [log[0]] && log[..1][..0] == [];
    assert StoreAt(log[..1]) == map[key := log[0].value];
  }

  /**
   A blank address that was there when the watch began and is corrected later is announced as
   Updated for an instance that was never Added.
   */
  lemma BlankThenGoodIsUntidy(scope: Scope, key: string, id: string, address: string)
    requires key in scope && !Blank(address)
    ensures
      var log := [Write(key, Json(Instance(id, ""))), Write(key, Json(Instance(id, address)))];
      && !Tidy(scope, log, {}, 1, 2)
      && Emit(Feed(scope, log, {}, 1, 2)) == [DiscoveryEvent(Updated, Instance(id, address))]
  {
    hide TrimSpace;
    var log := [Write(key, Json(Instance(id, ""))), Write(key, Json(Instance(id, address)))];
    assert log[..1] == [log[0]] && log[..0] == [] && log[..1][..0] == [];
    assert StoreAt(log[..1]) == map[key := log[0].value];
    BlankEmpty();
    assert !Meets(scope, StoreAt(log[..1]), log[1], Stranded(scope, log, {}, 1, 1));
    assert Feed(scope, log, {}, 1, 1) == [];
    var report := Feed(scope, log, {}, 1, 2);
    assert report == [Put(key, log[1].value, true, Revision(2))] && report[..0] == [];
  }

  // ---------------------------------------------------------------- runs over one log

  /** One round over the log: how far the watch delivered, and the position the reload then read. */
  datatype Leg = Leg(delivered: nat, reloaded: nat)

  /** The position that leg `i` starts watching from. */
  function From(first: nat, legs: seq<Leg>, i: nat): nat
    requires i <= |legs|
  {
    if i == 0 then first else legs[i - 1].reloaded
  }

  ghost predicate Within(log: seq<Entry>, first: nat, legs: seq<Leg>) {
    && first <= |log|
    && forall i | 0 <= i < |legs| :: From(first, legs, i) <= legs[i].delivered <= |log| && legs[i].reloaded <= |log|
  }

  ghost function RoundOf(scope: Scope, layout: Layout, log: seq<Entry>, compacted: set<nat>, from: nat, leg: Leg): Round
    requires leg.delivered <= |log| && leg.reloaded <= |log|
  {
    Round(Feed(scope, log, compacted, from, leg.delivered), View(layout, StoreAt(log[..leg.reloaded])))
  }

  ghost function RoundsOf(scope: Scope, layout: Layout, log: seq<Entry>, compacted: set<nat>, first: nat,
                          legs: seq<Leg>): (rounds: seq<Round>)
    requires Within(log, first, legs)
    ensures |rounds| == |legs|
    ensures forall i | 0 <= i < |legs| ::
      rounds[i] == RoundOf(scope, layout, log, compacted, From(first, legs, i), legs[i])
  {
    seq(|legs|, i requires 0 <= i < |legs| => RoundOf(scope, layout, log, compacted, From(first, legs, i), legs[i]))
  }

  lemma RoundsLoaded(scope: Scope, layout: Layout, log: seq<Entry>, compacted: set<nat>, first: nat, legs: seq<Leg>)
    requires LaidOut(scope, layout, log) && Within(log, first, legs)
    ensures WellKeyed(View(layout, StoreAt(log[..first])))
    ensures LoadedRounds(RoundsOf(scope, layout, log, compacted, first, legs))
  {
    hide WellKeyed, View;
    ViewWellKeyed(scope, layout, log[..first]);
    var rounds := RoundsOf(scope, layout, log, compacted, first, legs);
    forall i | 0 <= i < |rounds| ensures WellKeyed(rounds[i].next) {
      ViewWellKeyed(scope, layout, log[..legs[i].reloaded]);
    }
  }

  /**
   Over every run of watches, watch failures, failed loads and reloads against one log, the
   consumer that replays the stream holds what the store listed at the last reload.
   */
  lemma RunMirrorsStore(scope: Scope, layout: Layout, log: seq<Entry>, compacted: set<nat>, first: nat,
                        legs: seq<Leg>)
    requires LaidOut(scope, layout, log) && Within(log, first, legs)
    ensures Replay(map[], RunStream(View(layout, StoreAt(log[..first])),
                                    RoundsOf(scope, layout, log, compacted, first, legs)))
         == View(layout, StoreAt(log[..From(first, legs, |legs|)]))
  {
    RoundsLoaded(scope, layout, log, compacted, first, legs);
    RunReplays(View(layout, StoreAt(log[..first])), RoundsOf(scope, layout, log, compacted, first, legs));
  }

  ghost predicate TidyLegs(scope: Scope, log: seq<Entry>, compacted: set<nat>, first: nat, legs: seq<Leg>)
    requires Within(log, first, legs)
  {
    forall i | 0 <= i < |legs| :: Tidy(scope, log, compacted, From(first, legs, i), legs[i].delivered)
  }

  lemma LegBracketed(scope: Scope, layout: Layout, log: seq<Entry>, compacted: set<nat>, first: nat,
                     legs: seq<Leg>, i: nat)
    requires LaidOut(scope, layout, log) && Within(log, first, legs) && i < |legs|
    ensures
      var rounds := RoundsOf(scope, layout, log, compacted, first, legs);
      WellBracketed(RunSnapshot(View(layout, StoreAt(log[..first])), rounds[..i]), Emit(rounds[i].events))
      <==> Tidy(scope, log, compacted, From(first, legs, i), legs[i].delivered)
  {
    hide WellBracketed, Emit, Tidy, Tracks, View, RunSnapshot, StoreAt, Feed;
    var lo := From(first, legs, i);
    var start := View(layout, StoreAt(log[..lo]));
    var rounds := RoundsOf(scope, layout, log, compacted, first, legs);
    RunSnapshotAt(View(layout, StoreAt(log[..first])), rounds, i);
    ViewTracks(scope, layout, log[..lo]);
    IncrementsTidy(scope, layout, log, compacted, lo, legs[i].delivered, start);
  }

  /**
   Per instance key the visible events of a whole run follow (Added Updated* Removed)*, across any
   number of resyncs, exactly when the log is tidy over the entries that were delivered incrementally.
   */
  lemma RunCyclic(scope: Scope, layout: Layout, log: seq<Entry>, compacted: set<nat>, first: nat, legs: seq<Leg>)
    requires LaidOut(scope, layout, log) && Within(log, first, legs)
    ensures
      var stream := RunStream(View(layout, StoreAt(log[..first])),
                              RoundsOf(scope, layout, log, compacted, first, legs));
      (forall k :: Cyclic(About(stream, k), false)) <==> TidyLegs(scope, log, compacted, first, legs)
  {
    hide WellBracketed, WellKeyed, RunStream, Emit, Tidy, View, RunSnapshot, About, Cyclic;
    var start := View(layout, StoreAt(log[..first]));
    var rounds := RoundsOf(scope, layout, log, compacted, first, legs);
    RoundsLoaded(scope, layout, log, compacted, first, legs);
    RunBracketed(start, rounds);
    BracketedIsCyclic(map[], RunStream(start, rounds));
    forall i | 0 <= i < |legs|
      ensures WellBracketed(RunSnapshot(start, rounds[..i]), Emit(rounds[i].events))
         <==> Tidy(scope, log, compacted, From(first, legs, i), legs[i].delivered)
    {
      LegBracketed(scope, layout, log, compacted, first, legs, i);
    }
  }

  lemma {:induction false} FeedSplit(scope: Scope, log: seq<Entry>, compacted: set<nat>, lo: nat, mid: nat, hi: nat)
    requires lo <= mid <= hi <= |log|
    ensures Feed(scope, log, compacted, lo, hi)
         == Feed(scope, log, compacted, lo, mid) + Feed(scope, log, compacted, mid, hi)
  {
    if mid < hi {
      FeedSplit(scope, log, compacted, lo, mid, hi - 1);
    }
  }

  /**
   Every entry after the load is covered once: those up to `delivered` by the watch, and the ones
   from there to the reload by the resync diff, whose event for each key is the net change that
   these entries made.
   */
  lemma ResyncCoversGap(scope: Scope, layout: Layout, log: seq<Entry>, compacted: set<nat>, lo: nat,
                        delivered: nat, reloaded: nat, k: string)
    requires lo <= delivered <= reloaded <= |log| && LaidOut(scope, layout, log)
    requires Stranded(scope, log, compacted, lo, delivered) == {}
    ensures Feed(scope, log, compacted, lo, reloaded)
         == Feed(scope, log, compacted, lo, delivered) + Feed(scope, log, compacted, delivered, reloaded)
    ensures
      var reached := View(layout, StoreAt(log[..delivered]));
      var next := View(layout, StoreAt(log[..reloaded]));
      About(Diff(Replay(View(layout, StoreAt(log[..lo])), Emit(Feed(scope, log, compacted, lo, delivered))), next), k)
      == Change(reached, next, k)
  {
    hide Diff, About, Replay, Emit, View, StoreAt, Feed, WellKeyed;
    FeedSplit(scope, log, compacted, lo, delivered, reloaded);
    IncrementalEqualsReload(scope, layout, log, compacted, lo, delivered);
    ViewWellKeyed(scope, layout, log[..delivered]);
    ViewWellKeyed(scope, layout, log[..reloaded]);
    DiffPerKey(View(layout, StoreAt(log[..delivered])), View(layout, StoreAt(log[..reloaded])), k);
  }
}
