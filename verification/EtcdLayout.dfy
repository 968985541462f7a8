/** Which logs have a layout, and which of them the registry writes. */
module EtcdLayout {
  import opened Text
  import opened Registry
  import opened Discovery
  import opened EtcdLog

  /** A usable value written in scope. */
  ghost predicate Usable(scope: Scope, log: seq<Entry>, i: nat) {
    i < |log| && log[i].Write? && log[i].key in scope && Good(log[i].value)
  }

  /** Two such writes share their etcd key exactly when they share their instance key. */
  ghost predicate Agree(a: Entry, b: Entry)
    requires a.Write? && Good(a.value) && b.Write? && Good(b.value)
  {
    a.key == b.key <==> InstanceKey(a.value.instance) == InstanceKey(b.value.instance)
  }

  ghost predicate Coherent(scope: Scope, log: seq<Entry>) {
    forall i: nat, j: nat | Usable(scope, log, i) && Usable(scope, log, j) :: Agree(log[i], log[j])
  }

  /** The layout that collects the usable writes. */
  ghost function LayoutOf(scope: Scope, log: seq<Entry>): Layout {
    if log == [] then Layout(map[], map[])
    else
      var n := |log| - 1;
      var before := LayoutOf(scope, log[..n]);
      if !Usable(scope, log, n) then before
      else
        var name := InstanceKey(log[n].value.instance);
        Layout(before.names[log[n].key := name], before.home[name := log[n].key])
  }

  /** A usable write with the etcd key `k` and the instance key `x`. */
  ghost predicate Writes(scope: Scope, log: seq<Entry>, i: nat, k: string, x: string) {
    Usable(scope, log, i) && log[i].key == k && InstanceKey(log[i].value.instance) == x
  }

  /** Where a pair of the layout comes from. */
  lemma {:induction false} NameSource(scope: Scope, log: seq<Entry>, k: string) returns (i: nat)
    requires k in LayoutOf(scope, log).names
    ensures Writes(scope, log, i, k, LayoutOf(scope, log).names[k])
  {
    hide InstanceKey;
    var n := |log| - 1;
    if Usable(scope, log, n) && log[n].key == k {
      i := n;
    } else {
      i := NameSource(scope, log[..n], k);
    }
  }

  lemma {:induction false} HomeSource(scope: Scope, log: seq<Entry>, x: string) returns (i: nat)
    requires x in LayoutOf(scope, log).home
    ensures Writes(scope, log, i, LayoutOf(scope, log).home[x], x)
  {
    hide InstanceKey;
    var n := |log| - 1;
    if Usable(scope, log, n) && InstanceKey(log[n].value.instance) == x {
      i := n;
    } else {
      i := HomeSource(scope, log[..n], x);
    }
  }

  lemma {:induction false} WriteListed(scope: Scope, log: seq<Entry>, i: nat)
    requires Usable(scope, log, i)
    ensures log[i].key in LayoutOf(scope, log).names
    ensures InstanceKey(log[i].value.instance) in LayoutOf(scope, log).home
  {
    hide InstanceKey;
    var n := |log| - 1;
    if i < n {
      WriteListed(scope, log[..n], i);
    }
  }

  lemma CoherentLaidOut(scope: Scope, log: seq<Entry>)
    requires Coherent(scope, log)
    ensures LaidOut(scope, LayoutOf(scope, log), log)
  {
    hide InstanceKey, Blank, LayoutOf, Good;
    var layout := LayoutOf(scope, log);
    forall k | k in layout.names
      ensures k in scope && layout.names[k] in layout.home && layout.home[layout.names[k]] == k
    {
      var i := NameSource(scope, log, k);
      WriteListed(scope, log, i);
      var j := HomeSource(scope, log, layout.names[k]);
      assert Agree(log[i], log[j]);
    }
    forall x | x in layout.home ensures layout.home[x] in layout.names && layout.names[layout.home[x]] == x {
      var i := HomeSource(scope, log, x);
      WriteListed(scope, log, i);
      var j := NameSource(scope, log, layout.home[x]);
      assert Agree(log[i], log[j]);
    }
    forall i | 0 <= i < |log| && log[i].Write? && log[i].key in scope ensures Placed(layout, log[i].key, log[i].value) {
      if Good(log[i].value) {
        WriteListed(scope, log, i);
        var j := NameSource(scope, log, log[i].key);
        assert Agree(log[i], log[j]);
      }
    }
  }

  /**
   A log has a one-to-one layout exactly when its usable writes in scope share an etcd key just
   when they share an instance key.
   */
  lemma LayoutExists(scope: Scope, log: seq<Entry>)
    ensures (exists layout :: LaidOut(scope, layout, log)) <==> Coherent(scope, log)
  {
    if Coherent(scope, log) {
      CoherentLaidOut(scope, log);
    }
    if layout :| LaidOut(scope, layout, log) {
      hide InstanceKey, Blank, Good;
      forall i: nat, j: nat | Usable(scope, log, i) && Usable(scope, log, j) ensures Agree(log[i], log[j]) {
        assert Placed(layout, log[i].key, log[i].value) && Placed(layout, log[j].key, log[j].value);
      }
    }
  }

  // ---------------------------------------------------------------- what the registry writes

  /** What EtcdRegistry.Register stores: any validated instance, under its own key. */
  predicate Registered(ks: Keyspace, entry: Entry) {
    entry.Write? ==>
      && entry.value.Json?
      && var instance := entry.value.instance;
         && entry.key == ks.ServiceKey(instance.name, instance.id)
         && !Blank(instance.id) && !Blank(instance.name) && !Blank(instance.address)
  }

  /** A write that a watch of `service` covers. */
  predicate Watched(ks: Keyspace, service: string, log: seq<Entry>, i: nat) {
    i < |log| && log[i].Write? && log[i].value.Json? && Covers(ks.ServicePrefix(service), log[i].key)
  }

  function Id(entry: Entry): string
    requires entry.Write? && entry.value.Json?
  {
    TrimSpace(entry.value.instance.id)
  }

  /** Two ids that differ at most in slashes at their edges are the same id. */
  predicate SameUpToSlashes(a: Entry, b: Entry)
    requires a.Write? && a.value.Json? && b.Write? && b.value.Json?
  {
    Trim(Id(a), SLASH) == Trim(Id(b), SLASH) ==> Id(a) == Id(b)
  }

  lemma RegisteredUsable(ks: Keyspace, service: string, log: seq<Entry>, i: nat)
    requires forall j | 0 <= j < |log| :: Registered(ks, log[j])
    ensures Usable(Under(ks.ServicePrefix(service)), log, i) <==> Watched(ks, service, log, i)
    ensures Watched(ks, service, log, i) ==> InstanceKey(log[i].value.instance) == Id(log[i])
  {
    if i < |log| {
      assert Registered(ks, log[i]);
    }
  }

  lemma RegisteredPair(ks: Keyspace, service: string, a: Entry, b: Entry)
    requires SlashFree(TrimSpace(service))
    requires Registered(ks, a) && Registered(ks, b)
    requires Watched(ks, service, [a], 0) && Watched(ks, service, [b], 0)
    requires SlashFree(TrimSpace(a.value.instance.name)) && SlashFree(TrimSpace(b.value.instance.name))
    ensures Good(a.value) && Good(b.value)
    ensures Agree(a, b) <==> SameUpToSlashes(a, b)
  {
    hide TrimSpace, Trim;
    var x, y := a.value.instance, b.value.instance;
    PrefixDisjoint(ks, service, x.name, x.id);
    PrefixDisjoint(ks, service, y.name, y.id);
    assert ks.ServicePrefix(x.name) == ks.ServicePrefix(y.name) == ks.ServicePrefix(service);
    ServiceKeyInjective(ks, service, x.id, y.id);
    assert a.key == ks.ServiceKey(service, x.id) && b.key == ks.ServiceKey(service, y.id);
  }

  /** Nothing that the registry writes is unusable, so without compaction its logs are clean. */
  lemma RegisteredClean(ks: Keyspace, service: string, log: seq<Entry>)
    requires forall i | 0 <= i < |log| :: Registered(ks, log[i])
    ensures Clean(Under(ks.ServicePrefix(service)), log, {})
  {
    hide TrimSpace;
    forall i | 0 <= i < |log| && log[i].Write? ensures Good(log[i].value) {
      assert Registered(ks, log[i]);
    }
  }

  /**
   Of what the registry writes for services without slashes in their names, a watch is covered by
   the theorems on logs exactly when the ids it sees differ in more than slashes at their edges.
   */
  lemma RegisteredLaidOut(ks: Keyspace, service: string, log: seq<Entry>)
    requires SlashFree(TrimSpace(service))
    requires forall i | 0 <= i < |log| :: Registered(ks, log[i])
    requires forall i: nat | Watched(ks, service, log, i) :: SlashFree(TrimSpace(log[i].value.instance.name))
    ensures
      (exists layout :: LaidOut(Under(ks.ServicePrefix(service)), layout, log))
      <==> forall i: nat, j: nat | Watched(ks, service, log, i) && Watched(ks, service, log, j) ::
             SameUpToSlashes(log[i], log[j])
  {
    hide TrimSpace, Trim, InstanceKey, Good, Agree, SameUpToSlashes, Covers, Under, LaidOut;
    var scope := Under(ks.ServicePrefix(service));
    LayoutExists(scope, log);
    forall i: nat | i < |log| ensures Usable(scope, log, i) <==> Watched(ks, service, log, i) {
      RegisteredUsable(ks, service, log, i);
    }
    forall i: nat, j: nat | Watched(ks, service, log, i) && Watched(ks, service, log, j)
      ensures Usable(scope, log, i) && Usable(scope, log, j)
      ensures Agree(log[i], log[j]) <==> SameUpToSlashes(log[i], log[j])
    {
      RegisteredPair(ks, service, log[i], log[j]);
    }
  }

  /** Ids that differ in an edge slash share an etcd key but not an instance key. */
  lemma SlashedIdsCollide(ks: Keyspace, id: string)
    requires id != "" && Trimmed(id, WHITESPACE)
    ensures ks.ServiceKey("user", id) == ks.ServiceKey("user", "/" + id)
    ensures InstanceKey(Instance(id, "x")) != InstanceKey(Instance("/" + id, "x"))
  {
    hide Trim;
    TrimFixes(id, WHITESPACE);
    TrimFixes("/" + id, WHITESPACE);
    TrimSkips("/" + id, SLASH);
    assert ("/" + id)[1..] == id;
  }
}
