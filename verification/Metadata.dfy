/**
 Publishing gateway metadata: a pass writes every descriptor and route whose stored value differs,
 stops at the first error, and is repeated for ever, so it has to settle and must do no harm.
 */
module Metadata {
  import opened Wrappers
  import opened Text
  import opened PolicySource

  const ROUTES_PREFIX := "/runtime/gateway/routes"
  const DESCRIPTORS_PREFIX := "/runtime/gateway/descriptors"

  /** A route as it is written, and whether it passes its own validation. */
  datatype Route = Route(id: string, json: string, valid: bool)

  /** One value to be published; an invalid one ends the pass. */
  datatype Item = Item(key: string, data: string, valid: bool)

  /** metadataRouteKey and metadataDescriptorKey. */
  function Key(prefix: string, id: string): string {
    prefix + "/" + Trim(id, SLASH)
  }

  function RouteItems(prefix: string, routes: seq<Route>): seq<Item> {
    seq(|routes|, i requires 0 <= i < |routes| => Item(Key(prefix, routes[i].id), routes[i].json, routes[i].valid))
  }

  /** The descriptors in the order in which the map was iterated. */
  function DescriptorItems(prefix: string, descriptors: map<string, string>, order: seq<string>): seq<Item>
    requires forall i | 0 <= i < |order| :: order[i] in descriptors
  {
    seq(|order|, i requires 0 <= i < |order| =>
          Item(Key(prefix, order[i]), descriptors[order[i]], !Blank(order[i]) && descriptors[order[i]] != ""))
  }

  // ---------------------------------------------------------------- a pass

  type Entries = map<string, string>

  /** What a pass leaves behind, how often it wrote, and whether it got through. */
  datatype Pass = Pass(store: Entries, puts: nat, ok: bool)

  /** Position of the item that the store fails on, and whether its write was applied all the same. */
  datatype Outage = Outage(position: nat, applied: bool)

  predicate UpToDate(store: Entries, item: Item) {
    item.key in store && store[item.key] == item.data
  }

  /** putIfChanged. */
  function Updated(pass: Pass, item: Item): Pass {
    if UpToDate(pass.store, item) then pass
    else pass.(store := pass.store[item.key := item.data], puts := pass.puts + 1)
  }

  function Reconcile(store: Entries, items: seq<Item>, outage: Option<Outage>): Pass {
    if items == [] then Pass(store, 0, true)
    else
      var n := |items| - 1;
      var init := Reconcile(store, items[..n], outage);
      if !init.ok then init
      else if !items[n].valid then init.(ok := false)
      else if outage.Some? && outage.value.position == n then
        (if outage.value.applied then Updated(init, items[n]) else init).(ok := false)
      else Updated(init, items[n])
  }

  // ---------------------------------------------------------------- what passes do

  /** Items under one key agree on its value. */
  predicate Consistent(items: seq<Item>) {
    forall i, j | 0 <= i < j < |items| && items[i].key == items[j].key :: items[i].data == items[j].data
  }

  predicate Published(store: Entries, items: seq<Item>) {
    forall i | 0 <= i < |items| :: UpToDate(store, items[i])
  }

  /** `after` differs from `before` only where it has the value of some item. */
  ghost predicate OnlyItems(before: Entries, after: Entries, items: seq<Item>) {
    && (forall k | k in before :: k in after)
    && (forall k | k in after ::
          || (k in before && after[k] == before[k])
          || exists i | 0 <= i < |items| :: items[i].key == k && items[i].data == after[k])
  }

  lemma {:induction false} PassTouchesOnlyItems(store: Entries, items: seq<Item>, outage: Option<Outage>)
    ensures OnlyItems(store, Reconcile(store, items, outage).store, items)
  {
    if items != [] {
      var n := |items| - 1;
      PassTouchesOnlyItems(store, items[..n], outage);
      var init, after := Reconcile(store, items[..n], outage).store, Reconcile(store, items, outage).store;
      forall k | k in after
        ensures (k in store && after[k] == store[k])
          || exists i | 0 <= i < |items| :: items[i].key == k && items[i].data == after[k]
      {
        if k in init && init[k] == after[k] {
          if i :| 0 <= i < n && items[..n][i].key == k && items[..n][i].data == init[k] {
            assert items[i].key == k && items[i].data == after[k];
          }
        } else {
          assert items[n].key == k && items[n].data == after[k];
        }
      }
    }
  }

  /** A pass, complete or not, never spoils what is already right, as long as the items agree. */
  lemma {:induction false} PassKeepsRight(store: Entries, items: seq<Item>, outage: Option<Outage>, item: Item)
    requires UpToDate(store, item) && forall i | 0 <= i < |items| && items[i].key == item.key :: items[i].data == item.data
    ensures UpToDate(Reconcile(store, items, outage).store, item)
  {
    if items != [] {
      PassKeepsRight(store, items[..|items| - 1], outage, item);
    }
  }

  /** A pass that gets through has published everything, whatever the store held before. */
  lemma {:induction false} PassPublishes(store: Entries, items: seq<Item>, outage: Option<Outage>)
    requires Consistent(items) && Reconcile(store, items, outage).ok
    ensures Published(Reconcile(store, items, outage).store, items)
  {
    if items != [] {
      var n := |items| - 1;
      PassPublishes(store, items[..n], outage);
      var init := Reconcile(store, items[..n], outage);
      forall i | 0 <= i < |items| ensures UpToDate(Reconcile(store, items, outage).store, items[i]) {
        if i < n {
          assert UpToDate(init.store, items[..n][i]);
          assert items[i].key == items[n].key ==> items[i].data == items[n].data;
        }
      }
    }
  }

  /** No write means that nothing had to be written, and the other way round. */
  lemma {:induction false} QuietPass(store: Entries, items: seq<Item>)
    requires forall i | 0 <= i < |items| :: items[i].valid
    ensures Reconcile(store, items, None).ok
    ensures Reconcile(store, items, None).puts == 0 <==> Published(store, items)
    ensures Reconcile(store, items, None).puts == 0 ==> Reconcile(store, items, None).store == store
  {
    if items != [] {
      var n := |items| - 1;
      QuietPass(store, items[..n]);
      if Published(store, items) {
        assert Published(store, items[..n]);
      }
      if Reconcile(store, items, None).puts == 0 {
        forall i | 0 <= i < |items| ensures UpToDate(store, items[i]) {
          assert i < n ==> UpToDate(store, items[..n][i]);
        }
      }
    }
  }

  lemma {:induction false} OkMeansValid(store: Entries, items: seq<Item>, outage: Option<Outage>)
    requires Reconcile(store, items, outage).ok
    ensures forall i | 0 <= i < |items| :: items[i].valid
  {
    if items != [] {
      OkMeansValid(store, items[..|items| - 1], outage);
      assert forall i | 0 <= i < |items| - 1 :: items[i] == items[..|items| - 1][i];
    }
  }

  lemma PublishedAgree(store: Entries, items: seq<Item>)
    requires Published(store, items)
    ensures Consistent(items)
  {
    forall i, j | 0 <= i < j < |items| && items[i].key == items[j].key ensures items[i].data == items[j].data {
      assert UpToDate(store, items[i]) && UpToDate(store, items[j]);
    }
  }

  /**
   Reconciling settles, so that the next undisturbed pass writes nothing, if and only if the items
   agree wherever they share a key; otherwise every pass keeps writing. The next pass takes the same
   items in an order of its own.
   */
  lemma ReconcileSettles(store: Entries, items: seq<Item>, outage: Option<Outage>, again: seq<Item>)
    requires Reconcile(store, items, outage).ok && forall item :: item in items <==> item in again
    ensures Reconcile(Reconcile(store, items, outage).store, again, None).puts == 0 <==> Consistent(items)
  {
    hide Reconcile;
    var after := Reconcile(store, items, outage).store;
    OkMeansValid(store, items, outage);
    assert forall i | 0 <= i < |again| :: again[i] in items;
    QuietPass(after, again);
    PublishedAlike(after, items, again);
    if Consistent(items) {
      PassPublishes(store, items, outage);
    }
    if Published(after, items) {
      PublishedAgree(after, items);
    }
  }

  lemma PublishedAlike(store: Entries, a: seq<Item>, b: seq<Item>)
    requires forall item :: item in a <==> item in b
    ensures Published(store, a) <==> Published(store, b)
  {
    if Published(store, a) {
      forall i | 0 <= i < |b| ensures UpToDate(store, b[i]) {
        assert b[i] in a;
      }
    }
    if Published(store, b) {
      forall i | 0 <= i < |a| ensures UpToDate(store, a[i]) {
        assert a[i] in b;
      }
    }
  }

  /** Agreeing items leave the same values behind in whatever order they come. */
  lemma OrderIrrelevant(store: Entries, a: seq<Item>, b: seq<Item>, k: string)
    requires Consistent(a) && (forall item :: item in a <==> item in b)
    requires Reconcile(store, a, None).ok && Reconcile(store, b, None).ok
    ensures
      var x, y := Reconcile(store, a, None).store, Reconcile(store, b, None).store;
      (k in x <==> k in y) && (k in x ==> x[k] == y[k])
  {
    hide Reconcile;
    forall i, j | 0 <= i < j < |b| && b[i].key == b[j].key ensures b[i].data == b[j].data {
      assert b[i] in a && b[j] in a;
    }
    KeyDecided(store, a, k);
    KeyDecided(store, b, k);
    if i :| 0 <= i < |a| && a[i].key == k {
      assert a[i] in b;
    }
    if i :| 0 <= i < |b| && b[i].key == k {
      assert b[i] in a;
    }
  }

  lemma KeyDecided(store: Entries, items: seq<Item>, k: string)
    requires Consistent(items) && Reconcile(store, items, None).ok
    ensures
      var after := Reconcile(store, items, None).store;
      && (forall i | 0 <= i < |items| && items[i].key == k :: k in after && after[k] == items[i].data)
      && ((forall i | 0 <= i < |items| :: items[i].key != k) ==>
            (k in after <==> k in store) && (k in after ==> after[k] == store[k]))
  {
    hide Reconcile;
    PassPublishes(store, items, None);
    PassTouchesOnlyItems(store, items, None);
  }

  /** A pass gets through exactly if all its items are valid and the store fails on none of them. */
  lemma {:induction false} PassOkExactly(store: Entries, items: seq<Item>, outage: Option<Outage>)
    ensures
      Reconcile(store, items, outage).ok
      <==> (forall i | 0 <= i < |items| :: items[i].valid) && (outage.Some? ==> outage.value.position >= |items|)
  {
    if items != [] {
      var n := |items| - 1;
      PassOkExactly(store, items[..n], outage);
      assert forall i | 0 <= i < n :: items[..n][i] == items[i];
    }
  }

  /** Item `n` is the first one that is invalid or that the store fails on. */
  predicate StopsAt(items: seq<Item>, outage: Option<Outage>, n: nat) {
    && n < |items|
    && (!items[n].valid || (outage.Some? && outage.value.position == n))
    && (forall i | 0 <= i < n :: items[i].valid) && (outage.Some? ==> outage.value.position >= n)
  }

  /** A pass that stops at an item leaves behind what a pass over those before it does, and that item if it was applied. */
  lemma {:induction false} PassStopsThere(store: Entries, items: seq<Item>, outage: Option<Outage>, n: nat)
    requires StopsAt(items, outage, n)
    ensures
      var pass, before := Reconcile(store, items, outage), Reconcile(store, items[..n], None).store;
      && !pass.ok
      && pass.store == if items[n].valid && outage.value.applied then before[items[n].key := items[n].data] else before
  {
    var m := |items| - 1;
    if n < m {
      PassStopsThere(store, items[..m], outage, n);
      assert items[..m][..n] == items[..n];
    } else {
      UntilOutage(store, items[..m], outage);
      PassOkExactly(store, items[..m], outage);
    }
  }

  /** An outage behind the last item makes no difference. */
  lemma {:induction false} UntilOutage(store: Entries, items: seq<Item>, outage: Option<Outage>)
    requires outage.Some? ==> outage.value.position >= |items|
    ensures Reconcile(store, items, outage) == Reconcile(store, items, None)
  {
    if items != [] {
      UntilOutage(store, items[..|items| - 1], outage);
    }
  }

  // ---------------------------------------------------------------- keys

  /** What a pass publishes: each descriptor and each route under its prefix and its id, for a plain id. */
  lemma ItemsAre(routesPrefix: string, descriptorsPrefix: string, routes: seq<Route>, descriptors: map<string, string>,
                 order: seq<string>, i: nat)
    requires forall j | 0 <= j < |order| :: order[j] in descriptors
    ensures i < |order| && Trimmed(order[i], SLASH) ==>
      DescriptorItems(descriptorsPrefix, descriptors, order)[i]
      == Item(descriptorsPrefix + "/" + order[i], descriptors[order[i]],
              TrimSpace(order[i]) != "" && descriptors[order[i]] != "")
    ensures i < |routes| && Trimmed(routes[i].id, SLASH) ==>
      RouteItems(routesPrefix, routes)[i] == Item(routesPrefix + "/" + routes[i].id, routes[i].json, routes[i].valid)
  {
    hide Trim;
    if i < |order| {
      TrimFixes(order[i], SLASH);
    }
    if i < |routes| {
      TrimFixes(routes[i].id, SLASH);
    }
  }

  lemma KeyParts(prefix: string, a: string, b: string)
    ensures Key(prefix, a) == Key(prefix, b) <==> Trim(a, SLASH) == Trim(b, SLASH)
  {
    hide Trim;
    assert Key(prefix, a)[|prefix| + 1..] == Trim(a, SLASH);
    assert Key(prefix, b)[|prefix| + 1..] == Trim(b, SLASH);
  }

  /** Neither prefix continues the other at a slash. */
  predicate Apart(p: string, q: string) {
    !(p + "/" <= q + "/") && !(q + "/" <= p + "/")
  }

  lemma ApartKeys(p: string, q: string, a: string, b: string)
    requires Apart(p, q)
    ensures Key(p, a) != Key(q, b)
  {
    hide Trim;
    var k, l := Key(p, a), Key(q, b);
    assert k[..|p| + 1] == p + "/" && l[..|q| + 1] == q + "/";
    assert forall i | 0 <= i < |p| + 1 :: k[i] == (p + "/")[i];
    assert forall i | 0 <= i < |q| + 1 :: l[i] == (q + "/")[i];
  }

  predicate DistinctIds(ids: seq<string>) {
    forall i, j | 0 <= i < j < |ids| :: Trim(ids[i], SLASH) != Trim(ids[j], SLASH)
  }

  /** The order of a map's keys: each of them once. */
  ghost predicate Enumerates(order: seq<string>, descriptors: map<string, string>) {
    && (forall i | 0 <= i < |order| :: order[i] in descriptors)
    && (forall id :: id in descriptors <==> id in order)
    && (forall i, j | 0 <= i < j < |order| :: order[i] != order[j])
  }

  /**
   With ids that differ beyond slashes and prefixes that lie apart, all items of a pass have keys of
   their own, in whatever order the descriptors are taken.
   */
  lemma DistinctIdsConsistent(routesPrefix: string, descriptorsPrefix: string, routes: seq<Route>,
                              descriptors: map<string, string>, order: seq<string>)
    requires Apart(routesPrefix, descriptorsPrefix)
    requires Enumerates(order, descriptors)
    requires forall a, b | a in descriptors && b in descriptors && a != b :: Trim(a, SLASH) != Trim(b, SLASH)
    requires DistinctIds(seq(|routes|, i requires 0 <= i < |routes| => routes[i].id))
    ensures Consistent(DescriptorItems(descriptorsPrefix, descriptors, order) + RouteItems(routesPrefix, routes))
  {
    hide Trim, Apart, Blank, Key;
    var a, b := DescriptorItems(descriptorsPrefix, descriptors, order), RouteItems(routesPrefix, routes);
    var ids := seq(|routes|, i requires 0 <= i < |routes| => routes[i].id);
    var items := a + b;
    forall i, j | 0 <= i < j < |items| ensures items[i].key != items[j].key {
      if j < |a| {
        KeyParts(descriptorsPrefix, order[i], order[j]);
      } else if i >= |a| {
        KeyParts(routesPrefix, routes[i - |a|].id, routes[j - |a|].id);
        assert ids[i - |a|] == routes[i - |a|].id && ids[j - |a|] == routes[j - |a|].id;
      } else {
        ApartKeys(routesPrefix, descriptorsPrefix, routes[j - |a|].id, order[i]);
      }
    }
  }

  lemma SameItems(prefix: string, descriptors: map<string, string>, order: seq<string>, other: seq<string>,
                  routes: seq<Item>, item: Item)
    requires Enumerates(order, descriptors) && Enumerates(other, descriptors)
    requires item in DescriptorItems(prefix, descriptors, order) + routes
    ensures item in DescriptorItems(prefix, descriptors, other) + routes
  {
    hide Key, Blank;
    var a, b := DescriptorItems(prefix, descriptors, order), DescriptorItems(prefix, descriptors, other);
    if item in a {
      var i :| 0 <= i < |a| && a[i] == item;
      assert order[i] in other;
      var j :| 0 <= j < |other| && other[j] == order[i];
      assert b[j] == item;
      assert item in b;
    }
  }

  /**
   Two reconciliations in a row, each ranging over the descriptors in an order of its own: after one
   that got through the next writes nothing if and only if the items agree wherever they share a key.
   */
  lemma ReconcilingAgain(store: Entries, routesPrefix: string, descriptorsPrefix: string, routes: seq<Route>,
                         descriptors: map<string, string>, order: seq<string>, again: seq<string>,
                         outage: Option<Outage>)
    requires Enumerates(order, descriptors) && Enumerates(again, descriptors)
    requires
      var items := DescriptorItems(descriptorsPrefix, descriptors, order) + RouteItems(routesPrefix, routes);
      Reconcile(store, items, outage).ok
    ensures
      var items := DescriptorItems(descriptorsPrefix, descriptors, order) + RouteItems(routesPrefix, routes);
      var next := DescriptorItems(descriptorsPrefix, descriptors, again) + RouteItems(routesPrefix, routes);
      Reconcile(Reconcile(store, items, outage).store, next, None).puts == 0 <==> Consistent(items)
  {
    hide Reconcile, Key, Blank, Enumerates;
    assert forall i | 0 <= i < |order| :: order[i] in descriptors by { EnumeratesKeys(order, descriptors); }
    assert forall i | 0 <= i < |again| :: again[i] in descriptors by { EnumeratesKeys(again, descriptors); }
    var r := RouteItems(routesPrefix, routes);
    var items, next := DescriptorItems(descriptorsPrefix, descriptors, order) + r,
                       DescriptorItems(descriptorsPrefix, descriptors, again) + r;
    forall item ensures item in items <==> item in next {
      if item in items {
        SameItems(descriptorsPrefix, descriptors, order, again, r, item);
      }
      if item in next {
        SameItems(descriptorsPrefix, descriptors, again, order, r, item);
      }
    }
    ReconcileSettles(store, items, outage, next);
  }

  lemma EnumeratesKeys(order: seq<string>, descriptors: map<string, string>)
    requires Enumerates(order, descriptors)
    ensures forall i | 0 <= i < |order| :: order[i] in descriptors
  {
  }

  /** Route ids that differ only in slashes fight over one key for ever. */
  lemma SlashedIdsNeverSettle(store: Entries, prefix: string, id: string, a: string, b: string)
    requires id != "" && Trimmed(id, SLASH) && a != b
    ensures
      var items := RouteItems(prefix, [Route(id, a, true), Route(id + "/", b, true)]);
      Reconcile(Reconcile(store, items, None).store, items, None).puts > 0
  {
    hide Trim, Reconcile;
    var items := RouteItems(prefix, [Route(id, a, true), Route(id + "/", b, true)]);
    TrimFixes(id, SLASH);
    TrimAppended(id, '/', SLASH);
    assert items[0].key == items[1].key;
    QuietPass(store, items);
    ReconcileSettles(store, items, None, items);
  }

  // ---------------------------------------------------------------- the publisher

  class MetadataStore {
    var entries: Entries
    var puts: nat

    constructor (entries: Entries)
      ensures this.entries == entries && puts == 0
    {
      this.entries, puts := entries, 0;
    }

    /** putIfChanged, when the store answers. */
    method PutIfChanged(item: Item)
      modifies this
      ensures Pass(entries, puts, true) == Updated(Pass(old(entries), old(puts), true), item)
    {
      if item.key in entries && entries[item.key] == item.data {
        return;
      }
      entries := entries[item.key := item.data];
      puts := puts + 1;
    }
  }

  class MetadataPublisher {
    const store: MetadataStore
    const routesPrefix: string
    const descriptorsPrefix: string
    const routes: seq<Route>
    const descriptors: map<string, string>

    constructor (store: MetadataStore, routesPrefix: string, descriptorsPrefix: string, routes: seq<Route>,
                 descriptors: map<string, string>)
      ensures this.store == store && this.routes == routes && this.descriptors == descriptors
      ensures this.routesPrefix == CleanPrefix(routesPrefix, ROUTES_PREFIX)
      ensures this.descriptorsPrefix == CleanPrefix(descriptorsPrefix, DESCRIPTORS_PREFIX)
    {
      this.store, this.routes, this.descriptors := store, routes, descriptors;
      this.routesPrefix := CleanPrefix(routesPrefix, ROUTES_PREFIX);
      this.descriptorsPrefix := CleanPrefix(descriptorsPrefix, DESCRIPTORS_PREFIX);
    }

    /** Publishes the items one after the other until one of them fails. */
    method PublishAll(items: seq<Item>, outage: Option<Outage>) returns (ok: bool)
      requires store.puts == 0
      modifies store
      ensures Pass(store.entries, store.puts, ok) == Reconcile(old(store.entries), items, outage)
    {
      var i := 0;
      while i < |items|
        invariant 0 <= i <= |items|
        invariant Reconcile(old(store.entries), items[..i], outage) == Pass(store.entries, store.puts, true)
      {
        assert items[..i + 1][..i] == items[..i];
        PassStops(old(store.entries), items, outage, i + 1);
        if !items[i].valid {
          return false;
        }
        if outage.Some? && outage.value.position == i {
          if outage.value.applied {
            store.PutIfChanged(items[i]);
          }
          return false;
        }
        store.PutIfChanged(items[i]);
        i := i + 1;
      }
      assert items[..i] == items;
      ok := true;
    }

    /** reconcile: the descriptors in any order, then the routes. */
    method ReconcileAll(outage: Option<Outage>) returns (ok: bool, ghost order: seq<string>)
      requires store.puts == 0
      modifies store
      ensures Enumerates(order, descriptors)
      ensures
        var items := DescriptorItems(descriptorsPrefix, descriptors, order) + RouteItems(routesPrefix, routes);
        Pass(store.entries, store.puts, ok) == Reconcile(old(store.entries), items, outage)
    {
      var rest := descriptors.Keys;
      var ids: seq<string> := [];
      while rest != {}
        invariant rest <= descriptors.Keys
        invariant forall i | 0 <= i < |ids| :: ids[i] in descriptors
        invariant forall id :: id in descriptors <==> id in ids || id in rest
        invariant forall id | id in rest :: id !in ids
        invariant forall i, j | 0 <= i < j < |ids| :: ids[i] != ids[j]
        decreases |rest|
      {
        var id :| id in rest;
        ids := ids + [id];
        rest := rest - {id};
      }
      order := ids;
      ok := PublishAll(DescriptorItems(descriptorsPrefix, descriptors, ids) + RouteItems(routesPrefix, routes), outage);
    }
  }

  lemma {:induction false} PassStops(store: Entries, items: seq<Item>, outage: Option<Outage>, n: nat)
    requires n <= |items|
    ensures !Reconcile(store, items[..n], outage).ok ==>
        Reconcile(store, items, outage) == Reconcile(store, items[..n], outage)
  {
    if n == |items| {
      assert items[..n] == items;
    } else {
      var init := items[..|items| - 1];
      PassStops(store, init, outage, n);
      assert init[..n] == items[..n];
    }
  }
}
