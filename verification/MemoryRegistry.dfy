/**
 The in-process registry: instances by service and id, and watchers with bounded queues that lose
 events when they are full. Goroutines interleave between critical sections, which are the steps.
 */
module MemoryRegistry {
  import opened Wrappers
  import opened Text
  import opened Registry
  import opened Discovery

  type ChanId = nat

  // Instances of one service by id, for every service that has any.
  type Instances = map<string, Snapshot>

  // How many events a watcher can leave unread beyond its initial snapshot.
  const BACKLOG := 8

  /**
   A watcher's channel. `snapshot` is what it was filled with, `since` and `until` delimit the
   publications made while it was registered, and `mask` says which of them were accepted.
   */
  datatype Channel = Channel(
    service: string,
    capacity: nat,
    queue: seq<DiscoveryEvent>,
    closed: bool,
    received: seq<DiscoveryEvent>,
    snapshot: seq<DiscoveryEvent>,
    since: nat,
    until: Option<nat>,
    mask: seq<bool>)

  /** The registry, all channels it ever made and everything it ever published. */
  datatype State = State(
    instances: Instances,
    watchers: map<string, seq<ChanId>>,
    channels: seq<Channel>,
    log: seq<DiscoveryEvent>,
    panicked: bool)

  const INITIAL := State(map[], map[], [], [], false)

  function At(instances: Instances, service: string): Snapshot {
    if service in instances then instances[service] else map[]
  }

  // ---------------------------------------------------------------- instances

  predicate Valid(instance: ServiceInstance) {
    !Blank(instance.id) && !Blank(instance.name) && !Blank(instance.address)
  }

  /** The instance as Register stores it. */
  function Normalized(instance: ServiceInstance, now: Time): ServiceInstance {
    var seen := if instance.lastSeen == 0 then now else instance.lastSeen;
    instance.(id := TrimSpace(instance.id), name := TrimSpace(instance.name), address := TrimSpace(instance.address),
              lastSeen := seen, startedAt := if instance.startedAt == 0 then seen else instance.startedAt)
  }

  function Stored(instances: Instances, instance: ServiceInstance): Instances {
    instances[instance.name := At(instances, instance.name)[instance.id := instance]]
  }

  function Deleted(instances: Instances, name: string, id: string): Instances {
    var rest := At(instances, name) - {id};
    if rest == map[] then instances - {name} else instances[name := rest]
  }

  // ---------------------------------------------------------------- channels

  function Targets(watchers: map<string, seq<ChanId>>, service: string): seq<ChanId> {
    if service in watchers then watchers[service] else []
  }

  /** A send that drops the event rather than block. */
  function Offer(c: Channel, e: DiscoveryEvent): Channel {
    if |c.queue| < c.capacity then c.(queue := c.queue + [e], mask := c.mask + [true])
    else c.(mask := c.mask + [false])
  }

  function Broadcast(channels: seq<Channel>, targets: seq<ChanId>, e: DiscoveryEvent): seq<Channel> {
    seq(|channels|, i requires 0 <= i < |channels| => if i in targets then Offer(channels[i], e) else channels[i])
  }

  /** Sending on a closed channel panics. */
  predicate SendsOnClosed(channels: seq<Channel>, targets: seq<ChanId>) {
    exists i | 0 <= i < |channels| :: i in targets && channels[i].closed
  }

  /** The instance table changes and its watchers are told. */
  function Published(s: State, instances: Instances, e: DiscoveryEvent): State {
    var targets := Targets(s.watchers, e.instance.name);
    s.(instances := instances, log := s.log + [e],
       channels := Broadcast(s.channels, targets, e),
       panicked := s.panicked || SendsOnClosed(s.channels, targets))
  }

  /** The added events of a snapshot, in the order in which the map was iterated. */
  function Announced(order: seq<string>, instances: Snapshot): seq<DiscoveryEvent>
    requires forall i | 0 <= i < |order| :: order[i] in instances
  {
    if order == [] then []
    else Announced(order[..|order| - 1], instances) + [DiscoveryEvent(Added, instances[order[|order| - 1]])]
  }

  /** `order` lists every key of the map once. */
  ghost predicate Enumerates(order: seq<string>, instances: Snapshot) {
    && (forall i | 0 <= i < |order| :: order[i] in instances)
    && (forall k | k in instances :: k in order)
    && (forall i, j | 0 <= i < j < |order| :: order[i] != order[j])
  }

  function NewChannel(service: string, snapshot: seq<DiscoveryEvent>, since: nat): Channel {
    Channel(service, |snapshot| + BACKLOG, snapshot, false, [], snapshot, since, None, [])
  }

  function Without(ids: seq<ChanId>, i: ChanId): seq<ChanId> {
    if ids == [] then [] else if ids[0] == i then ids[1..] else [ids[0]] + Without(ids[1..], i)
  }

  function Unlisted(watchers: map<string, seq<ChanId>>, service: string, i: ChanId): map<string, seq<ChanId>> {
    var rest := Without(Targets(watchers, service), i);
    if rest == [] then watchers - {service} else watchers[service := rest]
  }

  // ---------------------------------------------------------------- the steps; `cancelled` is the caller's context

  datatype Action =
    | Register(instance: ServiceInstance, now: Time, cancelled: bool)
    | Renew(name: string, id: string, now: Time, cancelled: bool)
    | Deregister(name: string, id: string, cancelled: bool)
    | Watch(service: string, order: seq<string>)
    | Unwatch(channel: ChanId)
    | CloseChannel(channel: ChanId)
    | Receive(channel: ChanId)

  function Registering(s: State, instance: ServiceInstance, now: Time, cancelled: bool): State {
    if !Valid(instance) || cancelled then s
    else
      var stored := Normalized(instance, now);
      Published(s, Stored(s.instances, stored), DiscoveryEvent(Added, stored))
  }

  /** How a call fails: ErrInstanceNotFound, the context's error, or a blank name. */
  datatype RegistryError = NotFound | Cancelled | Blanked

  function RenewError(instances: Instances, name: string, id: string, cancelled: bool): Option<RegistryError> {
    if cancelled then Some(Cancelled)
    else if id !in At(instances, name) then Some(NotFound)
    else None
  }

  function DeregisterError(name: string, id: string, cancelled: bool): Option<RegistryError> {
    if cancelled then Some(Cancelled)
    else if Blank(name) || Blank(id) then Some(Blanked)
    else None
  }

  function Renewing(s: State, name: string, id: string, now: Time, cancelled: bool): State {
    if cancelled || id !in At(s.instances, name) then s
    else
      var renewed := At(s.instances, name)[id].(lastSeen := now);
      Published(s, s.instances[name := s.instances[name][id := renewed]], DiscoveryEvent(Updated, renewed))
  }

  /** Deregister and Delete. */
  function Deregistering(s: State, name: string, id: string, cancelled: bool): State {
    var service, key := TrimSpace(name), TrimSpace(id);
    if cancelled || service == "" || key == "" || key !in At(s.instances, service) then s
    else
      var gone := At(s.instances, service)[key];
      Published(s, Deleted(s.instances, service, key), DiscoveryEvent(Removed, gone))
  }

  function Watching(s: State, service: string, order: seq<string>): State
    requires forall i | 0 <= i < |order| :: order[i] in At(s.instances, TrimSpace(service))
  {
    var name := TrimSpace(service);
    if name == "" then s
    else
      var channel := NewChannel(name, Announced(order, At(s.instances, name)), |s.log|);
      s.(watchers := s.watchers[name := Targets(s.watchers, name) + [|s.channels|]], channels := s.channels + [channel])
  }

  /** removeWatcher, run once the watcher's context is done. */
  function Unwatching(s: State, i: ChanId): State {
    if i >= |s.channels| || s.channels[i].until.Some? then s
    else
      s.(watchers := Unlisted(s.watchers, s.channels[i].service, i),
         channels := s.channels[i := s.channels[i].(until := Some(|s.log|))])
  }

  /** The same goroutine closes the channel afterwards, without the lock. */
  function Closing(s: State, i: ChanId): State {
    if i >= |s.channels| || s.channels[i].until.None? || s.channels[i].closed then s
    else s.(channels := s.channels[i := s.channels[i].(closed := true)])
  }

  /** The consumer takes the oldest event. */
  function Receiving(s: State, i: ChanId): State {
    if i >= |s.channels| || s.channels[i].queue == [] then s
    else
      var c := s.channels[i];
      s.(channels := s.channels[i := c.(received := c.received + [c.queue[0]], queue := c.queue[1..])])
  }

  ghost function Step(s: State, a: Action): State {
    match a
    case Register(instance, now, cancelled) => Registering(s, instance, now, cancelled)
    case Renew(name, id, now, cancelled) => Renewing(s, name, id, now, cancelled)
    case Deregister(name, id, cancelled) => Deregistering(s, name, id, cancelled)
    case Watch(service, order) =>
      if Enumerates(order, At(s.instances, TrimSpace(service))) then Watching(s, service, order) else s
    case Unwatch(i) => Unwatching(s, i)
    case CloseChannel(i) => Closing(s, i)
    case Receive(i) => Receiving(s, i)
  }

  ghost function Run(actions: seq<Action>): State {
    if actions == [] then INITIAL else Step(Run(actions[..|actions| - 1]), actions[|actions| - 1])
  }

  // ---------------------------------------------------------------- the instance table

  /** Keyed by their own trimmed, non-blank ids, under their own service's name. */
  predicate EntriesOk(service: string, entries: Snapshot) {
    forall id | id in entries ::
      && entries[id].id == id && id != "" && TrimSpace(id) == id
      && entries[id].name == service && service != "" && TrimSpace(service) == service
      && !Blank(entries[id].address)
  }

  predicate InstancesOk(instances: Instances) {
    forall service | service in instances :: instances[service] != map[] && EntriesOk(service, instances[service])
  }

  /** The table after a publication is what replaying the published event makes of it. */
  ghost predicate Follows(prior: Instances, next: Instances, e: DiscoveryEvent) {
    && At(next, e.instance.name) == ApplySnapshotEvent(At(prior, e.instance.name), e)
    && forall service | service != e.instance.name :: At(next, service) == At(prior, service)
  }

  lemma NormalizedOk(instance: ServiceInstance, now: Time)
    requires Valid(instance)
    ensures
      var stored := Normalized(instance, now);
      && stored.id != "" && TrimSpace(stored.id) == stored.id
      && stored.name != "" && TrimSpace(stored.name) == stored.name
      && !Blank(stored.address)
  {
    TrimIdempotent(instance.id, WHITESPACE);
    TrimIdempotent(instance.name, WHITESPACE);
    TrimIdempotent(instance.address, WHITESPACE);
  }

  lemma StoredFollows(instances: Instances, instance: ServiceInstance, kind: EventType)
    requires InstancesOk(instances) && !kind.Removed?
    requires instance.id != "" && TrimSpace(instance.id) == instance.id
    requires instance.name != "" && TrimSpace(instance.name) == instance.name && !Blank(instance.address)
    ensures InstancesOk(Stored(instances, instance))
    ensures Follows(instances, Stored(instances, instance), DiscoveryEvent(kind, instance))
  {
    hide TrimSpace, Blank;
    var next := Stored(instances, instance);
    assert instance.id in next[instance.name];
  }

  lemma DeletedFollows(instances: Instances, name: string, id: string)
    requires InstancesOk(instances) && id in At(instances, name)
    ensures InstancesOk(Deleted(instances, name, id))
    ensures Follows(instances, Deleted(instances, name, id), DiscoveryEvent(Removed, At(instances, name)[id]))
  {
    hide TrimSpace, Blank;
  }

  // ---------------------------------------------------------------- what a channel carries

  /** The publications that concern one service. */
  function On(log: seq<DiscoveryEvent>, service: string): seq<DiscoveryEvent> {
    if log == [] then []
    else
      var init := On(log[..|log| - 1], service);
      var e := log[|log| - 1];
      if e.instance.name == service then init + [e] else init
  }

  /** The elements whose mark is set. */
  function Kept(events: seq<DiscoveryEvent>, mask: seq<bool>): seq<DiscoveryEvent>
    requires |events| == |mask|
  {
    if events == [] then []
    else
      var n := |events| - 1;
      Kept(events[..n], mask[..n]) + if mask[n] then [events[n]] else []
  }

  function End(c: Channel, log: seq<DiscoveryEvent>): nat {
    if c.until.Some? then c.until.value else |log|
  }

  predicate Spans(c: Channel, log: seq<DiscoveryEvent>) {
    c.since <= End(c, log) <= |log|
  }

  /** The publications made to the channel's service while it was registered. */
  function Seen(c: Channel, log: seq<DiscoveryEvent>): seq<DiscoveryEvent>
    requires Spans(c, log)
  {
    On(log[c.since..End(c, log)], c.service)
  }

  predicate StreamOk(c: Channel, log: seq<DiscoveryEvent>) {
    && Spans(c, log)
    && |c.mask| == |Seen(c, log)|
    && c.received + c.queue == c.snapshot + Kept(Seen(c, log), c.mask)
    && |c.queue| <= c.capacity == |c.snapshot| + BACKLOG
    && (forall k | 0 <= k < |c.mask| && k < BACKLOG :: c.mask[k])
    && (c.closed ==> c.until.Some?)
  }

  /** Replaying the snapshot and all publications gives the instances the registry has now. */
  predicate MirrorOk(c: Channel, log: seq<DiscoveryEvent>, instances: Instances)
    requires Spans(c, log)
  {
    c.until.None? ==> Replay(Replay(map[], c.snapshot), Seen(c, log)) == At(instances, c.service)
  }

  lemma OnAppend(log: seq<DiscoveryEvent>, e: DiscoveryEvent, service: string)
    ensures On(log + [e], service) == On(log, service) + if e.instance.name == service then [e] else []
  {
    assert (log + [e])[..|log|] == log;
  }

  lemma {:induction false} KeptShorter(events: seq<DiscoveryEvent>, mask: seq<bool>)
    requires |events| == |mask|
    ensures |Kept(events, mask)| <= |mask|
  {
    if events != [] {
      KeptShorter(events[..|events| - 1], mask[..|mask| - 1]);
    }
  }

  lemma KeptAppend(events: seq<DiscoveryEvent>, mask: seq<bool>, e: DiscoveryEvent, kept: bool)
    requires |events| == |mask|
    ensures Kept(events + [e], mask + [kept]) == Kept(events, mask) + if kept then [e] else []
  {
    assert (events + [e])[..|events|] == events && (mask + [kept])[..|mask|] == mask;
  }

  lemma ReplayAppend(start: Snapshot, events: seq<DiscoveryEvent>, e: DiscoveryEvent)
    ensures Replay(start, events + [e]) == ApplySnapshotEvent(Replay(start, events), e)
  {
    assert (events + [e])[..|events|] == events;
  }

  /** How the publications seen by a channel grow with the log. */
  lemma SeenAppend(c: Channel, log: seq<DiscoveryEvent>, e: DiscoveryEvent)
    requires Spans(c, log)
    ensures Spans(c, log + [e])
    ensures Seen(c, log + [e])
         == Seen(c, log) + if c.until.None? && e.instance.name == c.service then [e] else []
  {
    if c.until.Some? {
      assert (log + [e])[c.since..End(c, log)] == log[c.since..End(c, log)];
    } else {
      assert (log + [e])[c.since..|log| + 1] == log[c.since..|log|] + [e];
      OnAppend(log[c.since..|log|], e, c.service);
    }
  }

  lemma OfferedStream(c: Channel, log: seq<DiscoveryEvent>, e: DiscoveryEvent)
    requires StreamOk(c, log) && c.until.None? && e.instance.name == c.service
    ensures StreamOk(Offer(c, e), log + [e])
  {
    var seen := Seen(c, log);
    SeenAppend(c, log, e);
    KeptShorter(seen, c.mask);
    KeptAppend(seen, c.mask, e, true);
    KeptAppend(seen, c.mask, e, false);
    var after := Offer(c, e);
    assert Seen(after, log + [e]) == seen + [e];
    hide Kept, On;
    assert c.received + (c.queue + [e]) == (c.received + c.queue) + [e];
    assert c.snapshot + (Kept(seen, c.mask) + [e]) == (c.snapshot + Kept(seen, c.mask)) + [e];
    assert Kept(seen, c.mask) + [] == Kept(seen, c.mask);
    if |c.mask| < BACKLOG {
      assert |c.received + c.queue| == |c.snapshot| + |Kept(seen, c.mask)|;
    }
  }

  lemma UnofferedStream(c: Channel, log: seq<DiscoveryEvent>, e: DiscoveryEvent)
    requires StreamOk(c, log) && (c.until.Some? || e.instance.name != c.service)
    ensures StreamOk(c, log + [e])
  {
    SeenAppend(c, log, e);
    assert Seen(c, log) + [] == Seen(c, log);
  }

  lemma MirrorAppend(c: Channel, log: seq<DiscoveryEvent>, prior: Instances, next: Instances, e: DiscoveryEvent)
    requires Spans(c, log) && Spans(c, log + [e]) && MirrorOk(c, log, prior) && Follows(prior, next, e)
    ensures MirrorOk(c, log + [e], next)
  {
    hide ApplySnapshotEvent, Replay, On;
    SeenAppend(c, log, e);
    var base := Replay(map[], c.snapshot);
    if c.until.None? {
      if e.instance.name == c.service {
        ReplayAppend(base, Seen(c, log), e);
      } else {
        assert Seen(c, log) + [] == Seen(c, log);
      }
    }
  }

  // ---------------------------------------------------------------- what every run keeps

  predicate ListedOk(s: State, service: string, ids: seq<ChanId>) {
    && ids != []
    && (forall j | 0 <= j < |ids| ::
          ids[j] < |s.channels| && s.channels[ids[j]].service == service && s.channels[ids[j]].until.None?)
    && (forall j, k | 0 <= j < k < |ids| :: ids[j] != ids[k])
  }

  /** The watcher lists hold exactly the channels that are still registered, each once. */
  predicate WatchersOk(s: State) {
    && (forall service | service in s.watchers :: ListedOk(s, service, s.watchers[service]))
    && (forall i | 0 <= i < |s.channels| && s.channels[i].until.None? :: i in Targets(s.watchers, s.channels[i].service))
  }

  predicate ChannelOk(s: State, i: ChanId)
    requires i < |s.channels|
  {
    StreamOk(s.channels[i], s.log) && MirrorOk(s.channels[i], s.log, s.instances)
  }

  predicate Inv(s: State) {
    && InstancesOk(s.instances) && WatchersOk(s) && !s.panicked
    && forall i: ChanId | i < |s.channels| :: ChannelOk(s, i)
  }

  lemma TargetsOpen(s: State, service: string)
    requires Inv(s)
    ensures !SendsOnClosed(s.channels, Targets(s.watchers, service))
    ensures forall i: ChanId | i < |s.channels| ::
        i in Targets(s.watchers, service) <==> s.channels[i].until.None? && s.channels[i].service == service
  {
    hide StreamOk, MirrorOk, InstancesOk;
    var targets := Targets(s.watchers, service);
    forall i: ChanId | i < |s.channels|
      ensures i in targets <==> s.channels[i].until.None? && s.channels[i].service == service
      ensures i in targets ==> !s.channels[i].closed
    {
      if i in targets {
        var j :| 0 <= j < |targets| && targets[j] == i;
        assert ListedOk(s, service, targets);
      }
      assert ChannelOk(s, i);
      ClosedLast(s.channels[i], s.log);
    }
  }

  lemma ClosedLast(c: Channel, log: seq<DiscoveryEvent>)
    requires StreamOk(c, log)
    ensures c.closed ==> c.until.Some?
    ensures Spans(c, log)
  {
  }

  lemma PublishedKeeps(s: State, instances: Instances, e: DiscoveryEvent)
    requires Inv(s) && InstancesOk(instances) && Follows(s.instances, instances, e)
    ensures Inv(Published(s, instances, e))
  {
    hide InstancesOk, Follows, StreamOk, MirrorOk, SendsOnClosed, ApplySnapshotEvent, Replay, On;
    var after := Published(s, instances, e);
    TargetsOpen(s, e.instance.name);
    var targets := Targets(s.watchers, e.instance.name);
    forall i: ChanId | i < |after.channels|
      ensures ChannelOk(after, i)
      ensures after.channels[i].service == s.channels[i].service && after.channels[i].until == s.channels[i].until
    {
      var c := s.channels[i];
      assert ChannelOk(s, i);
      ClosedLast(c, s.log);
      SeenAppend(c, s.log, e);
      MirrorAppend(c, s.log, s.instances, instances, e);
      if i in targets {
        OfferedStream(c, s.log, e);
        MirrorSame(c, Offer(c, e), s.log + [e], instances);
      } else {
        UnofferedStream(c, s.log, e);
      }
    }
    WatchersKept(s, after);
  }

  lemma WatchersKept(s: State, after: State)
    requires WatchersOk(s) && after.watchers == s.watchers && |after.channels| == |s.channels|
    requires forall i: ChanId | i < |s.channels| ::
        after.channels[i].service == s.channels[i].service && after.channels[i].until == s.channels[i].until
    ensures WatchersOk(after)
  {
    forall service | service in after.watchers ensures ListedOk(after, service, after.watchers[service]) {
      assert ListedOk(s, service, s.watchers[service]);
    }
  }

  /** What a mirror depends on. */
  lemma MirrorSame(c: Channel, d: Channel, log: seq<DiscoveryEvent>, instances: Instances)
    requires Spans(c, log) && MirrorOk(c, log, instances)
    requires d.service == c.service && d.snapshot == c.snapshot && d.since == c.since && d.until == c.until
    ensures Spans(d, log) && MirrorOk(d, log, instances) && Seen(d, log) == Seen(c, log)
  {
  }

  lemma RegisterKeeps(s: State, instance: ServiceInstance, now: Time, cancelled: bool)
    requires Inv(s)
    ensures Inv(Registering(s, instance, now, cancelled))
  {
    hide Inv, Published, Stored, Normalized;
    if Valid(instance) && !cancelled {
      NormalizedOk(instance, now);
      InvInstances(s);
      var stored := Normalized(instance, now);
      StoredFollows(s.instances, stored, Added);
      PublishedKeeps(s, Stored(s.instances, stored), DiscoveryEvent(Added, stored));
    }
  }

  lemma InvInstances(s: State)
    requires Inv(s)
    ensures InstancesOk(s.instances)
  {
  }

  lemma RenewKeeps(s: State, name: string, id: string, now: Time, cancelled: bool)
    requires Inv(s)
    ensures Inv(Renewing(s, name, id, now, cancelled))
  {
    hide Inv, Published, TrimSpace, Blank;
    if !cancelled && id in At(s.instances, name) {
      InvInstances(s);
      assert EntriesOk(name, s.instances[name]);
      var renewed := At(s.instances, name)[id].(lastSeen := now);
      StoredFollows(s.instances, renewed, Updated);
      PublishedKeeps(s, Stored(s.instances, renewed), DiscoveryEvent(Updated, renewed));
    }
  }

  lemma DeregisterKeeps(s: State, name: string, id: string, cancelled: bool)
    requires Inv(s)
    ensures Inv(Deregistering(s, name, id, cancelled))
  {
    hide Inv, Published, TrimSpace, Blank, Deleted;
    var service, key := TrimSpace(name), TrimSpace(id);
    if !cancelled && key in At(s.instances, service) {
      InvInstances(s);
      assert EntriesOk(service, s.instances[service]);
      var gone := At(s.instances, service)[key];
      DeletedFollows(s.instances, service, key);
      PublishedKeeps(s, Deleted(s.instances, service, key), DiscoveryEvent(Removed, gone));
    }
  }

  /** A fresh channel replays to the instances it was filled with, whatever the iteration order. */
  lemma {:induction false} AnnouncedReplays(service: string, order: seq<string>, entries: Snapshot)
    requires EntriesOk(service, entries)
    requires forall i | 0 <= i < |order| :: order[i] in entries
    ensures Replay(map[], Announced(order, entries)) == map k | k in entries && k in order :: entries[k]
  {
    hide TrimSpace, Blank, EntriesOk;
    if order != [] {
      var n := |order| - 1;
      var k := order[n];
      AnnouncedReplays(service, order[..n], entries);
      var e := DiscoveryEvent(Added, entries[k]);
      ReplayAppend(map[], Announced(order[..n], entries), e);
      assert order == order[..n] + [k];
      EntryVisible(service, entries, k);
    }
  }

  lemma EntryVisible(service: string, entries: Snapshot, k: string)
    requires EntriesOk(service, entries) && k in entries
    ensures !Blank(entries[k].address) && InstanceKey(entries[k]) == k
  {
  }

  lemma WatchersGrow(s: State, after: State, channel: Channel)
    requires WatchersOk(s) && channel.until.None? && after.channels == s.channels + [channel]
    requires after.watchers == s.watchers[channel.service := Targets(s.watchers, channel.service) + [|s.channels|]]
    ensures WatchersOk(after)
  {
    var name := channel.service;
    var prior := Targets(s.watchers, name);
    assert prior != [] ==> ListedOk(s, name, prior);
    forall other | other in after.watchers ensures ListedOk(after, other, after.watchers[other]) {
      if other != name {
        assert ListedOk(s, other, s.watchers[other]);
      }
    }
    forall i | 0 <= i < |after.channels| && after.channels[i].until.None?
      ensures i in Targets(after.watchers, after.channels[i].service)
    {
      if i < |s.channels| {
        assert i in Targets(s.watchers, s.channels[i].service);
      }
    }
  }

  lemma WatchKeeps(s: State, service: string, order: seq<string>)
    requires Inv(s) && Enumerates(order, At(s.instances, TrimSpace(service)))
    ensures Inv(Watching(s, service, order))
  {
    hide TrimSpace, Blank, InstanceKey, Replay, StreamOk, MirrorOk, Announced, ListedOk;
    var name := TrimSpace(service);
    var after := Watching(s, service, order);
    if name != "" {
      var entries := At(s.instances, name);
      var channel := NewChannel(name, Announced(order, entries), |s.log|);
      assert EntriesOk(name, entries);
      FreshChannelOk(channel, s.log, s.instances, order, entries);
      forall i: ChanId | i < |after.channels| ensures ChannelOk(after, i) {
        assert i < |s.channels| ==> ChannelOk(s, i);
      }
      WatchersGrow(s, after, channel);
    }
  }

  lemma FreshChannelOk(c: Channel, log: seq<DiscoveryEvent>, instances: Instances, order: seq<string>, entries: Snapshot)
    requires EntriesOk(c.service, entries) && entries == At(instances, c.service) && Enumerates(order, entries)
    requires c == NewChannel(c.service, Announced(order, entries), |log|)
    ensures StreamOk(c, log) && MirrorOk(c, log, instances)
  {
    hide TrimSpace, Blank, InstanceKey, Announced, ApplySnapshotEvent;
    AnnouncedReplays(c.service, order, entries);
    assert log[|log|..|log|] == [];
    assert Seen(c, log) == [];
    assert (map k | k in entries && k in order :: entries[k]) == entries;
    assert c.received + c.queue == c.snapshot + [];
  }

  lemma {:induction false} WithoutRemoves(ids: seq<ChanId>, i: ChanId)
    requires forall j, k | 0 <= j < k < |ids| :: ids[j] != ids[k]
    ensures
      var rest := Without(ids, i);
      && (forall x :: x in rest <==> x in ids && x != i)
      && (forall j, k | 0 <= j < k < |rest| :: rest[j] != rest[k])
  {
    if ids != [] {
      assert forall x :: x in ids <==> x == ids[0] || x in ids[1..];
      if ids[0] == i {
        assert i !in ids[1..];
      } else {
        WithoutRemoves(ids[1..], i);
        var tail := Without(ids[1..], i);
        assert forall x :: x in Without(ids, i) <==> x == ids[0] || x in tail;
        assert ids[0] !in ids[1..];
      }
    }
  }

  lemma UnwatchKeeps(s: State, i: ChanId)
    requires Inv(s)
    ensures Inv(Unwatching(s, i))
  {
    hide InstancesOk, StreamOk, MirrorOk, Without;
    if i < |s.channels| && s.channels[i].until.None? {
      var after := Unwatching(s, i);
      var c := s.channels[i];
      var ids := Targets(s.watchers, c.service);
      assert ListedOk(s, c.service, ids);
      WithoutRemoves(ids, i);
      forall j: ChanId | j < |after.channels| ensures ChannelOk(after, j) {
        assert ChannelOk(s, j);
        if j == i {
          EndedOk(c, s.log, s.instances);
        }
      }
      forall service | service in after.watchers ensures ListedOk(after, service, after.watchers[service]) {
        var kept := after.watchers[service];
        assert ListedOk(s, service, s.watchers[service]);
        forall j | 0 <= j < |kept| ensures kept[j] < |after.channels| && kept[j] in s.watchers[service] && kept[j] != i {
          assert kept[j] in kept;
          if service != c.service {
            assert s.channels[kept[j]].service == service;
          }
        }
      }
      forall j | 0 <= j < |after.channels| && after.channels[j].until.None?
        ensures j in Targets(after.watchers, after.channels[j].service)
      {
        assert j in Targets(s.watchers, s.channels[j].service);
      }
    }
  }

  lemma EndedOk(c: Channel, log: seq<DiscoveryEvent>, instances: Instances)
    requires StreamOk(c, log) && c.until.None?
    ensures
      var ended := c.(until := Some(|log|));
      StreamOk(ended, log) && MirrorOk(ended, log, instances)
  {
    assert Seen(c.(until := Some(|log|)), log) == Seen(c, log);
  }

  lemma CloseKeeps(s: State, i: ChanId)
    requires Inv(s)
    ensures Inv(Closing(s, i)) && Inv(Receiving(s, i))
  {
    hide InstancesOk, StreamOk, MirrorOk;
    if i < |s.channels| {
      var c := s.channels[i];
      assert ChannelOk(s, i);
      ClosedOk(c, s.log, s.instances);
      if c.queue != [] {
        ReceivedOk(c, s.log, s.instances);
      }
      var closed, received := Closing(s, i), Receiving(s, i);
      forall j: ChanId | j < |s.channels| ensures ChannelOk(closed, j) && ChannelOk(received, j) {
        assert ChannelOk(s, j);
      }
      WatchersKept(s, closed);
      WatchersKept(s, received);
    }
  }

  lemma ClosedOk(c: Channel, log: seq<DiscoveryEvent>, instances: Instances)
    requires StreamOk(c, log) && MirrorOk(c, log, instances)
    ensures c.until.Some? ==>
        StreamOk(c.(closed := true), log) && MirrorOk(c.(closed := true), log, instances)
  {
    assert c.until.Some? ==> Seen(c.(closed := true), log) == Seen(c, log);
  }

  lemma ReceivedOk(c: Channel, log: seq<DiscoveryEvent>, instances: Instances)
    requires StreamOk(c, log) && MirrorOk(c, log, instances) && c.queue != []
    ensures
      var d := c.(received := c.received + [c.queue[0]], queue := c.queue[1..]);
      StreamOk(d, log) && MirrorOk(d, log, instances)
  {
    hide On, Kept;
    var d := c.(received := c.received + [c.queue[0]], queue := c.queue[1..]);
    MirrorSame(c, d, log, instances);
    assert d.received + d.queue == c.received + c.queue;
  }

  lemma {:induction false} RunKeeps(actions: seq<Action>)
    ensures Inv(Run(actions))
  {
    hide Inv, Registering, Renewing, Deregistering, Watching, Unwatching, Closing, Receiving, Enumerates;
    if actions == [] {
      InitialInv();
    } else {
      var n := |actions| - 1;
      RunKeeps(actions[..n]);
      var s := Run(actions[..n]);
      match actions[n]
      case Register(instance, now, cancelled) => RegisterKeeps(s, instance, now, cancelled);
      case Renew(name, id, now, cancelled) => RenewKeeps(s, name, id, now, cancelled);
      case Deregister(name, id, cancelled) => DeregisterKeeps(s, name, id, cancelled);
      case Watch(service, order) =>
        if Enumerates(order, At(s.instances, TrimSpace(service))) {
          WatchKeeps(s, service, order);
        }
      case Unwatch(i) => UnwatchKeeps(s, i);
      case CloseChannel(i) => CloseKeeps(s, i);
      case Receive(i) => CloseKeeps(s, i);
    }
  }

  lemma InitialInv()
    ensures Inv(INITIAL)
  {
  }

  // ---------------------------------------------------------------- what watchers and callers can rely on

  /** No publication ever hits a closed channel, because none that is listed is closed. */
  lemma NeverPanics(actions: seq<Action>)
    ensures !Run(actions).panicked
    ensures forall service, i: ChanId | i in Targets(Run(actions).watchers, service) ::
      i < |Run(actions).channels| && !Run(actions).channels[i].closed
  {
    hide Run, InstancesOk;
    RunKeeps(actions);
    var s := Run(actions);
    forall service, i: ChanId | i in Targets(s.watchers, service) ensures i < |s.channels| && !s.channels[i].closed {
      var ids := Targets(s.watchers, service);
      assert ListedOk(s, service, ids);
      var j :| 0 <= j < |ids| && ids[j] == i;
      assert ChannelOk(s, i);
      ClosedLast(s.channels[i], s.log);
    }
  }

  /**
   What a consumer gets: the whole initial snapshot, then in order those publications made while it
   was registered that were not dropped; the first eight of them are not, however slow it is.
   */
  lemma WatcherStream(actions: seq<Action>, i: ChanId)
    requires i < |Run(actions).channels|
    ensures
      var s := Run(actions);
      var c := s.channels[i];
      && Spans(c, s.log)
      && var published := On(s.log[c.since..End(c, s.log)], c.service);
      && |c.mask| == |published|
      && c.received + c.queue == c.snapshot + Kept(published, c.mask)
      && |c.queue| <= |c.snapshot| + BACKLOG
      && forall k | 0 <= k < |published| && k < BACKLOG :: c.mask[k]
  {
    hide Run, On, Kept;
    RunKeeps(actions);
    assert ChannelOk(Run(actions), i);
  }

  lemma {:induction false} KeptAll(events: seq<DiscoveryEvent>, mask: seq<bool>)
    requires |events| == |mask| && forall k | 0 <= k < |mask| :: mask[k]
    ensures Kept(events, mask) == events
  {
    if events != [] {
      KeptAll(events[..|events| - 1], mask[..|mask| - 1]);
    }
  }

  /** A registered watcher that lost nothing replays its stream to the instances the registry has. */
  lemma {:induction false} LosslessMirror(actions: seq<Action>, i: ChanId)
    requires
      var s := Run(actions);
      && i < |s.channels| && s.channels[i].until.None?
      && forall k | 0 <= k < |s.channels[i].mask| :: s.channels[i].mask[k]
    ensures
      var s := Run(actions);
      Replay(map[], s.channels[i].received + s.channels[i].queue) == At(s.instances, s.channels[i].service)
  {
    hide Run, On, Kept, Replay;
    RunKeeps(actions);
    var s := Run(actions);
    var c := s.channels[i];
    assert ChannelOk(s, i);
    KeptAll(Seen(c, s.log), c.mask);
    ReplayConcat(map[], c.snapshot, Seen(c, s.log));
  }

  /** Instances sit under their own trimmed name and id, and a service is listed if it has any. */
  lemma TableExact(actions: seq<Action>, service: string)
    ensures
      var instances := Run(actions).instances;
      && (service in instances <==> exists id :: id in At(instances, service))
      && (forall id | id in At(instances, service) ::
            At(instances, service)[id].name == service && At(instances, service)[id].id == id
            && TrimSpace(service) == service && TrimSpace(id) == id && id != "")
  {
    hide Run, TrimSpace;
    RunKeeps(actions);
    var instances := Run(actions).instances;
    if service in instances {
      assert EntriesOk(service, instances[service]) && instances[service] != map[];
      assert instances[service].Keys != {};
      var id :| id in instances[service];
      assert id in At(instances, service);
    }
  }

  // ---------------------------------------------------------------- the registry object

  lemma TargetsDistinct(s: State, service: string)
    requires Inv(s)
    ensures
      var ids := Targets(s.watchers, service);
      && (forall j | 0 <= j < |ids| :: ids[j] < |s.channels| && !s.channels[ids[j]].closed)
      && (forall j, k | 0 <= j < k < |ids| :: ids[j] != ids[k])
  {
    hide StreamOk, MirrorOk, InstancesOk;
    var ids := Targets(s.watchers, service);
    if ids != [] {
      assert ListedOk(s, service, ids);
    }
    forall j | 0 <= j < |ids| ensures !s.channels[ids[j]].closed {
      assert ChannelOk(s, ids[j]);
      ClosedLast(s.channels[ids[j]], s.log);
    }
  }

  class Memory {
    var instances: Instances
    var watchers: map<string, seq<ChanId>>
    // The channels handed out, which consumers hold on to after they are taken off the lists.
    var channels: seq<Channel>
    // Everything published, which the channels refer to by position.
    var log: seq<DiscoveryEvent>

    ghost function Abs(): State
      reads this
    {
      State(instances, watchers, channels, log, false)
    }

    constructor ()
      ensures Abs() == INITIAL && Inv(Abs())
    {
      instances, watchers, channels, log := map[], map[], [], [];
    }

    /** publishLocked. */
    method Publish(e: DiscoveryEvent)
      requires
        var ids := Targets(watchers, e.instance.name);
        && (forall j | 0 <= j < |ids| :: ids[j] < |channels| && !channels[ids[j]].closed)
        && (forall j, k | 0 <= j < k < |ids| :: ids[j] != ids[k])
      modifies this`channels, this`log
      ensures channels == Broadcast(old(channels), Targets(watchers, e.instance.name), e)
      ensures log == old(log) + [e]
    {
      hide Offer;
      var ids := Targets(watchers, e.instance.name);
      var j := 0;
      while j < |ids|
        invariant 0 <= j <= |ids|
        invariant |channels| == |old(channels)| && log == old(log)
        invariant forall i | 0 <= i < |channels| ::
            channels[i] == if i in ids[..j] then Offer(old(channels)[i], e) else old(channels)[i]
      {
        var c := channels[ids[j]];
        assert ids[j] !in ids[..j];
        channels := channels[ids[j] := Offer(c, e)];
        assert ids[..j + 1] == ids[..j] + [ids[j]];
        j := j + 1;
      }
      assert ids[..j] == ids;
      log := log + [e];
    }

    method Register(instance: ServiceInstance, now: Time, cancelled: bool) returns (ok: bool, handle: (string, string))
      requires Inv(Abs())
      modifies this
      ensures Abs() == Registering(old(Abs()), instance, now, cancelled) && Inv(Abs())
      ensures ok == (Valid(instance) && !cancelled)
      ensures ok ==> handle == (TrimSpace(instance.name), TrimSpace(instance.id))
      ensures ok ==> handle.1 in At(instances, handle.0)
    {
      hide Inv, Broadcast, TrimSpace, InstancesOk, SendsOnClosed;
      handle := ("", "");
      if !Valid(instance) || cancelled {
        return false, handle;
      }
      RegisterKeeps(Abs(), instance, now, cancelled);
      var stored := Normalized(instance, now);
      ghost var before := Abs();
      TargetsDistinct(before, stored.name);
      NoSends(before, stored.name);
      if stored.name !in instances {
        instances := instances[stored.name := map[]];
      }
      instances := instances[stored.name := instances[stored.name][stored.id := stored]];
      assert instances == Stored(before.instances, stored);
      Publish(DiscoveryEvent(Added, stored));
      ok := true;
      handle := (stored.name, stored.id);
    }

    /** renew, with the name and id that the registration handle remembers. */
    method Renew(name: string, id: string, now: Time, cancelled: bool) returns (error: Option<RegistryError>)
      requires Inv(Abs())
      modifies this
      ensures Abs() == Renewing(old(Abs()), name, id, now, cancelled) && Inv(Abs())
      ensures error == RenewError(old(instances), name, id, cancelled)
    {
      hide Inv, Broadcast, InstancesOk, SendsOnClosed;
      if cancelled {
        return Some(Cancelled);
      }
      if name !in instances || id !in instances[name] {
        return Some(NotFound);
      }
      ghost var before := Abs();
      RenewKeeps(before, name, id, now, cancelled);
      var renewed := instances[name][id].(lastSeen := now);
      TargetsDistinct(before, renewed.name);
      NoSends(before, renewed.name);
      instances := instances[name := instances[name][id := renewed]];
      Publish(DiscoveryEvent(Updated, renewed));
      error := None;
    }

    /** deregister; a missing instance is not an error. */
    method Deregister(name: string, id: string, cancelled: bool) returns (error: Option<RegistryError>)
      requires Inv(Abs())
      modifies this
      ensures Abs() == Deregistering(old(Abs()), name, id, cancelled) && Inv(Abs())
      ensures error == DeregisterError(name, id, cancelled)
      ensures error.None? ==> TrimSpace(id) !in At(instances, TrimSpace(name))
    {
      hide Inv, Broadcast, TrimSpace, InstancesOk, SendsOnClosed;
      if cancelled {
        return Some(Cancelled);
      }
      var service, key := TrimSpace(name), TrimSpace(id);
      if service == "" || key == "" {
        return Some(Blanked);
      }
      error := None;
      if service !in instances || key !in instances[service] {
        return;
      }
      ghost var before := Abs();
      DeregisterKeeps(before, name, id, cancelled);
      var gone := instances[service][key];
      TargetsDistinct(before, gone.name);
      NoSends(before, gone.name);
      instances := instances[service := instances[service] - {key}];
      if instances[service] == map[] {
        instances := instances - {service};
      }
      assert instances == Deleted(before.instances, service, key);
      Publish(DiscoveryEvent(Removed, gone));
    }

    method Services() returns (services: seq<string>)
      requires Inv(Abs())
      ensures Ascending(services)
      ensures forall service :: service in services <==> exists id :: id in At(instances, service)
    {
      hide Ascending, SortedKeys;
      services := SortedKeys(instances.Keys);
      SortedKeysSorts(instances.Keys);
      forall service ensures service in services <==> exists id :: id in At(instances, service) {
        if service in instances {
          InvInstances(Abs());
          assert instances[service] != map[] && instances[service].Keys != {};
          var id :| id in instances[service];
          assert id in At(instances, service);
        }
      }
    }

    /** Instance: finds what was registered, however the name and the id are padded. */
    method Instance(service: string, id: string) returns (found: Option<ServiceInstance>)
      requires Inv(Abs())
      ensures found.Some? <==> TrimSpace(service) in instances && TrimSpace(id) in instances[TrimSpace(service)]
      ensures found.Some? ==> found.value == instances[TrimSpace(service)][TrimSpace(id)]
      ensures found.Some? ==> found.value.name == TrimSpace(service) && found.value.id == TrimSpace(id)
    {
      hide Inv, TrimSpace, Blank;
      InvInstances(Abs());
      found := None;
      var name, key := TrimSpace(service), TrimSpace(id);
      if name == "" || key == "" || name !in instances || key !in instances[name] {
        assert name in instances ==> EntriesOk(name, instances[name]);
        return;
      }
      assert EntriesOk(name, instances[name]);
      found := Some(instances[name][key]);
    }

    /** Watch: the new channel's id, or None for a blank service. */
    method Watch(service: string) returns (channel: Option<ChanId>, ghost order: seq<string>)
      requires Inv(Abs())
      modifies this
      ensures Enumerates(order, At(old(instances), TrimSpace(service)))
      ensures Abs() == Watching(old(Abs()), service, order) && Inv(Abs())
      ensures channel == if Blank(service) then None else Some(|old(channels)|)
    {
      hide Inv, TrimSpace;
      var name := TrimSpace(service);
      var entries := At(instances, name);
      var rest := entries.Keys;
      var snapshot: seq<DiscoveryEvent> := [];
      order := [];
      while rest != {}
        invariant rest <= entries.Keys
        invariant forall i | 0 <= i < |order| :: order[i] in entries
        invariant forall k | k in entries :: k in order <==> k !in rest
        invariant forall i, j | 0 <= i < j < |order| :: order[i] != order[j]
        invariant snapshot == Announced(order, entries)
        decreases |rest|
      {
        var k :| k in rest;
        assert k !in order;
        snapshot := snapshot + [DiscoveryEvent(Added, entries[k])];
        assert (order + [k])[..|order|] == order;
        order := order + [k];
        rest := rest - {k};
      }
      ghost var before := Abs();
      WatchKeeps(before, service, order);
      if name == "" {
        return None, order;
      }
      channel := Some(|channels|);
      watchers := watchers[name := Targets(watchers, name) + [|channels|]];
      channels := channels + [NewChannel(name, snapshot, |log|)];
    }

    /** removeWatcher. */
    method RemoveWatcher(i: ChanId)
      requires Inv(Abs()) && i < |channels| && channels[i].until.None?
      modifies this
      ensures Abs() == Unwatching(old(Abs()), i) && Inv(Abs())
    {
      UnwatchKeeps(Abs(), i);
      hide Inv, Unlisted;
      Unlist(channels[i].service, i);
      channels := channels[i := channels[i].(until := Some(|log|))];
    }

    method Unlist(service: string, i: ChanId)
      modifies this`watchers
      ensures watchers == Unlisted(old(watchers), service, i)
    {
      hide Without;
      var ids := Targets(watchers, service);
      var j := Find(ids, i);
      if j < |ids| {
        watchers := watchers[service := ids[..j] + ids[j + 1..]];
      }
      if Targets(watchers, service) == [] {
        watchers := watchers - {service};
      }
    }

    /** The position of `i`, or the length if it is not there, and what removing it there leaves. */
    static method Find(ids: seq<ChanId>, i: ChanId) returns (j: nat)
      ensures j <= |ids|
      ensures j == |ids| ==> Without(ids, i) == ids
      ensures j < |ids| ==> ids[j] == i && Without(ids, i) == ids[..j] + ids[j + 1..]
    {
      j := 0;
      while j < |ids| && ids[j] != i
        invariant 0 <= j <= |ids|
        invariant Without(ids, i) == ids[..j] + Without(ids[j..], i)
      {
        assert ids[j..][1..] == ids[j + 1..];
        assert ids[..j + 1] == ids[..j] + [ids[j]];
        j := j + 1;
      }
      if j < |ids| {
        assert ids[j..][1..] == ids[j + 1..];
      } else {
        assert ids[..j] + [] == ids;
      }
    }
  }

  lemma NoSends(s: State, service: string)
    requires Inv(s)
    ensures !SendsOnClosed(s.channels, Targets(s.watchers, service)) && !s.panicked
  {
    TargetsOpen(s, service);
  }
}
