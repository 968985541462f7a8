/** What each call on the in-process registry does to the instances, the watchers and their queues. */
module MemoryCalls {
  import opened Wrappers
  import opened Text
  import opened Registry
  import opened Discovery
  import opened MemoryRegistry

  function Lookup(instances: Instances, name: string, id: string): Option<ServiceInstance> {
    if name in instances && id in instances[name] then Some(instances[name][id]) else None
  }

  function Find(s: State, name: string, id: string): Option<ServiceInstance> {
    Lookup(s.instances, name, id)
  }

  /** Nothing else is stored or removed. */
  ghost predicate OthersStay(s: State, after: State, name: string, id: string) {
    forall n, i | n != name || i != id :: Find(after, n, i) == Find(s, n, i)
  }

  /**
   Everybody who watches the service is offered the event: it joins the queue exactly if there is
   room, and what a watcher has is left alone otherwise.
   */
  ghost predicate Offers(s: State, after: State, e: DiscoveryEvent) {
    && after.log == s.log + [e] && after.watchers == s.watchers
    && |after.channels| == |s.channels|
    && forall i | 0 <= i < |s.channels| ::
         var c := s.channels[i];
         var told := c.until.None? && c.service == e.instance.name;
         after.channels[i] == (if !told then c
                               else if |c.queue| < c.capacity then c.(queue := c.queue + [e], mask := c.mask + [true])
                               else c.(mask := c.mask + [false]))
  }

  lemma PublishedOffers(s: State, instances: Instances, e: DiscoveryEvent)
    requires Inv(s)
    ensures Offers(s, Published(s, instances, e), e)
    ensures Published(s, instances, e).instances == instances
  {
    hide Inv;
    TargetsOpen(s, e.instance.name);
  }

  /**
   Register, in every run: a call with a blank id, name or address, or whose context is over, does
   nothing. Any other stores the instance under its trimmed name and id, with a trimmed address and
   with its times filled in, leaves all others alone and publishes it as added.
   */
  lemma RegisterExact(actions: seq<Action>, instance: ServiceInstance, now: Time, cancelled: bool)
    ensures
      var s := MemoryRegistry.Run(actions);
      var after := Step(s, Register(instance, now, cancelled));
      var name, id, address := TrimSpace(instance.name), TrimSpace(instance.id), TrimSpace(instance.address);
      if cancelled || name == "" || id == "" || address == "" then after == s
      else
        var seen := if instance.lastSeen == 0 then now else instance.lastSeen;
        var stored := instance.(name := name, id := id, address := address, lastSeen := seen,
                                startedAt := if instance.startedAt == 0 then seen else instance.startedAt);
        && Find(after, name, id) == Some(stored) && OthersStay(s, after, name, id)
        && Offers(s, after, DiscoveryEvent(Added, stored))
  {
    hide MemoryRegistry.Run, TrimSpace, Inv, Offers;
    MemoryRegistry.RunKeeps(actions);
    var s := MemoryRegistry.Run(actions);
    if Valid(instance) && !cancelled {
      var stored := Normalized(instance, now);
      hide Published;
      PublishedOffers(s, Stored(s.instances, stored), DiscoveryEvent(Added, stored));
    }
  }

  /**
   Renew, in every run: it does nothing if the context is over or the instance is not there, and
   otherwise refreshes the time it was last seen and publishes it as updated.
   */
  lemma RenewExact(actions: seq<Action>, name: string, id: string, now: Time, cancelled: bool)
    ensures
      var s := MemoryRegistry.Run(actions);
      var after := Step(s, Renew(name, id, now, cancelled));
      if cancelled || Find(s, name, id).None? then after == s
      else
        var renewed := Find(s, name, id).value.(lastSeen := now);
        && Find(after, name, id) == Some(renewed) && OthersStay(s, after, name, id)
        && Offers(s, after, DiscoveryEvent(Updated, renewed))
  {
    hide MemoryRegistry.Run, TrimSpace, InstancesOk, WatchersOk, ChannelOk, Offers;
    MemoryRegistry.RunKeeps(actions);
    var s := MemoryRegistry.Run(actions);
    if !cancelled && id in At(s.instances, name) {
      var renewed := At(s.instances, name)[id].(lastSeen := now);
      hide Published, Inv;
      PublishedOffers(s, s.instances[name := s.instances[name][id := renewed]], DiscoveryEvent(Updated, renewed));
    }
  }

  /** Its answer names the reason; the context comes first. */
  lemma RenewAnswers(s: State, name: string, id: string, cancelled: bool)
    ensures RenewError(s.instances, name, id, cancelled)
         == if cancelled then Some(Cancelled) else if Find(s, name, id).None? then Some(NotFound) else None
    ensures DeregisterError(name, id, cancelled)
         == if cancelled then Some(Cancelled)
            else if TrimSpace(name) == "" || TrimSpace(id) == "" then Some(Blanked) else None
  {
    hide TrimSpace;
  }

  /**
   Deregister and Delete, in every run: they do nothing if the context is over or the instance is
   not there, and otherwise remove it and publish its removal with what was stored last.
   */
  lemma DeregisterExact(actions: seq<Action>, name: string, id: string, cancelled: bool)
    ensures
      var s := MemoryRegistry.Run(actions);
      var after := Step(s, Deregister(name, id, cancelled));
      var n, i := TrimSpace(name), TrimSpace(id);
      if cancelled || n == "" || i == "" || Find(s, n, i).None? then after == s
      else
        && Find(after, n, i) == None && OthersStay(s, after, n, i)
        && Offers(s, after, DiscoveryEvent(Removed, Find(s, n, i).value))
  {
    hide MemoryRegistry.Run, TrimSpace, InstancesOk, WatchersOk, ChannelOk, Offers;
    MemoryRegistry.RunKeeps(actions);
    var s := MemoryRegistry.Run(actions);
    var n, i := TrimSpace(name), TrimSpace(id);
    if !cancelled && n != "" && i != "" && i in At(s.instances, n) {
      FindNamed(s, n, i);
      DeletedFind(s.instances, n, i);
      hide Published, Inv, Deleted;
      PublishedOffers(s, Deleted(s.instances, n, i), DiscoveryEvent(Removed, At(s.instances, n)[i]));
    }
  }

  lemma DeletedFind(instances: Instances, name: string, id: string)
    requires id in At(instances, name)
    ensures Lookup(Deleted(instances, name, id), name, id) == None
    ensures forall n, i | n != name || i != id ::
      Lookup(Deleted(instances, name, id), n, i) == Lookup(instances, n, i)
  {
    var rest := instances[name] - {id};
    forall n, i | n != name || i != id
      ensures Lookup(Deleted(instances, name, id), n, i) == Lookup(instances, n, i)
    {
      if n == name && i in instances[name] {
        assert i in rest;
      }
    }
  }

  lemma FindNamed(s: State, name: string, id: string)
    requires Inv(s) && id in At(s.instances, name)
    ensures At(s.instances, name)[id].name == name
  {
    hide WatchersOk, ChannelOk, TrimSpace, Blank;
    assert EntriesOk(name, s.instances[name]);
  }

  /**
   Watch, in every run: a blank name is refused; otherwise a channel with room for eight more comes
   last, filled with an added event for each instance of the service, and nothing else changes.
   */
  lemma WatchExact(actions: seq<Action>, service: string, order: seq<string>)
    requires Enumerates(order, At(MemoryRegistry.Run(actions).instances, TrimSpace(service)))
    ensures
      var s := MemoryRegistry.Run(actions);
      var after := Step(s, Watch(service, order));
      var name := TrimSpace(service);
      if name == "" then after == s
      else
        && after.instances == s.instances && after.log == s.log
        && |after.channels| == |s.channels| + 1 && after.channels[..|s.channels|] == s.channels
        && var c := after.channels[|s.channels|];
        && c.service == name && c.until.None? && !c.closed && c.received == []
        && |c.queue| == |order| && c.capacity == |order| + 8
        && (forall i | 0 <= i < |order| :: c.queue[i] == DiscoveryEvent(Added, At(s.instances, name)[order[i]]))
        && (|s.channels| in Targets(after.watchers, name))
        && forall other | other != name :: Targets(after.watchers, other) == Targets(s.watchers, other)
  {
    hide MemoryRegistry.Run, TrimSpace;
    var s := MemoryRegistry.Run(actions);
    AnnouncedAt(order, At(s.instances, TrimSpace(service)));
  }

  lemma {:induction false} AnnouncedAt(order: seq<string>, instances: Snapshot)
    requires forall i | 0 <= i < |order| :: order[i] in instances
    ensures |Announced(order, instances)| == |order|
    ensures forall i | 0 <= i < |order| :: Announced(order, instances)[i] == DiscoveryEvent(Added, instances[order[i]])
  {
    if order != [] {
      AnnouncedAt(order[..|order| - 1], instances);
    }
  }

  /** The consumer takes the oldest event it has not taken yet, and nothing else changes. */
  lemma ReceiveExact(s: State, i: ChanId)
    requires i < |s.channels|
    ensures
      var after := Step(s, Receive(i));
      var c := s.channels[i];
      if c.queue == [] then after == s
      else after == s.(channels := s.channels[i := c.(received := c.received + [c.queue[0]], queue := c.queue[1..])])
  {
  }

  /**
   Once its context is over a watcher leaves the list, keeps what is in its queue and is told
   nothing more; and only then is its channel closed.
   */
  lemma UnwatchExact(actions: seq<Action>, i: ChanId)
    requires i < |MemoryRegistry.Run(actions).channels|
    ensures
      var s := MemoryRegistry.Run(actions);
      var c, left, closed := s.channels[i], Step(s, Unwatch(i)), Step(s, CloseChannel(i));
      && left.instances == s.instances && left.log == s.log
      && (c.until.None? ==>
            && left.channels == s.channels[i := c.(until := Some(|s.log|))]
            && i !in Targets(left.watchers, c.service)
            && forall j: ChanId | j != i && j in Targets(s.watchers, c.service) :: j in Targets(left.watchers, c.service))
      && (c.until.Some? ==> left == s)
      && closed == if c.until.Some? then s.(channels := s.channels[i := c.(closed := true)]) else s
  {
    hide MemoryRegistry.Run, InstancesOk;
    MemoryRegistry.RunKeeps(actions);
    var s := MemoryRegistry.Run(actions);
    var c := s.channels[i];
    if c.until.None? {
      var ids := Targets(s.watchers, c.service);
      assert i in ids;
      assert ListedOk(s, c.service, ids);
      WithoutIs(ids, i);
    }
  }

  lemma {:induction false} WithoutIs(ids: seq<ChanId>, i: ChanId)
    requires forall j, k | 0 <= j < k < |ids| :: ids[j] != ids[k]
    ensures forall x :: x in Without(ids, i) <==> x in ids && x != i
  {
    if ids != [] && ids[0] != i {
      WithoutIs(ids[1..], i);
    } else if ids != [] {
      assert forall x | x in ids[1..] :: x != ids[0];
    }
  }
}
