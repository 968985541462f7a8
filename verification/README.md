# Runtime SDK: verified models

A model of the concurrent caches, protocols and compilers of the runtime SDK, with proofs of what they
guarantee over every run. Each module covers one component:

- `Registry`, `Discovery`, `DiscoveryChannel`: etcd discovery as functions: a snapshot of the instances, the
  events that change it, and two stream grammars, one over the events with a usable address, which consumers
  apply, and one over all events that go over the channel.
- `EtcdLog`, `EtcdLayout`, `EtcdChannel`: etcd as a revisioned log, and what loads, watches and resyncs make of
  it; which logs the theorems cover, and what the channel carries.
- `EtcdDiscovery`, `EtcdRun`, `EtcdSent`, `Resolver`: the watcher goroutine for arbitrary client answers, the
  same when its client is backed by one log, what it then sends, and the gRPC resolver that replays the stream.
- `ConnManager`, `Infra`: the single-flight connection cache and the lazily created MySQL pools, as
  goroutines that interleave between critical sections.
- `Lifecycle`, `DataPlane`, `DataPlaneOverlap`, `Generation`: ordered start and reverse stop with rollback, the
  rebuild of data plane generations, with and without serialization, and the lock-free counter behind their
  names.
- `Registration`, `RegistrationSafety`, `RegistrationVitals`, `RegistrationObject`: the renew loop racing with
  Stop; what it owns, what it reports about itself, and the component as an object.
- `MemoryRegistry`, `MemoryCalls`, `MemoryMirror`, `MemoryRegistration`: the in-process registry with its
  bounded, lossy watcher queues, what each call does to it, what a lossy watcher still knows, and a
  registration component on this registry.
- `PolicySource`, `Seeding`: first-writer-wins seeding of configuration and of the source policy.
- `Descriptors`, `MysqlCompile`, `Routes`, `Tokenizers`, `Metadata`: the depth-first descriptor collection,
  MySQL naming and resolution, the route conflict check, two tokenizers that agree, and the metadata
  reconciler.
- `Text`, `Wrappers`: strings, key order, decimals, and option and result types.

Components that update their fields are classes whose methods are proved against functions on values;
the theorems are about those functions. Concurrency is a state machine whose steps are the atomic steps
of the code. `dafny verify dfyconfig.toml` checks everything.

## Where the code does not do what one would expect

- An instance whose stored address becomes blank, or whose deletion arrives without its previous value,
  stays in the incremental snapshot until the next reload (`EtcdLog.BlankAddressStrands`,
  `EtcdLog.CompactedDeleteStrands`).
- A blank address that is corrected while it is watched is announced as Updated for an instance that was
  never Added, if it was there when the watch began (`EtcdLog.BlankThenGoodIsUntidy`). If it was written
  during the watch, the channel carries an Added with the blank address, which consumers skip, before the
  Updated (`EtcdChannel.BlankAddedFirst`); the grammar of what consumers see and the grammar of the channel
  fail independently (`EtcdChannel.BlankStaysBlank`).
- Discovery trims instance ids in its keys, the resolver does not (`Resolver.UntrimmedIdsDuplicate`). An
  instance removed between the resolver's refresh and its watch is never reported
  (`Resolver.ResolverMirrors` says exactly when that matters).
- Ids that differ in an edge slash share an etcd key (`EtcdLayout.SlashedIdsCollide`), and route ids that do
  make the metadata publisher rewrite one key for ever (`Metadata.SlashedIdsNeverSettle`), although the
  route check takes them for different.
- `Manager.Stop` of the data plane lets a concurrent rebuild bring up a second generation beside the first
  (`DataPlane.OverlapExactly`, and `DataPlaneOverlap.OverlapIff` for all runs). Its status says "not
  running" after a failed build beside a running generation, and "running" after a failed stop
  (`DataPlane.StatusTruth`).
- A second `Stop` of a registration does not wait for the renew loop, which can then register the stopped
  instance again (`RegistrationSafety.SecondStopResurrects`).
- A Register that fails after its write leaves an instance that no Stop removes when it was Start's
  (`RegistrationSafety.LostStartLeaves`).
- `Stop` forgets its registration before it deregisters, so an instance whose Deregister fails stays behind
  and nothing the component does later removes it (`RegistrationSafety.FailedDeregisterLeaves`).
- Two Stops in a row, of which the first gives up waiting, can make the loop count a recovery without any
  error (`RegistrationVitals.SerialStopsMiscount`) and can leave the gauge on with the component stopped
  (`RegistrationVitals.GaugeStuck`).
- The memory registry reports a missing instance on renewal as not found rather than expired, so an instance
  deleted there is never registered again by its component (`MemoryRegistration.NeverReRegistered`).
- The source policy is written without quoting, so a key with ` #` or `: ` in it does not reach the other
  processes (`PolicySource.PolicyRoundTrip`, `PolicySource.HashedKey`); only the process that creates the
  policy keeps its root (`Seeding.PoliciesAgree`).
- A stored policy that leaves the provider or the key open reads differently for different processes
  (`Seeding.StoredPolicyAgrees`).
- `Source.Normalize` is not idempotent for an etcd prefix such as `a /` (`PolicySource.NormalizeSettles`,
  `PolicySource.BlankBeforeSlash`).
- Normalizing a log field key is not idempotent for letters without a lower case: `A` followed by U+03D2
  becomes `a` followed by U+03D2, and that becomes two words (`Tokenizers.HookedKeySplits`).
- The route check rejects unrelated routes when a method contains a space: every path starts with a slash, but
  `GET /A` with `/B` and `GET` with `/A /B` share one key (`Routes.SpacedMethodRejected`).

## Model

| member | source | states |
|---|---|---|
| Text.TrimIs | runtime/registry/keyspace.go:29-36 | What trimming leaves is a part of the text that no cut character begins or ends, and all the rest is cut characters. |
| Text.LeqIs | runtime/grpcclient/resolver.go:145-150 | Sorted keys: one text comes before another if it begins it, or is smaller where they first differ. |
| Registry.PrefixDisjoint | runtime/registry/keyspace.go:29-36 | For slash-free service names a service's prefix covers exactly its own keys, never those of another service. |
| Registry.PrefixOverlap | runtime/registry/keyspace.go:29-36 | With a slash in a name the separation fails: service `a` covers a key of `a/b`. |
| Registry.KeyIs | runtime/registry/keyspace.go:24-36 | For a plain name and id the key is the prefix, the name and the id with slashes between. |
| Registry.ServiceFromKeyRoundTrip | runtime/registry/keyspace.go:34-49 | The service name is read back from every key written for a non-blank, slash-free name. |
| Registry.ServiceKeyInjective | runtime/registry/keyspace.go:34-36 | Two ids share a key exactly when they are equal up to surrounding space and edge slashes. |
| Discovery.LoadWellKeyed | runtime/discovery/etcd.go:88-110 | A load fails exactly when a value does not decode; otherwise every entry sits under its own instance key with a usable address. |
| Discovery.LoadExact | runtime/discovery/etcd.go:88-110 | A load that succeeds holds, for each key, the last usable instance that the read has for it, and no other. |
| Discovery.DiffPerKey | runtime/discovery/etcd.go:288-314 | The diff of two snapshots holds exactly one event for each key they differ on, of the right kind and value, and none for the others. |
| Discovery.DiffInOrder | runtime/discovery/etcd.go:288-314 | A diff sends its removals first and then its other events, each in ascending order of the keys. |
| Discovery.DiffReplays | runtime/discovery/etcd.go:288-314 | Replaying the diff over the old snapshot yields the new one. |
| Discovery.ReplayAt | runtime/discovery/etcd.go:316-327 | What replay leaves at a key is decided by the last visible event about that key. |
| Discovery.DiffBracketed | runtime/discovery/etcd.go:288-314 | A diff never adds a present key, nor updates or removes an absent one. |
| Discovery.BracketedIsCyclic | runtime/discovery/etcd.go:262-286 | Fitting every event with a usable address to the replayed state is the same as each key's visible events following (Added Updated* Removed)*. |
| Discovery.PrefixBracketed | runtime/discovery/etcd.go:329-336 | What was sent before a cancellation still obeys that grammar of visible events. |
| Discovery.RunReplays | runtime/discovery/etcd.go:112-169 | Over every run of watch batches, errors, failed reloads and resyncs, replaying all events sent from the empty map gives the current snapshot. |
| Discovery.RunBracketed | runtime/discovery/etcd.go:112-169 | Resyncs never break the grammar of visible events: a whole stream obeys it exactly when the increments of each round do. |
| DiscoveryChannel.OrderlyIsCyclic | runtime/discovery/etcd.go:184-198 | The grammar of the channel: every event, blank addresses included, meets a key that is announced or not as its kind demands exactly when all events about each key follow (Added Updated* Removed)*. |
| DiscoveryChannel.DiffOrderly | runtime/discovery/etcd.go:288-314 | A resync keeps the channel in that grammar if and only if, for every key it changes, the channel has announced the key just when the old snapshot holds it. |
| DiscoveryChannel.RoundOrderly | runtime/discovery/etcd.go:112-169 | One more round keeps a run's channel in the grammar if and only if its increments and then its resync do. |
| EtcdLog.ReloadFails | runtime/discovery/etcd.go:88-110 | A prefix read loads exactly when every value in scope decodes. |
| EtcdLog.ReloadIsView | runtime/discovery/etcd.go:88-110 | A reload at a revision returns the instances listed in the log at that revision, in whatever order they were read. |
| EtcdLog.IncrementalEqualsReload | runtime/discovery/etcd.go:171-201 | The snapshot fed incrementally from revision lo to hi equals the reload at hi if and only if no entry in between stranded a key; both failing families are named by the condition. |
| EtcdLog.IncrementsBracketed | runtime/discovery/etcd.go:171-201 | The visible increments of any stretch of the log obey (Added Updated* Removed)* for all keys if and only if the stretch is tidy. |
| EtcdLog.CleanIsTidy | runtime/discovery/etcd.go:171-201 | Logs of decodable values with usable addresses and no compacted deletions strand nothing and are tidy, so both theorems hold for them. |
| EtcdLog.BlankAddressStrands | runtime/discovery/etcd.go:316-327 | Counterexample: overwriting an instance with a blank address leaves it in the incremental snapshot. |
| EtcdLog.CompactedDeleteStrands | runtime/discovery/etcd.go:262-286 | Counterexample: a deletion reported without its previous value leaves the instance in the incremental snapshot. |
| EtcdLog.BlankThenGoodIsUntidy | runtime/discovery/etcd.go:262-286 | Counterexample: correcting a blank address that was there when the watch began sends just an Updated, for an instance that was never Added. |
| EtcdLog.RunMirrorsStore | runtime/discovery/etcd.go:56-169 | Over every run of legs on one log the replayed stream is the store as of the last reload; EtcdRun shows that the watcher's runs are such runs. |
| EtcdLog.RunCyclic | runtime/discovery/etcd.go:112-169 | Over every run the visible events obey the grammar for all keys if and only if the entries delivered incrementally were tidy. |
| EtcdLog.ResyncCoversGap | runtime/discovery/etcd.go:158-166 | When nothing is stranded, the resync diff after an interrupted watch holds, per key, the one net change that the entries from the interruption to the reload made. |
| EtcdLayout.LayoutExists | runtime/discovery/etcd.go:358-363 | A log has the one-to-one key layout that these theorems assume if and only if its usable writes share an etcd key just when they share an instance key. |
| EtcdLayout.RegisteredLaidOut | runtime/registry/etcd.go:37-66 | What the registry writes for services without slashes in their names, whatever the ids, has such a layout if and only if the ids that a watch sees differ in more than edge slashes. |
| EtcdLayout.RegisteredClean | runtime/registry/memory.go:254-265 | Everything the registry writes decodes and has a usable address, so without compaction gaps its logs are clean. |
| EtcdLayout.SlashedIdsCollide | runtime/registry/keyspace.go:34-36 | Counterexample to one instance key per etcd key: ids that differ in an edge slash. |
| EtcdChannel.IncrementsOrderly | runtime/discovery/etcd.go:171-201 | All events of one watch, blank addresses included, obey the grammar if and only if each announced entry finds its key announced just when the store has it. |
| EtcdChannel.RunChannelCyclic | runtime/discovery/etcd.go:112-201 | Everything that a run on one log sends obeys the grammar for all keys if and only if every leg is proper in that sense and every resync heeds what was announced. |
| EtcdChannel.CleanChannelCyclic | runtime/discovery/etcd.go:112-201 | On clean logs everything that any run sends obeys the grammar, without a condition. |
| EtcdChannel.BlankAddedFirst | runtime/discovery/etcd.go:184-198 | A blank address written and corrected during one watch: consumers see Updated before Added, the channel does not. |
| EtcdChannel.BlankStaysBlank | runtime/discovery/etcd.go:184-198 | A blank address that stays blank: consumers see nothing, the channel an Updated for an instance never Added. |
| EtcdDiscovery.StatusTells | runtime/discovery/etcd.go:76-86 | Over any sequence of marks the reported health is true exactly after a load or an event, reconnects counts the errors, and the instance count is the last one recorded. |
| EtcdDiscovery.StatusFields | runtime/discovery/etcd.go:203-259 | Over any sequence of marks: running until stopped, stale and showing the error exactly while an error is the last report, revision and count those of the last load as events moved them on. |
| EtcdDiscovery.WaitsAre | runtime/discovery/etcd.go:122-153 | A watcher that fails over and over waits 200, 400, 800, 1600 and from then on 3000 milliseconds. |
| EtcdDiscovery.ServiceWatch.Note | runtime/discovery/etcd.go:203-259 | Each mark moves the status as the specification says; the record of marks grows by it. |
| EtcdDiscovery.ServiceWatch.LoadSnapshot | runtime/discovery/etcd.go:88-110 | Returns the fold of one prefix read and its revision, or its error; a result is keyed by its own instance keys. |
| EtcdDiscovery.ServiceWatch.EmitSnapshotDiff | runtime/discovery/etcd.go:288-314 | Sends exactly the diff, or a prefix of it when the context ends. |
| EtcdDiscovery.ServiceWatch.WatchOnce | runtime/discovery/etcd.go:171-201 | Opens one watch behind the loaded revision; the snapshot becomes the replay of the events used, with a mark for each; what is sent is those events, or a prefix when cancelled; it returns why the watch ended and the newest revision seen, which never goes back. |
| EtcdDiscovery.ServiceWatch.BackOff | runtime/discovery/etcd.go:338-347 | Waits, never while the service is reported healthy, and doubles the delay up to the cap, or reports cancellation. |
| EtcdDiscovery.ServiceWatch.Start | runtime/discovery/etcd.go:56-73 | A watch that starts holds snapshot and revision of its one read and has announced that snapshot; one that fails returns the read's error and has sent nothing. |
| EtcdDiscovery.ServiceWatch.Reload | runtime/discovery/etcd.go:140-157 | Retries until a later read succeeds or the context ends, and returns exactly the first read that does; each failure is reported and followed by one wait. |
| EtcdDiscovery.ServiceWatch.Resync | runtime/discovery/etcd.go:158-168 | Sends the diff to the reloaded snapshot and adopts it with its revision, which continues the specified run by one round. |
| EtcdDiscovery.ServiceWatch.Turn | runtime/discovery/etcd.go:117-168 | A completed turn reports each event, then the end of its watch, then each failed read, and at last the load; it waits once after each failure, the first time after the end of the watch, and sets the delay back. |
| EtcdDiscovery.ServiceWatch.WatchLoop | runtime/discovery/etcd.go:112-169 | For arbitrary client answers, everything sent lies between the streams of a run without and with its last round; the rounds are the client's watches, each opened behind the revision loaded before it, and later and later reads; each round counts at least one reconnect; it ends stopped and unhealthy. |
| EtcdRun.WatchService | runtime/discovery/etcd.go:56-201 | When reads and watches are those of one log, a whole life of the watcher sends the stream of a run over that log in which every watch starts where the read before it left off; the last watch may end anywhere, and the last resync may be cut short. |
| EtcdRun.RoundsAreLegs | runtime/discovery/etcd.go:112-178 | The completed rounds of the loop are the legs of a run over the log: the watch behind revision r reports the entries after that of r. |
| EtcdSent.SentMirrorsStore | runtime/discovery/etcd.go:56-169 | Replaying what was sent up to the last complete resync gives the store at the position it was loaded from. |
| EtcdSent.SentCyclic | runtime/discovery/etcd.go:56-201 | Everything the watcher ever sends, wherever it is cut off, obeys the channel's grammar for all keys if and only if its complete legs are proper, so is the last watch as far as it got, and what was told of the last resync heeds what was announced. |
| EtcdSent.CleanSentCyclic | runtime/discovery/etcd.go:56-201 | On a clean log it always does. |
| EtcdSent.EntryCarried | runtime/discovery/etcd.go:130-201 | As long as reads see what was delivered before them, every entry between the first load and the last reload falls to exactly one leg, whose watch reports it, or whose resync sends the net change of its key; no other watch reports it. |
| Resolver.KeysAgree | runtime/grpcclient/resolver.go:177-182 | The resolver's key equals the producer's exactly when the id is blank or trimmed. |
| Resolver.ConsumedAt | runtime/grpcclient/resolver.go:128-143 | Whatever the ids, what the resolver holds under its key is decided by the last usable event about that key. |
| Resolver.ConsumesReplay | runtime/grpcclient/resolver.go:128-143 | With trimmed ids the resolver performs the producer's replay. |
| Resolver.ResolverMirrors | runtime/grpcclient/resolver.go:77-98 | Whatever map the initial refresh left, the resolver agrees with the producer on every key the stream mentions, and everywhere if and only if every key of that map is mentioned. |
| Resolver.ResolverHoldsStore | runtime/grpcclient/resolver.go:77-98 | After any run of legs on one log the resolver and the store as last reloaded agree on every mentioned key. |
| Resolver.ResolverFollowsService | runtime/grpcclient/resolver.go:77-98 | End to end: a resolver that consumed what the watcher sent up to its last resync agrees with the store on every key mentioned by then. |
| Resolver.PublishedAddresses | runtime/grpcclient/resolver.go:145-157 | A published list has one non-blank address for each entry of the map. |
| Resolver.UntrimmedIdsDuplicate | runtime/grpcclient/resolver.go:177-182 | Counterexample for untrimmed ids: two entries where the producer has one. |
| Resolver.ServiceResolver.AddressesLocked | runtime/grpcclient/resolver.go:145-157 | Returns the addresses of the map in key order. |
| Resolver.ServiceResolver.Replace | runtime/grpcclient/resolver.go:112-126 | The map holds, under the resolver's own key, the last usable entry of the list for each key and no other, and is published once. |
| Resolver.ServiceResolver.Apply | runtime/grpcclient/resolver.go:128-143 | Applies one event to the map and publishes the outcome, unless the address is blank. |
| Resolver.ServiceResolver.Run | runtime/grpcclient/resolver.go:77-98 | Consumes a stream: the map is the specified fold, and the lists published are, in order, the addresses of the map after each visible event. |
| ConnManager.OneDialPerService | runtime/grpcclient/manager.go:75-131 | Over every interleaving of callers, closes and external shutdowns at most one dial per service is in flight. |
| ConnManager.ExistingUnreachable | runtime/grpcclient/manager.go:110-123 | When a dial finishes nothing is cached for its service and the entry in `dials` is its own, so the existing-connection branch is never taken. |
| ConnManager.NoConnectionLost | runtime/grpcclient/manager.go:75-131 | Every open connection is cached or in the hands of the goroutine that dialled it. |
| ConnManager.CloseIsFinal | runtime/grpcclient/manager.go:157-171 | After Close nothing is cached, and once the dials in flight are over nothing is open. |
| ConnManager.SharedOutcome | runtime/grpcclient/manager.go:96-105 | All goroutines that joined one dial and were not cut off return the same result. |
| ConnManager.ConnHandsOut | runtime/grpcclient/manager.go:75-105 | Conn refuses exactly when closed, hands out only cached open connections, and otherwise waits for a dial of its own service. |
| ConnManager.ConnServes | runtime/grpcclient/manager.go:84-105 | In every run of an open manager Conn returns an open cached connection and changes nothing; otherwise it joins the dial of its service or starts one, and forgets a connection that was shut. |
| ConnManager.FinishBesideExisting | runtime/grpcclient/manager.go:112-114 | What the branch for an existing connection would do. |
| ConnManager.DialOpens | runtime/grpcclient/manager.go:106 | A dial opens a connection of its own, or fails with its own error. |
| ConnManager.DialDelivered | runtime/grpcclient/manager.go:108-130 | In every run a dialler that comes back connected while the manager is open has its connection cached and returns it; after Close it shuts it and says so; a failed dial returns its own error; nothing else changes. |
| ConnManager.CachedServesAll | runtime/grpcclient/manager.go:75-131 | Once a service's connection is cached, every later Conn returns that very connection until Close or an outside shutdown. |
| ConnManager.WaiterServed | runtime/grpcclient/manager.go:101-105 | A caller that waits gets the published result, or its context's error before. |
| ConnManager.CloseShutsCached | runtime/grpcclient/manager.go:157-171 | Close shuts exactly the cached connections and leaves those being dialled to their diallers. |
| ConnManager.Manager.EnterConn | runtime/grpcclient/manager.go:75-105 | The first critical section of Conn does what the state machine's step says. |
| ConnManager.Manager.FinishConn | runtime/grpcclient/manager.go:106-131 | The second critical section does what the state machine's step says and publishes the result it returns. |
| ConnManager.Manager.CloseAll | runtime/grpcclient/manager.go:157-171 | Close shuts every cached connection and empties the cache. |
| ConnManager.Manager.Health | runtime/grpcclient/manager.go:134-154 | Health fails exactly with the context's error when that has ended, else when the manager is closed, else when a cached connection is shut down, which it names. |
| Lifecycle.StartAllOrNothing | runtime/lifecycle/lifecycle.go:68-84 | Start brings up all components in order, or none; it succeeds exactly when already running or no component fails; whatever else is up is untouched. |
| Lifecycle.StopLeavesNothing | runtime/lifecycle/lifecycle.go:87-125 | Stop pairs every open start with its stop, newest first, even if components fail to stop. |
| Lifecycle.RunBrackets | runtime/lifecycle/lifecycle.go:42-125 | Over every run starts and stops are properly nested, a failed start is never stopped, names are distinct, and running means started == components, else nothing is up. |
| Lifecycle.AddExact | runtime/lifecycle/lifecycle.go:42-62 | In every run Add succeeds exactly for a new, non-empty name while nothing runs; then the component comes last, and otherwise nothing changes. |
| Lifecycle.ComponentsAreAdds | runtime/lifecycle/lifecycle.go:42-62 | In every run the components are the names that were added, in order. |
| Lifecycle.StartTrace | runtime/lifecycle/lifecycle.go:68-84 | Components are started once each, in order, up to the first that fails, which is reported, and those before it are stopped again, newest first. |
| Lifecycle.StopTrace | runtime/lifecycle/lifecycle.go:87-125 | What is up is stopped, newest first, past failures; Stop succeeds exactly if none fails. |
| Lifecycle.Runtime.Add | runtime/lifecycle/lifecycle.go:42-62 | Adds a component unless it is unnamed, known or the runtime is running. |
| Lifecycle.Runtime.Start | runtime/lifecycle/lifecycle.go:68-84 | State, journal and result of Start are those of the specification. |
| Lifecycle.Runtime.Stop | runtime/lifecycle/lifecycle.go:87-92 | State, journal and result of Stop are those of the specification. |
| Lifecycle.Runtime.StopStarted | runtime/lifecycle/lifecycle.go:117-125 | Stops in reverse order, collects failures and always clears `started`. |
| DataPlane.Handover | servicekit/dataplane.go:66-138 | Over every serialized run with arbitrary failures, only the current or the just detached generation has components up, and everything a generation does precedes anything of a later one. A component counts as down once its Stop was called, even if that failed. |
| DataPlane.RebuiltIsUp | servicekit/dataplane.go:66-123 | After a successful rebuild exactly the new generation's components are up, and the status names it. |
| DataPlane.RebuildExact | servicekit/dataplane.go:66-123 | Which failure a rebuild ends in, decided by build, old components and new components; in each case the plane held afterwards, and a status with its generation, the reason and whether it failed. |
| DataPlane.RebuildTrace | servicekit/dataplane.go:66-123 | The old components see their stop first and then the new ones their start. |
| DataPlane.StatusNamesCurrent | servicekit/dataplane.go:179-190 | In every run the status names the generation that the manager holds. |
| DataPlane.StopExact | servicekit/dataplane.go:125-138 | Stop takes the current plane off, reports that nothing runs, and then stops just that one. |
| DataPlane.StopFailsOnce | servicekit/dataplane.go:96-107 | After the old generation failed to stop, later rebuilds that build always get past the stop step. |
| DataPlane.StatusTruth | servicekit/dataplane.go:85-117 | The recorded Running flag is wrong exactly when a generation runs and either the build fails or one of its components fails to stop. |
| DataPlane.OverlapExactly | servicekit/dataplane.go:125-138 | A rebuild between Stop's unlock and its plane's stop leaves the old components up beside the new ones exactly when it succeeds; components whose Stop failed count as down. |
| DataPlane.UnserializedOverlaps | servicekit/dataplane.go:125-138 | Counterexample without serialization: two generations up at once. |
| DataPlaneOverlap.EachGeneration | servicekit/dataplane.go:66-138 | Over every run, serialized or not: each generation's starts and stops nest by themselves, and it has up what its plane counts as started, or nothing once the manager neither holds it nor still has to stop it. |
| DataPlaneOverlap.OverlapIff | servicekit/dataplane.go:66-138 | Two generations are up at once if and only if, among the current plane and those detached but not stopped yet, two have components started. |
| DataPlane.ServiceDataPlane.Start | servicekit/service_dataplane.go:106-121 | Starting a plane is starting its lifecycle. |
| DataPlane.ServiceDataPlane.Stop | servicekit/service_dataplane.go:123-145 | Stopping a plane is stopping its lifecycle. |
| DataPlane.Manager.Rebuild | servicekit/dataplane.go:66-123 | A rebuild has the specified effect, outcome and events for each of its three failure points. |
| DataPlane.Manager.TakeCurrent | servicekit/dataplane.go:125-133 | Stop's critical section takes the plane off and records the stop. |
| DataPlane.Manager.Stop | servicekit/dataplane.go:125-138 | A Stop that nothing interrupts stops the current plane, and fails exactly if a component does. |
| Generation.SequencesRise | servicekit/service_dataplane.go:71-83 | Over every interleaving and all clock readings the sequences handed out are positive and strictly increasing if and only if the counter was never advanced past the largest 64-bit integer. |
| Generation.BoundedClocksNeverWrap | servicekit/service_dataplane.go:71-83 | Clocks that stay below that limit by the number of steps never let it happen. |
| Generation.SwapFailsOnProgress | servicekit/service_dataplane.go:73-82 | A compare-and-swap fails exactly when another call got through since the load. |
| Generation.SwapHandsOut | servicekit/service_dataplane.go:71-83 | In every run a swap that gets through hands out the clock reading, or one more than the sequence before if the clock is not ahead; one that fails hands out nothing. |
| Generation.AloneGetsThrough | servicekit/service_dataplane.go:71-83 | In every run a caller that nobody gets in front of gets through with its first swap. |
| Generation.NamedIs | servicekit/service_dataplane.go:62-69 | A generation is the trimmed service name, or dataplane, a dash and the sequence in decimal. |
| Generation.ModuleRoundTrip | servicekit/dataplane.go:236-246 | The service name is read back from a generation if and only if its sequence is not negative. |
| Generation.ModuleIs | servicekit/dataplane.go:236-246 | The module of a text is what comes before its last dash, or all of it if there is none behind its first character. |
| Generation.NamedInjective | servicekit/service_dataplane.go:62-69 | A generation determines the service name and the sequence it was made from. |
| Generation.GenerationsDistinct | servicekit/service_dataplane.go:62-83 | No two generations of a process have the same name, whatever the services. |
| Generation.Sequence.CompareAndSwap | servicekit/service_dataplane.go:79-81 | Installs the value exactly if the counter still has the loaded one. |
| Generation.Sequence.Next | servicekit/service_dataplane.go:71-83 | For any rivals between load and swap the loop ends and returns the newest sequence of the run, which is its clock reading or one more than the sequence before. |
| RegistrationSafety.StopIsFinal | runtime/component/registration.go:153-179 | A Stop that takes the registration has the last word if and only if the loop is not in the middle of a renewal. |
| RegistrationSafety.WaitedStopIsFinal | runtime/component/registration.go:153-179 | A Stop whose wait completed takes the last registration obtained, unless an earlier Stop did, and no registration follows it. |
| RegistrationSafety.NothingLeftBehind | runtime/component/registration.go:79-272 | When loop and Stops are over and nothing is registered, nothing written since the last Start is left in the registry if and only if no Deregister failed on a registration that had not expired and no Register failed after its write without that instance being registered or deregistered later. |
| RegistrationSafety.LostStartLeaves | runtime/registry/etcd.go:63-74 | Counterexample: a Start whose Register fails after its write leaves the instance in the registry, and no Stop removes it. |
| RegistrationSafety.FailedForGood | runtime/component/registration.go:170-178 | A registration whose Deregister failed is never given back, whatever the component does later. |
| RegistrationSafety.FailedDeregisterLeaves | runtime/component/registration.go:170-178 | Counterexample: a Stop whose Deregister fails ends with the instance left in the registry, and nothing the component does later gives it back. |
| RegistrationSafety.IdentityKept | runtime/component/registration.go:103-133 | All registrations since the last Start are for the same instance in everything but LastSeen, with the configured generation and a start time, and each replaced one whose renewal had been answered with expired. |
| RegistrationSafety.SecondStopResurrects | runtime/component/registration.go:153-179 | Counterexample: a Stop after one that timed out returns deregistered, and the loop registers again. |
| RegistrationVitals.RecoveryAccounting | runtime/component/registration.go:212-295 | Over every run errors count exactly the failed ticks, and recoveries the renewals right after one plus the recoveries marked on a flag that a Stop had cleared; so they are exact if and only if there was no such mark. |
| RegistrationVitals.WaitingStopsCount | runtime/component/registration.go:153-179 | As long as no Stop skips the wait for a loop that is still there, the counters are exact and recoveries never exceed errors. |
| RegistrationVitals.CancelledStaysSilent | runtime/component/registration.go:204-234 | A cancelled loop reports no tick any more, however the renewal that it is in ends. |
| RegistrationVitals.SerialStopsMiscount | runtime/component/registration.go:153-179 | Counterexample with one Stop after the other: a recovery without any error. |
| RegistrationVitals.GaugeExact | runtime/component/registration.go:265-295 | Over every run the gauge ends up showing the healthy flag, however the writes under way are scheduled, if and only if no writer under way has lost the flag to another one and, when none is, the last mark did not complete after losing it. |
| RegistrationVitals.UncrossedGauge | runtime/component/registration.go:265-295 | Until loop and Stop first mark against each other, that comes down to the loop not turning both on while a Stop turns both off. |
| RegistrationVitals.WaitingStopsNeverCross | runtime/component/registration.go:153-179 | Stops that wait for the loop never mark against it. |
| RegistrationVitals.GaugeStuck | runtime/component/registration.go:279-295 | Counterexample: the component ends stopped, with the flag off and the gauge on. |
| RegistrationObject.RegistrationComponent.Stamp | runtime/component/registration.go:120-133 | Stamps time, generation and start time as registering does. |
| RegistrationObject.RegistrationComponent.Start | runtime/component/registration.go:79-101 | Start has the specified effect, with or without a factory, accepted or refused. |
| RegistrationObject.RegistrationComponent.RenewOrRegister | runtime/component/registration.go:239-272 | An uninterrupted renewal is the composition of the specified steps, replacement counter included, for every answer of the registry. |
| RegistrationObject.RegistrationComponent.Mark | runtime/component/registration.go:284-295 | Error and recovery marks change flag, gauge and counters as specified. |
| RegistrationObject.RegistrationComponent.Tick | runtime/component/registration.go:200-237 | An uninterrupted round of the loop is the composition of the specified steps. |
| RegistrationObject.RegistrationComponent.Stop | runtime/component/registration.go:153-179 | An uninterrupted Stop is the composition of the specified steps, cut short only by its context; it returns whether it gave up, failed to deregister or is done. |
| RegistrationObject.StoppedAlone | runtime/component/registration.go:153-179 | That composition forgets the registration, clears flag and gauge and deregisters, in every case but the one where the context cut it short. |
| RegistrationObject.StartExact | runtime/component/registration.go:79-133 | A Start sends the fresh instance with the current time and generation; accepted, the component holds the new registration, runs its loop and reports healthy; refused, it has just taken over the instance. |
| RegistrationObject.TickExact | runtime/component/registration.go:200-295 | An uninterrupted tick reports in flag, gauge and counters whether its renewal succeeded, and replaces the registration exactly when it has expired and Register is accepted, by one for the instance as of now. |
| RegistrationObject.BareTickFails | runtime/component/registration.go:239-248 | Without a registration a tick is an error and nothing else. |
| MemoryRegistry.NeverPanics | runtime/registry/memory.go:143-251 | In no run is an event sent on a closed channel: no listed channel is closed. |
| MemoryRegistry.WatcherStream | runtime/registry/memory.go:143-167 | Every consumer gets its whole initial snapshot and then, in order, the publications made while it was registered that were not dropped; the first eight never are. |
| MemoryRegistry.LosslessMirror | runtime/registry/memory.go:143-234 | A registered watcher that lost nothing replays to the instances the registry has. |
| MemoryMirror.LossyMirror | runtime/registry/memory.go:143-234 | Per instance: a registered watcher that lost events agrees with the registry if nothing was published about it or its last publication was kept; if that one was lost, if and only if what it got before says the same. |
| MemoryRegistry.TableExact | runtime/registry/memory.go:42-87 | Instances are keyed by their own trimmed name and id, and a service is listed exactly if it has an instance. |
| MemoryCalls.RegisterExact | runtime/registry/memory.go:42-71 | In every run: refused for blank fields or a context that is over; otherwise exactly this instance is stored, trimmed and with its times filled in, and offered as added to those who watch its service. |
| MemoryCalls.RenewExact | runtime/registry/memory.go:170-189 | In every run: refreshes LastSeen of exactly this instance and offers it as updated, or does nothing. |
| MemoryCalls.RenewAnswers | runtime/registry/memory.go:170-198 | Which error is returned; the context's comes first. |
| MemoryCalls.DeregisterExact | runtime/registry/memory.go:192-221 | In every run: removes exactly this instance and offers its removal with what was stored last, or does nothing. |
| MemoryCalls.WatchExact | runtime/registry/memory.go:143-167 | In every run: a channel with room for eight more, filled with an added event for each instance, joins the watchers of its service. |
| MemoryCalls.ReceiveExact | runtime/registry/memory.go:143-167 | The consumer takes the oldest event. |
| MemoryCalls.UnwatchExact | runtime/registry/memory.go:237-251 | A watcher that is over leaves the list and keeps what it has; only then is its channel closed. |
| MemoryRegistry.Memory.Publish | runtime/registry/memory.go:226-234 | Offers the event to every listed watcher once and drops it where the queue is full. |
| MemoryRegistry.Memory.Register | runtime/registry/memory.go:42-71 | Stores the normalized instance and publishes it, exactly for valid instances and live contexts; the handle finds it. |
| MemoryRegistry.Memory.Renew | runtime/registry/memory.go:170-189 | Refreshes and publishes an existing instance; fails with the context's error when that is over, else with not-found exactly when the instance is missing. |
| MemoryRegistry.Memory.Deregister | runtime/registry/memory.go:192-221 | Removes and publishes an existing instance, accepts a missing one, fails with the context's error or on blank names. |
| MemoryRegistry.Memory.Services | runtime/registry/memory.go:74-87 | Lists, in ascending order, exactly the services with an instance. |
| MemoryRegistry.Memory.Instance | runtime/registry/memory.go:111-132 | Finds an instance exactly if one is stored under the trimmed name and id. |
| MemoryRegistry.Memory.Watch | runtime/registry/memory.go:143-167 | Registers a channel that holds the snapshot in some order; refuses blank names. |
| MemoryRegistry.Memory.RemoveWatcher | runtime/registry/memory.go:237-251 | Takes the channel off its list and drops an empty list. |
| MemoryRegistration.StartRegisters | runtime/registry/memory.go:42-71 | A Start whose context lives, for an instance with name, id and address, has it in this registry, as of now, and runs; any other leaves the registry alone and holds nothing new. |
| MemoryRegistration.RenewRefreshes | runtime/registry/memory.go:170-189 | A renewal succeeds exactly if its context lives and the registry still has the instance, which it then refreshes. |
| MemoryRegistration.StopRemoves | runtime/registry/memory.go:192-221 | A Stop whose context lives removes the instance; otherwise its Deregister fails. |
| MemoryRegistration.NeverReRegistered | runtime/registry/memory.go:170-189 | A registration component on this registry obtains nothing after its Start in any run, so an instance that is gone stays gone until somebody else brings it. |
| MemoryRegistration.DeletedTicksFail | runtime/registry/memory.go:178-181 | Every renewal of a deleted instance is a failed tick and changes nothing in the registry. |
| MemoryRegistration.CancelledStopLeaves | runtime/registry/memory.go:192-195 | A Stop whose context is over leaves the instance in the registry and counts as a failed Deregister. |
| PolicySource.NormalizeSettles | runtime/config/source.go:281-301 | Normalizing settles provider and key; it settles the whole source unless an etcd prefix still ends in white space. |
| PolicySource.DefaultSource | runtime/config/source.go:281-301 | A source that leaves everything open reads the default key from files. |
| PolicySource.NormalFields | runtime/config/source.go:281-301 | What normalizing makes of each field, defaults included. |
| PolicySource.DecodedFields | runtime/config/source.go:208-216 | The text decides what it names, the reader's settings what it does not, except for the root, which is the text's. |
| PolicySource.BlankBeforeSlash | runtime/config/source.go:281-301 | Counterexample: the prefix `a /` is cleaned twice before it settles. |
| PolicySource.PlainPolicyAgrees | runtime/config/source.go:208-221 | A policy in plain words reads back with the same provider and key for every reader, whose result has no root. |
| PolicySource.PolicyRoundTrip | runtime/config/source.go:208-221 | The written policy reaches every reader if and only if provider and key are plain one-line scalars of printable characters. |
| PolicySource.HashedKey | runtime/config/source.go:218-221 | Counterexample: no reader gets the key `a #b` whole. |
| Seeding.ValuesNeverChange | runtime/config/etcd.go:114-134 | A present key keeps its value for the rest of the run. |
| Seeding.LoadsAgree | servicekit/convention_config_loader.go:360-387 | All successful loads of a key return the same text, the store's. |
| Seeding.SecondLookupFinds | servicekit/convention_config_loader.go:378-386 | After its own write a process always finds the key. |
| Seeding.OnlySeedersWrite | servicekit/convention_config_loader.go:360-387 | Every value comes from the initial store or from the seed of a process allowed to seed. |
| Seeding.LookupServes | servicekit/convention_config_loader.go:360-373 | A lookup that is answered serves the store's text; if the key is missing a first lookup goes on to write if it may, and every other process fails. |
| Seeding.WriteSeeds | runtime/config/etcd.go:114-134 | A write that gets through stores the process's own text exactly if the key is still missing; without its reply the process fails. |
| Seeding.AnsweredIsServed | servicekit/convention_config_loader.go:360-387 | In every run a process whose requests are answered is served the text that was there or, if it may write, its own. |
| Seeding.PoliciesAgree | runtime/config/source.go:175-206 | Processes racing to publish canonical plain policies under a key that the store lacks end up with one provider and key; only the creator keeps its root. |
| Seeding.StoredPolicyAgrees | runtime/config/source.go:181-184 | A policy that is already in the store makes all readers agree, in every run, if and only if its text names both a provider and a key. |
| Seeding.Store.PutIfAbsent | runtime/config/etcd.go:114-134 | One transaction: writes exactly if the key is absent, whatever becomes of the reply. |
| Seeding.ConventionProvider.Load | servicekit/convention_config_loader.go:360-387 | Returns the store's text if the key is there; else, if seeding is on and there is a local file, the rival's text or its own, which the store then holds, if both requests are answered; and fails in all other cases. |
| Seeding.ResolvePolicySource | runtime/config/source.go:175-206 | Decodes the policy that is there; else publishes its own and returns it, or decodes the rival's that came first; and fails when a request it needs is not answered. |
| Descriptors.DescriptorSetExact | runtime/gatewaymeta/descriptor.go:14-37 | The set holds exactly the files reachable from the roots, each once, every import before its importer, and further roots only append. |
| Descriptors.RanksExist | runtime/gatewaymeta/descriptor.go:27-37 | The traversal's termination measure exists exactly for graphs without import cycles. |
| Descriptors.Collector.Collect | runtime/gatewaymeta/descriptor.go:27-37 | The recursive traversal ends and appends what the specification says. |
| Descriptors.Collector.CollectAll | runtime/gatewaymeta/descriptor.go:14-21 | All roots are collected in turn, nil ones skipped. |
| MysqlCompile.QualifiedInjective | infra/mysql/compile.go:229-232 | Dot-free server names make server.database names injective. |
| MysqlCompile.MultiCompileExact | infra/mysql/compile.go:48-81 | Several servers: compiling succeeds exactly if every server and database is valid, the result is the configured pairs, each with its server, its qualified name and its configured database name, and their aliases, in whatever order; no name is reported duplicated. |
| MysqlCompile.SingleCompileExact | infra/mysql/compile.go:83-108 | One server: the instances are its databases by plain name, with their configured database names, without server or aliases. |
| MysqlCompile.QualifiedResolves | infra/mysql/compile.go:121-149 | A name server.database resolves to that server's database under its configured name, or its logical one if that is blank. |
| MysqlCompile.UniqueNameResolves | infra/mysql/compile.go:121-149 | A dot-free name with one owner resolves to that owner's instance. |
| MysqlCompile.SharedNameAmbiguous | infra/mysql/compile.go:134-137 | A dot-free name with several owners is ambiguous. |
| MysqlCompile.UnknownNameFails | infra/mysql/compile.go:121-149 | Any other name fails, except that "default" stands for the only instance. |
| MysqlCompile.DotFreeExact | infra/mysql/compile.go:121-149 | Exactly when a dot-free name resolves and exactly when it is ambiguous. |
| MysqlCompile.SingleResolves | infra/mysql/compile.go:121-149 | One server: exactly what each name resolves to. |
| MysqlCompile.RequestedIs | infra/mysql/compile.go:121-125 | No name or a blank one asks for default, any other is trimmed. |
| MysqlCompile.ValidKeyIs | infra/mysql/compile.go:297-309 | A key is valid if it is not empty, has no space at its ends and no dot. |
| MysqlCompile.RegisterExact | infra/mysql/compile.go:151-167 | A taken name is refused; otherwise the instance is added and its logical name becomes an alias for it, or for nothing if it was one for another. |
| MysqlCompile.NothingToResolve | infra/mysql/compile.go:121-131 | Without configuration nothing is compiled and no name resolves. |
| MysqlCompile.ErrorExplained | infra/mysql/compile.go:48-243 | A compile error tells the truth: mixed modes, a bad name, or a server it applies to. |
| MysqlCompile.CompiledConfig.Register | infra/mysql/compile.go:151-167 | Adds the instance and updates or blanks the alias, or reports the duplicate and changes nothing. |
| MysqlCompile.CompiledConfig.CompileOne | infra/mysql/compile.go:169-264 | The loop over databases has the specified result or error. |
| MysqlCompile.CompiledConfig.CompileAll | infra/mysql/compile.go:48-108 | The choice of mode and the loop over servers have the specified result or error. |
| Routes.ValidatePublishedRoutes | runtime/gatewaymeta/publication.go:320-357 | The one-pass check accepts exactly the lists without an incompatible pair; a rejection names the first offending route and an earlier one it clashes with. |
| Routes.AcceptedIsUnambiguous | runtime/gatewaymeta/publication.go:320-357 | An accepted list never has two routes for one request nor two equal ids, for all inputs. |
| Routes.OverlapMeans | runtime/gatewaymeta/publication.go:332-352 | Two routes overlap exactly if some request, by method and path, is for both, as the routes are written. |
| Routes.AcceptedServesOne | runtime/gatewaymeta/publication.go:320-357 | In an accepted list no request is for two routes and no two routes share an id. |
| Routes.AcceptanceExact | runtime/gatewaymeta/publication.go:320-357 | The check accepts what it should if and only if no two routes share a key for different methods or paths. |
| Routes.SpaceFreeExact | runtime/gatewaymeta/publication.go:320-357 | For methods without spaces the check is exact. |
| Routes.KeyInjective | runtime/gatewaymeta/metadata.go:344-350 | The "method path" key tells space-free methods and paths apart. |
| Routes.OrderIrrelevant | runtime/gatewaymeta/publication.go:320-357 | Acceptance does not depend on the order of the list. |
| Routes.SpacedMethodRejected | runtime/gatewaymeta/publication.go:332-336 | Counterexample with a space in a method: two unrelated routes with absolute paths are rejected. |
| Tokenizers.IdentifierWords | runtime/gatewaymeta/publication.go:477-520 | The loop yields the words: maximal runs of letters and digits, cut at humps, in lower case. |
| Tokenizers.NormalizeFieldKey | logger/fields.go:130-158 | For every string the result is those same words joined by underscores, or "field" when there are none. |
| Tokenizers.WordsKeepText | runtime/gatewaymeta/publication.go:477-494 | Splitting keeps every letter and digit in order and changes only their case. |
| Tokenizers.AcronymSplits | runtime/gatewaymeta/publication.go:496-512 | Capitals in a row are one word, but the last begins the next one if lower case follows, as in HTTPServer. |
| Tokenizers.HumpSplits | logger/fields.go:160-173 | A capital behind lower case begins a word, with all the capitals behind it, as in userID. |
| Tokenizers.DigitSplits | logger/fields.go:160-173 | A digit belongs to the word in front of it and a capital behind it begins a word, as in v2Api. |
| Tokenizers.SeparatorSplits | runtime/gatewaymeta/publication.go:477-494 | Anything that is neither letter nor digit separates words, however often it occurs. |
| Tokenizers.FieldKeyIdempotent | logger/fields.go:130-173 | Normalizing a key twice is normalizing it once if and only if none of its words, in lower case, has a hump inside. |
| Tokenizers.NormalKeepsWords | logger/fields.go:130-173 | The words of a normalized key are the words of the key under the same condition. |
| Tokenizers.LoweredKeysSettle | logger/fields.go:130-173 | Where every letter has a lower case both hold of every key. |
| Tokenizers.AsciiLowers | logger/fields.go:160-173 | ASCII is such an alphabet and obeys the laws these theorems assume. |
| Tokenizers.GreekStable | logger/fields.go:160-173 | ASCII with the letter U+03D2 obeys the laws, and that letter has no lower case. |
| Tokenizers.HookedKeySplits | logger/fields.go:130-173 | Counterexample: behind a capital U+03D2 joins its word, and normalizing again splits it off. |
| Infra.OnePoolPerInstance | servicekit/infra.go:60-100 | All calls for one instance return one pool, which stays open until Close gets to it. |
| Infra.NoPoolLost | servicekit/infra.go:60-100 | Every open pool is shared and not yet closed, or held by the call that opened it. |
| Infra.CloseReleasesAll | servicekit/infra.go:236-265 | Once Close is through and no call holds a pool, none is open. |
| Infra.EnterServes | servicekit/infra.go:60-79 | In every run a call is refused once closed, fails for an unknown instance, returns the shared pool, or goes on to open one. |
| Infra.OpenMakesNew | servicekit/infra.go:81-84 | Opening makes a pool of its own, which the call holds, or fails. |
| Infra.ShareServes | servicekit/infra.go:86-100 | The first call to come back shares its pool; later ones close theirs and return the shared one; after Close a call closes its pool and fails. |
| Infra.SharedServesAll | servicekit/infra.go:60-100 | Once an instance's pool is shared every later call returns that very pool until Close. |
| Infra.CloseTakesOver | servicekit/infra.go:236-265 | Close takes over exactly the shared pools, once, and then closes each. |
| Infra.InfraContainer.Enter | servicekit/infra.go:60-79 | The first critical section does what the state machine's step says. |
| Infra.InfraContainer.Share | servicekit/infra.go:86-100 | The second critical section does what the state machine's step says. |
| Infra.InfraContainer.BeginClose | servicekit/infra.go:236-260 | Close marks the container and takes over the shared pools, once. |
| Metadata.PassPublishes | servicekit/metadata.go:99-133 | A pass that gets through has published everything, whatever the store held. |
| Metadata.PassOkExactly | servicekit/metadata.go:99-133 | A pass gets through exactly if all items are valid and the store fails on none. |
| Metadata.PassStopsThere | servicekit/metadata.go:99-133 | A pass that stops leaves what a pass over the items before it leaves, and the failing item if its write was applied. |
| Metadata.ItemsAre | servicekit/metadata.go:99-121 | Each descriptor and route is published under its prefix and id, with its own data. |
| Metadata.ReconcileSettles | servicekit/metadata.go:99-133 | The next undisturbed pass over the same items, in any order, writes nothing if and only if the items agree wherever they share a key. |
| Metadata.ReconcilingAgain | servicekit/metadata.go:99-121 | So for two reconciliations in a row, each ranging over the descriptors in an order of its own. |
| Metadata.PassKeepsRight | servicekit/metadata.go:99-133 | No pass, complete or not, spoils a value that is already right. |
| Metadata.PassTouchesOnlyItems | servicekit/metadata.go:99-133 | A pass changes a key only to the value of one of its items. |
| Metadata.OrderIrrelevant | servicekit/metadata.go:99-121 | The values left behind do not depend on the order of the items. |
| Metadata.DistinctIdsConsistent | servicekit/metadata.go:245-251 | Ids that differ beyond slashes under separate prefixes give every item of a pass a key of its own, in whatever order the descriptors are taken. |
| Metadata.SlashedIdsNeverSettle | servicekit/metadata.go:245-251 | Counterexample: route ids that differ in an edge slash are rewritten for ever. |
| Metadata.MetadataPublisher.PublishAll | servicekit/metadata.go:99-121 | The loop over the items has the specified effect and stops at the first failure. |
| Metadata.MetadataPublisher.ReconcileAll | servicekit/metadata.go:99-121 | Publishes every descriptor once, in some order, and then the routes. |

## Left out

- RegistrationObject.RegistrationComponent.Start: modelled as one step that is not run beside a Stop or while
  the loop of an earlier Start still lives; overlapping Starts are not modelled.
- RegistrationSafety.NothingLeftBehind: what runs out with its lease is not told apart from what stays.
- RegistrationObject.RegistrationComponent.Mark: in the state machine the flag is written in one step and the
  gauge together with the counter of the same mark in the next; only the loop writes the counters.
- RegistrationObject.RegistrationComponent.Tick: the class method is an uninterrupted tick; the interleavings
  with Stop are the steps of the state machine.
- RegistrationObject.RegistrationComponent.Stop: uninterrupted as well; the state machine has its steps.
- EtcdDiscovery.ServiceWatch.WatchLoop: cancellation is a context that ends after a given number of
  questions, so runs are finite; timestamps of the status, and the status map's mutex and other services,
  are not modelled.
- EtcdRun.WatchService: that etcd serves reads and watches from one log, and a read all that a watch has
  delivered before it, is what these theorems start from; a watch may still end after any entry.
- Resolver.ServiceResolver.Run: ResolveNow running beside the loop, which can install an older list, is not
  modelled.
- PolicySource.PolicyRoundTrip: of YAML only one plain scalar a line is read, and any other text is an
  error; quoting, nesting and the JSON form are not modelled, so a policy written by
  hand is only covered if it has that form.
- Seeding.StoredPolicyAgrees: a stored text in any other form counts as one that cannot be read.
- Seeding.Store.PutIfAbsent: deletes and plain overwrites of seeded keys are not modelled.
- MysqlCompile.CompiledConfig.CompileOne: endpoint, pool and identifier validation are one flag per server
  or database, and connection strings and pool settings are not part of an instance.
- Routes.ValidatePublishedRoutes: methods are upper-cased as ASCII only.
- Tokenizers.NormalizeFieldKey: character classes are parameters under laws; the Unicode tables themselves
  are not modelled. Providers in PolicySource are lower-cased as ASCII only.
- Descriptors.Collector.Collect: a file is its path and its import list; converting and marshalling
  descriptors is not modelled.
- Infra.InfraContainer.Enter: configuration is compiled beforehand rather than at the first call; the
  clients other than MySQL are created under the lock and are left out.
- DataPlane.Manager.Rebuild: the ten-second limit on stopping the old plane is one of the arbitrary stop
  failures; two goroutines inside Stop's unlocked half are steps of the state machine, not of the class.
- Metadata.MetadataPublisher.ReconcileAll: one pass; the ticker, the health flags, which follow the same
  pattern as in Registration, and writers between Get and Put are not modelled.
- Etcd transactions with several entries at one revision, leases and keep-alives, and the etcd registry's
  own Register beyond what it writes: the log has one entry for each revision.
- JSON: a stored value either decodes to an instance or does not, and instances are compared as values, so
  a nil and an empty metadata map are the same.
- Nil receivers, nil clients and blank service names that a method refuses at once.
- Wall-clock time, tickers and deadlines: arbitrary steps, failures and clock readings instead.
- Logging, metrics export and tracing.
- Config composition and validation of the convention loader, gateway publication options, route ids,
  credentials, health aggregation and address probing: defaults and single checks.
