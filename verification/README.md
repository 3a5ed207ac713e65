# Registrator, modelled in Dafny

Registrator keeps a service registry in step with Docker.  This project models its decision-making
core and proves what that core keeps, over all inputs, all interleavings and all ways the registry
can fail.

| file | what it models |
|---|---|
| `Options.dfy`, `Filters.dfy` | values that may be missing; parts of lists and how often they hold an element |
| `BridgeState.dfy` | the data of the bridge and the effect of each lock region, as functions on values |
| `Bridge.dfy` | the bridge object: the lock regions as methods that update fields in place, each proved equal to its function; `add` without interleaving |
| `Lifecycle.dfy` | goroutines as a transition system with one atomic step per lock region, registry call or Docker call; the ownership invariant |
| `AddRemove.dfy` | how the uninterrupted `add` arises from its goroutine's steps, and what remove undoes of it |
| `Mutex.dfy` | the early return of `add` that keeps the mutex |
| `Expiry.dfy` | how long a dead container's record lives |
| `Reconcile.dfy` | a sync together with the goroutines it spawns |
| `KeyedRegistry.dfy` | sync against a registry that files services under keys, with and without faults |
| `CleanupSafety.dfy` | what the cleanup of a sync deregisters |
| `SyncRuns.dfy` | whole syncs, listing loop and cleanup together, in the states of runs |
| `Copying.dfy` | what a refresh copies and calls |
| `Tracking.dfy` | whether what the bridge tracks has an entry in the registry, over all interleavings |
| `Showing.dfy` | whether that entry shows the service as the bridge has it |
| `Refreshing.dfy` | refreshes that register again what was deregistered meanwhile |
| `Exchange.dfy` | why a lock region with several registry calls may be one step |
| `ServiceId.dfy` | printing service IDs and reading them back with the pattern |
| `TagParser.dfy` | comma-separated tags with escaped commas |
| `MetaData.dfy` | metadata from labels and environment, for every map iteration order |
| `ElbStatus.dfy` | the status a load balancer is registered with in Eureka |
| `ElbCache.dfy` | the cached load balancer data of a container, and the registration made from it |
| `ElbLookups.dfy` | register and heartbeat calls that share the cache, with asking, looking up and storing as separate steps |
| `TargetSearch.dfy` | the page-by-page search for a target group, and the listener search |
| `ServiceLookup.dfy` | the ECS service lookup in batches of ten |
| `UniqueId.dfy` | the identity of a Eureka registration |
| `Zookeeper.dfy` | the Zookeeper adapter over a tree of paths, one operation at a time |
| `ZkClients.dfy` | its client calls as separate steps of concurrent operations |

`dafny verify dfyconfig.toml` checks everything.

## How the source is read

- Service objects are shared by pointer and mutated, so they live in a heap and the maps hold
  references; sharing and aliasing are visible in the model.  A nil slice and an absent map key are
  both the empty sequence: the source makes slices by `append` only, so no other empty slice arises.
- The n-th registry call succeeds if `ok(n)`; theorems quantify over every `ok`.  Docker's answers are
  part of the events of a run.  Go's map iteration order is an arbitrary enumeration of the keys.
- The per-service read-write locks are only taken inside the bridge's lock region, so they order
  nothing further and are not represented.
- The `quiet` flag changes only logging in `add`; in a sync a failed first listing ends the process
  unless the flag is set, so that case is no step of a run.
- A remove or a sync is one step with all its registry calls, although the calls of `add` and of Refresh
  are made outside the mutex and can fall between them.  Such a call can be moved to just before or just
  after the region: it changes nothing the region reads, since an object that `add` registers is known to
  that `add` alone until it is appended, and `Exchange.CallsExchange` shows that the registry ends up the
  same, whatever its keys (a Refresh that registers counts as a Register).  Outcomes move with their calls; all of them are considered anyway.
- Clocks, random delays and HTTP are not represented; time appears as tick times in `Expiry` and as
  the clock of the cache.

## Where the code differs from what one may expect

- `add` returns with the mutex held when its second check finds the container tracked
  (bridge/bridge.go:154-159).  `Mutex` states exactly when that happens and what follows;
  `Reconcile.DeadListedHoldsMutex` shows that a sync that lists a dead and untracked container always
  ends there.
- `appendService` refuses a second service (bridge/bridge.go:142-145), although `add` registers all of
  them: `BridgeObject.OnlyFirstAcceptedIsTracked`.  So a remove undoes an add exactly for containers with
  at most one service: `AddRemove.AddThenRemoveRestoresIff`.
- The tag parser returns its fields in reverse order; bridge/util_test.go sorts before it compares.
- A Register that fails after an IP change is not repeated by later syncs with that IP:
  `KeyedRegistry.ReregisterUnderFaults`, `SyncRuns.SettledForGood`.
- `serviceMetaData` depends on map iteration order for some inputs; `MetaData.OrderIndependentIff` gives
  the exact condition.
- Overlapping `testHealth` calls can take a recorded UP back: `ElbStatus.OverlapLosesUp`.
- A tracked service need not be registered, even if no registry call fails: a remove, or the cleanup of a
  sync, can fall between an add's Register and its append.  `Tracking.StepStrandsIff` gives the exact
  steps, `Tracking.TrackedButNotRegistered` and `Tracking.CleanupStrandsAdd` two runs.
- The entry of a tracked service need not show that service: another add of the container can register a
  different one under its ID, and a sync passes the tracked one over (bridge/servicesync.go:41-46).
  `Showing.StepShowsIff` gives the exact steps, `Showing.OtherOneShown` a run.
- Refresh works on copies outside the mutex, so it can follow the Deregister of what it copied.  Where
  Refresh registers (zookeeper/zookeeper.go:115-117, eureka/eureka.go:199-204, etcd/etcd.go:122-124,
  skydns2/skydns2.go:63-65) the entry is back and the bridge knows nothing of it:
  `Refreshing.RefreshOrphansIff`, `Refreshing.RefreshRevives`, `Refreshing.OrphanForGood`.
- `GetAndCache` asks, looks up and stores without a lock, so overlapping lookups of a container change
  data that is already in use, and a Deregister can be undone: `ElbLookups.SettledChangesIff`,
  `ElbLookups.OverlapChangesData`, `ElbLookups.DeregisterUndone`.
- The Zookeeper adapter's client calls are not atomic together: a Register can lose the name's node to a
  Deregister, its creation then fails, and the error is shadowed and not returned
  (zookeeper/zookeeper.go:68-79): `ZkClients.EndpointLost`, `ZkClients.AllBasedIff`.
- A target group whose cache key currently holds a value of the other type is passed over by the
  search (aws/elb.go:355-363, aws/healthchecks.go:45); the model keeps that as `Unusable`.

## Model

| member | source | states |
|---|---|---|
| `Lifecycle.StepKeepsInv` | bridge/bridge.go:129-223 | every atomic step of every goroutine keeps the ownership invariant |
| `Lifecycle.RunInv` | bridge/bridge.go:129-223 | the invariant holds in every state of every run |
| `Lifecycle.OwnershipInEveryRun` | bridge/bridge.go:129-148 | under every interleaving each tracked or dead list holds exactly one service, of the container it is filed under, registered successfully before, and held by no other entry; every dead record has 0 < TTL ≤ RefreshTtl |
| `Lifecycle.RemoveShape` | bridge/bridge.go:366-392 | what remove does to both maps, and that it only appends to the registry log |
| `Mutex.MutexFreeIff` | bridge/bridge.go:154-160 | in every run the mutex is free between lock regions if and only if no add has yet found its container tracked |
| `Mutex.FrozenOnceHeld` | bridge/bridge.go:154-160 | after such an add neither map ever changes again |
| `Mutex.NoRegionEverAgain` | bridge/bridge.go:154-160 | from then on only steps between lock regions are ever taken: no add, remove, prune, refresh or sync gets through one again |
| `Lifecycle.GoesOnIff` | bridge/bridge.go:89-223 | in any state a goroutine can go on if and only if it is not done and the mutex is free or it stands between lock regions |
| `Lifecycle.AnythingMayArrive` | registrator.go:270-280 | adds, removals, prunes, refreshes and syncs can arrive in any state |
| `Lifecycle.AnyAnswers` | bridge/servicesync.go:112-130 | a sync takes any answers, but a failed first listing only when it is quiet |
| `Mutex.SequentialAddHolds` | bridge/bridge.go:129-160 | without interleaving an add keeps the mutex exactly when its container was tracked or dead |
| `Expiry.ExpiresAtCeiling` | bridge/bridge.go:89-98 | in every interleaving an untouched dead record survives every prune before the ceil(T/I)-th and is gone from then on |
| `Expiry.ExpiryWindow` | registrator.go:134-138 | with ticks one interval apart it goes more than T-I and less than T+I after the death |
| `Reconcile.SyncReconciles` | bridge/servicesync.go:112-177 | with cleanup on or off, if no container to be added is dead, then for every interleaving of the goroutines a sync spawns: none ever waits, all finish within a bound, and then the tracked containers are exactly those tracked and not found exited, or listed, new and with an accepted service |
| `Reconcile.SyncReconcilesIff` | bridge/servicesync.go:112-177 | once all those goroutines have finished, the mutex is free, and the containers reconciled, if and only if no container to be added was dead |
| `Reconcile.DeadListedHoldsMutex` | bridge/servicesync.go:131-135 | if a listed container is dead, no interleaving finishes all goroutines without the mutex being held for good |
| `Reconcile.ListedSpawns` | bridge/servicesync.go:131-141 | one add is spawned for each listed untracked container and for no other |
| `Reconcile.StaleSpawns` | bridge/servicesync.go:153-166 | one removal is spawned for each tracked container outside the non-exited listing and for no other |
| `SyncRuns.SyncSpawns` | bridge/servicesync.go:131-166 | the goroutines a sync spawns, in order: one add with its IP for each untracked entry of the listing and, only with cleanup on and the second listing answered, one removal for each tracked container missing from it, whatever the registry reports |
| `SyncRuns.SyncSpawnsCount` | bridge/servicesync.go:131-166 | in the states of runs, how often a sync spawns any given task, in terms of the listings and the tracked containers |
| `SyncRuns.NoCleanupCalls` | bridge/servicesync.go:145-175 | with cleanup off, or when the second listing or the report fails, a sync calls the registry for tracked objects only |
| `Reconcile.TraceUnderway` | bridge/bridge.go:150-223 | the progress invariant of all spawned goroutines, and the decreasing measure |
| `KeyedRegistry.SyncMovesServices` | bridge/servicesync.go:131-141 | without faults and key clashes the listing loop of a sync with an IP keeps every tracked service registered at its current key, empties the old keys, moves every tracked service of a listed container and its host IP, and makes no call when repeated |
| `SyncRuns.SyncMovesInEveryRun` | bridge/servicesync.go:112-177 | the same of a whole sync, in every state of every run, against a registry that reports nothing back, as Zookeeper and Eureka do |
| `SyncRuns.SyncWithCleanupInEveryRun` | bridge/servicesync.go:112-177 | in every state of every run, a whole sync with cleanup against a registry keyed by ID keeps every tracked service with a generated ID registered and moves it; a repeat reregisters nothing |
| `SyncRuns.PlainSyncInEveryRun` | bridge/servicesync.go:68-74 | in every state of every run, a whole sync without an IP, against a registry that reports nothing back, registers every tracked service of a listed container and loses none |
| `SyncRuns.PlainSyncWithCleanupInEveryRun` | bridge/servicesync.go:112-177 | the same of a whole sync with cleanup against a registry keyed by ID that reports what it has, for generated IDs |
| `SyncRuns.SettledForGood` | bridge/servicesync.go:41-66 | a service already on an IP is never registered again by any step of any run whose syncs all carry that IP, even if its Register failed |
| `SyncRuns.CleanupInEveryRun` | bridge/servicesync.go:77-109 | in every state of every run, cleanup against a registry keyed by ID keeps every tracked service with a generated ID registered, under any faults |
| `SyncRuns.AddThenRemoveInEveryRun` | bridge/bridge.go:366-392 | in every state of every run, adding an unknown container and removing it restores the registry if and only if the container has at most one service |
| `Tracking.StepStrandsIff` | bridge/bridge.go:207-222 | without faults, against a registry keyed by ID, a step keeps an entry for every service that is tracked, dead or about to be tracked if and only if it strands none: no remove deregisters an ID held elsewhere or by an add before its append, no cleanup sweeps one |
| `Tracking.HeldIsRegistered` | bridge/bridge.go:207-222 | in every run, as long as no step strands a service, all of them have an entry |
| `Showing.StepShowsIff` | bridge/bridge.go:207-222 | a step keeps every such entry showing the service as it is if and only if it strands none and registers no other value under an ID that is held: no add with a service that differs, no sync that moves a service whose ID a dead record or another add also holds |
| `Showing.ShownInEveryRun` | bridge/bridge.go:207-222 | in every run, as long as no step strands or contradicts a service, the registry made by the run's own calls shows every tracked service as it is, and tracked services have distinct IDs |
| `Showing.SyncInItsOwnRun` | bridge/servicesync.go:112-177 | in such a run a whole sync with cleanup keeps that up and moves the services of listed containers, with nothing assumed of the registry but that it reports what it has |
| `Showing.OtherOneShown` | bridge/servicesync.go:41-46 | a run that ends with one service tracked and another shown under its ID |
| `Refreshing.RefreshOrphansIff` | bridge/bridge.go:76-87 | where Refresh registers, a refresh makes an entry nobody holds if and only if it succeeds for a copy whose entry was gone and whose key nothing holds |
| `Refreshing.StepOnlyHeld` | bridge/bridge.go:371-386 | besides cleanup, every step deregisters only objects the bridge holds, as it holds them |
| `Refreshing.OrphanForGood` | bridge/bridge.go:76-87 | in every run such an entry stays, unless something registers under its key anew or a cleanup deregisters it |
| `Refreshing.RefreshRevives` | zookeeper/zookeeper.go:115-117 | a run in which a refresh brings back a service that was removed, with nothing held any more |
| `Exchange.CallsExchange` | bridge/bridge.go:207-222 | a registry call between the calls of a lock region leaves the registry as one just before or just after the region would |
| `Tracking.RemoveStrandsOnlyAdds` | bridge/bridge.go:366-392 | without ID clashes between containers a remove strands a service only between the Register and the append of an add of the same container |
| `Tracking.TrackedButNotRegistered` | bridge/bridge.go:216-221 | a run of two adds and a remove that ends with a tracked, unregistered service |
| `Tracking.CleanupStrandsAdd` | bridge/servicesync.go:77-109 | a run in which the cleanup of a sync does that to an add |
| `KeyedRegistry.PlainSyncRestores` | bridge/servicesync.go:68-74 | the listing loop of a sync without an IP registers every tracked service of a listed container, even one the registry had lost, and loses none |
| `KeyedRegistry.ReregisterExactly` | bridge/servicesync.go:36-75 | the calls of one reregistration and the object after it, for every IP and all outcomes; an object whose Register fails stays moved |
| `KeyedRegistry.ReregisterUnderFaults` | bridge/servicesync.go:41-66 | a registered service is registered after the move exactly unless Deregister succeeded and Register failed |
| `KeyedRegistry.SettledIsSkipped` | bridge/servicesync.go:41-46 | a service that already has the IP gets no registry call from the listing loop of a sync with that IP, registered or not |
| `CleanupSafety.CleanupCallsEach` | bridge/servicesync.go:77-109 | cleanup makes one Deregister call for each dangling external service, in order, and no other call |
| `CleanupSafety.CleanupCalls` | bridge/servicesync.go:77-109 | so each call is for a dangling report, and each dangling report has a call |
| `CleanupSafety.TrackedIsNotDangling` | bridge/servicesync.go:80-96 | a report of a tracked service with a generated ID is never taken for dangling |
| `CleanupSafety.DanglingIff` | bridge/servicesync.go:77-109 | any report is dangling if and only if its ID reads as this host and a container no tracked service of which, by container name and service name, answers for it |
| `CleanupSafety.TrackedDanglesIff` | bridge/servicesync.go:80-96 | the report of a tracked service is taken for dangling if and only if its ID reads as this host and a container name under which no tracked service has its name |
| `CleanupSafety.OverriddenIdMayDangle` | bridge/bridge.go:350-353 | so every overridden ID that reads as this host and another container leads, by one add, to a reachable state in which cleanup takes the tracked service for dangling |
| `CleanupSafety.CleanupKeepsTracked` | bridge/servicesync.go:77-109 | against a registry keyed by ID, cleanup keeps every tracked service registered, under any faults |
| `CleanupSafety.CleanupLeavesNothingDangling` | bridge/servicesync.go:168-175 | without faults the entries left are exactly those that are not dangling |
| `ServiceId.ParseIdExact` | bridge/bridge.go:19 | the lazy matcher yields host and name exactly when the ID reads so, and that reading is the only one |
| `ServiceId.IdRoundTrip` | bridge/bridge.go:261 | a generated ID reads back as its host and container name, colons in the host included |
| `ServiceId.UniqueReading` | bridge/bridge.go:334-341 | host, name, port and protocol are determined by the ID |
| `ServiceId.PortIdCollision` | bridge/util.go:187-193 | two port keys of a container share an ID exactly when they agree on the port and on being UDP |
| `ServiceId.PortIdsSpelled` | bridge/bridge.go:334-341 | the IDs in letters: host, name and port for TCP, spelled out or not, and `:udp` after that for UDP |
| `ServiceId.PortIdReads` | bridge/bridge.go:19 | the pattern reads UDP off exactly the IDs of UDP keys |
| `ServiceId.ExplicitPortIdsDistinct` | bridge/util.go:187-193 | keys that spell out tcp or udp get distinct IDs |
| `ServiceId.ImplicitTcpCollides` | bridge/util.go:191-193 | every numeric key without a protocol shares its ID with its tcp key |
| `TagParser.ScanTag` | bridge/util.go:102-116 | the loop with its in-place edits and moving offset stays in range, terminates, and yields the last tag of the specification and what is left to parse |
| `TagParser.RecParseEscapedComma` | bridge/util.go:95-117 | the whole parser terminates and returns the reverse of the non-empty fields between unescaped commas, unescaped |
| `TagParser.CombineTags` | bridge/util.go:119-125 | the concatenation of the parses of its arguments |
| `TagParser.TagRoundTrip` | bridge/util.go:93-117 | escaping, joining and parsing gives the reversed list exactly for lists without empty tags in which only the last may end in a backslash |
| `TagParser.TagsSpelled` | bridge/util.go:95-117 | in letters: a comma after a backslash stays in its tag, another one ends it, and the last tag comes first |
| `MetaData.ServiceMetaData` | bridge/util.go:137-167 | panics exactly on an entry without `=` or a write to nil labels; otherwise leaves the environment in the labels and returns the fold in some order, which gives the settings of the port when the keys are unambiguous |
| `MetaData.ClassifyIff` | bridge/util.go:148-163 | a key sets a name for the port if and only if it is `SERVICE_` and something that lowers to the port, an underscore and the name, the port being an integer; it sets a generic name if and only if it lowers to it and the name does not begin with an integer and an underscore |
| `MetaData.ResolvesSettings` | bridge/util.go:147-165 | so the result is determined key by key: the names and values of the keys qualified by the port, and elsewhere those that name no port |
| `MetaData.OtherPortIgnored` | bridge/util.go:155-157 | a key qualified by another port changes nothing, in any map and at any point of the loop |
| `MetaData.ForeignIgnored` | bridge/util.go:148-148 | nor does a key without the prefix |
| `MetaData.EnvSpelled` | bridge/util.go:141-144 | an entry of the environment splits at its first `=` |
| `MetaData.IntsAre64Bit` | bridge/util.go:154-154 | the integers are those of 64 bits |
| `MetaData.OrderIndependentIff` | bridge/util.go:147-165 | all iteration orders give the same result if and only if the keys are unambiguous |
| `MetaData.FoldResolves` | bridge/util.go:147-165 | then every name has its port-qualified value if there is one, else the generic one |
| `MetaData.ResolvesUnique` | bridge/util.go:145-166 | that determines the result |
| `MetaData.DistinctKeysUnambiguous` | bridge/util.go:149-163 | distinct lowered keys without double qualification are unambiguous |
| `MetaData.EnvTakesPrecedence` | bridge/util.go:138-144 | the environment wins over labels, its last assignment over earlier ones |
| `MetaData.MergeTwice` | bridge/util.go:138-144 | a later call on the rewritten labels sees the same settings |
| `BridgeObject.Bridge.DeleteDeadContainer` | bridge/bridge.go:129-137 | restores a dead container's services |
| `BridgeObject.Bridge.AppendService` | bridge/bridge.go:139-148 | appends unless the container has a service |
| `BridgeObject.Bridge.CheckUntracked` | bridge/bridge.go:154-160 | keeps the mutex exactly when the container is tracked |
| `BridgeObject.Bridge.Add` | bridge/bridge.go:150-223 | the whole of add, when nothing else runs |
| `BridgeObject.AllAreRegistered` | bridge/bridge.go:207-222 | add registers every service of the container, in order |
| `BridgeObject.OnlyFirstAcceptedIsTracked` | bridge/bridge.go:142-146 | of the accepted services only the first is tracked |
| `AddRemove.LoopAloneIsAddAll` | bridge/bridge.go:207-222 | the goroutine's own register and append steps, uninterrupted, amount to the loop of add |
| `AddRemove.StepsAloneIsAdd` | bridge/bridge.go:150-223 | all steps of an add, uninterrupted, amount to the whole of add |
| `AddRemove.RemoveOnExitAlone` | bridge/bridge.go:72-74 | the two steps of a removal on exit: it deregisters live and dead services if always configured, if the container is gone, or after success or a signal; otherwise it makes no call and files the services under the dead, if there are any and a TTL is set |
| `AddRemove.RemoveCalls` | bridge/bridge.go:371-386 | a deregistering remove makes one Deregister call for each live and then each dead service, in order and past failures; any other remove makes none |
| `AddRemove.AddThenRemoveRestoresIff` | bridge/bridge.go:366-392 | without faults and key clashes, adding a container and removing it leaves the registry as it was if and only if the container has at most one service |
| `BridgeState.RemovedOnSuccessOrSignal` | bridge/bridge.go:397-423 | deregistration follows always if so configured, for a container that is gone, and of the exit codes 0 to 255 exactly for success and death by a signal; a running container or a failed inspection causes none |
| `BridgeObject.Bridge.RemoveContainer` | bridge/bridge.go:366-392 | deregisters live and dead services, or files the services under the dead |
| `BridgeObject.Bridge.PruneDeadContainers` | bridge/bridge.go:89-98 | ages every record and drops the expired ones, for every iteration order |
| `BridgeObject.Bridge.GetServicesCopy` | bridge/bridge.go:101-116 | copies of exactly the tracked services, whatever order the map is ranged over in |
| `Copying.CopiesCount` | bridge/bridge.go:101-116 | every service is copied as often as it is tracked, and nothing else is |
| `Copying.CopiesAreTracked` | bridge/bridge.go:105-114 | a value is among the copies if and only if a tracked object has it |
| `Copying.RefreshAloneCalls` | bridge/bridge.go:76-87 | a refresh makes exactly one Refresh call for each copy, in order and past failures, and does nothing else |
| `Copying.RefreshReachesAll` | bridge/bridge.go:76-116 | so an uninterrupted refresh reaches every tracked service |
| `BridgeObject.Bridge.ReregisterService` | bridge/servicesync.go:36-75 | the moves and calls of one reregistration under any outcomes |
| `BridgeObject.Bridge.CleanupServices` | bridge/servicesync.go:77-109 | the nested loops deregister exactly the dangling services, in order |
| `BridgeObject.Bridge.SyncListedContainers` | bridge/servicesync.go:131-141 | the loop over the listing |
| `BridgeObject.Bridge.SpawnStaleRemovals` | bridge/servicesync.go:153-166 | the loop over the tracked containers |
| `BridgeObject.Bridge.ServiceSync` | bridge/servicesync.go:112-177 | a whole sync under any answers has the effect that the laws of `SyncRuns` and `Reconcile` are about |
| `ElbStatus.DecisionIff` | aws/healthchecks.go:97-131 | UP is sent exactly when UP is recorded, which is exactly when it was before or is justified now; otherwise what is recorded depends on the healthy targets alone |
| `ElbStatus.UpIsLostIff` | aws/healthchecks.go:81-93 | a step takes a recorded UP away exactly when it writes with a stale status and without justification |
| `ElbStatus.OverlapLosesUp` | aws/healthchecks.go:87-91 | two overlapping calls in which that happens |
| `ElbStatus.UpIsAbsorbing` | aws/healthchecks.go:81-93 | in every run, as long as no two calls of the container overlap, its recorded UP stays |
| `ElbStatus.UpIsJustified` | aws/healthchecks.go:100-128 | up to there, its UP first comes from Eureka reporting UP or from a healthy target |
| `ElbStatus.AfterUp` | aws/elb.go:537-587 | up to there, once UP is recorded its heartbeats never reregister and its registrations only send UP |
| `ElbStatus.HeartbeatAlone` | aws/elb.go:568-587 | a heartbeat without interruption: with data it beats, and reregisters after that if and only if UP was not recorded, with UP exactly when justified; without data it sends nothing |
| `ElbStatus.RegisterAlone` | aws/elb.go:537-545 | a register call without interruption: with data exactly one reregistration, with UP exactly when recorded or justified; without data nothing |
| `ElbStatus.HeartbeatRechecks` | aws/elb.go:574-582 | in every run, a heartbeat that finds UP not recorded ends only after it has reregistered |
| `ElbStatus.CallsGoOn` | aws/elb.go:537-587 | both kinds of calls can arrive in any state and every unfinished one can go on |
| `ElbStatus.StatusBoard.TestHealth` | aws/healthchecks.go:81-93 | one call that nothing overlaps: UP is sent exactly when it is recorded, which is exactly when it was or is justified, and no other container is concerned |
| `ElbCache.Cache.GetAndCacheRecord` | aws/cache.go:17-34 | a call that nothing overlaps: a live entry is returned as it is; a miss stores what the lookup finds, without expiry |
| `ElbCache.Cache.GetElbMetadata` | aws/elb.go:477-519 | a call that nothing overlaps: the new cache and the result as a function of the old cache; no cached record is altered |
| `ElbCache.Cache.ForgetContainer` | eureka/eureka.go:179-183 | drops the entry of the container and no other |
| `ElbLookups.AloneIsResolved` | aws/cache.go:17-34 | the separate steps of a call, uninterrupted, amount to that function |
| `ElbCache.WhatIsResolved` | aws/elb.go:477-519 | what that function gives, field by field: the explicit host, port and target group; else those of the live entry; else those the lookup finds, which are stored; else nothing |
| `ElbCache.FoundUntil` | aws/cache.go:17-38 | an entry without expiry is always found, one with a deadline up to it |
| `ElbLookups.SettledChangesIff` | aws/cache.go:22-33 | settled data of a container changes in a step if and only if a pending lookup of it stores other data or it is deregistered |
| `ElbLookups.KeyAppearsIff` | aws/cache.go:22-33 | a missing entry of a container comes up if and only if a lookup of it, or its explicit data, is stored |
| `ElbLookups.ResolvedOnceForAll` | aws/elb.go:203-211 | in every run in which no two lookups of a container overlap before its data is first obtained, every later call gets the same data whatever port is passed, until it is deregistered |
| `ElbLookups.OverlapChangesData` | aws/cache.go:22-28 | a run in which overlapping lookups change data that is already registered |
| `ElbLookups.DeregisterUndone` | eureka/eureka.go:179-183 | a run in which a lookup that was under way restores what Deregister dropped |
| `ElbCache.MutateRegistration` | aws/elb.go:441-475 | the field-by-field mutation |
| `ElbCache.MutatedTwice` | aws/elb.go:441-475 | mutating twice is mutating once, and the identity depends on the load balancer alone |
| `ElbCache.MutatedFields` | aws/elb.go:448-472 | host, port and addresses are the load balancer's, the lease is 35 seconds, and an ELB-only registration keeps nothing of the container while any other keeps all it had |
| `ElbCache.EndpointIsIdentity` | aws/elb.go:454-463 | the endpoint label is the identity of the registration, and the instance ID of an ELB-only one |
| `ElbCache.SharedEntryIff` | aws/elb.go:448-463 | two registrations share a Eureka entry exactly when they resolve to the same host and port |
| `UniqueId.UniqueIdInjective` | aws/elb.go:101-103 | host and port are determined by the ID, for all hosts and all integers |
| `TargetSearch.FindTargetGroup` | aws/elb.go:342-385 | the nested loops end at the page where the specification ends, with its outcome |
| `TargetSearch.EndsOnce` | aws/elb.go:342-385 | that page is unique |
| `TargetSearch.SearchResult` | aws/elb.go:364-385 | for all inputs: load balancer and group come from one group with the target, the last match at the first page end where it has a load balancer; the search succeeds exactly when there is such a page end with no failed lookup up to it, and finds no load balancer exactly when no lookup fails and there is none |
| `TargetSearch.ListenerPort` | aws/elb.go:407-419 | the port of the last listener with a default action on the group, and none exactly when there is no such listener or it has none |
| `ServiceLookup.LookupServiceName` | aws/elb.go:254-289 | every name is described once, in order, in batches of ten but for the last, which has one to ten; the first failed call gives up, and what was asked until then is as ordered and as sized |
| `ServiceLookup.ChunkedEqualsUnchunked` | aws/elb.go:254-289 | batching does not change the answer |
| `ServiceLookup.DecideUnique` | aws/elb.go:280-282 | the only service with the task definition is named |
| `ServiceLookup.DecideNone` | aws/elb.go:283-288 | none or several name nothing |
| `Zookeeper.ZkAdapter.Register` | zookeeper/zookeeper.go:49-80 | uninterrupted, adds the endpoint to whatever set the tree stood for |
| `Zookeeper.ZkAdapter.Deregister` | zookeeper/zookeeper.go:91-113 | uninterrupted, removes it, and the name's node with the last endpoint |
| `Zookeeper.TreeRefinesSet` | zookeeper/zookeeper.go:49-113 | when operations do not overlap, the tree stands for the set of endpoints whose last operation was Register |
| `Zookeeper.NodesAfterRun` | zookeeper/zookeeper.go:49-113 | then an endpoint's node exists exactly when its last operation was Register, and a name's node exactly when it has a child |
| `Zookeeper.PathsSpelled` | zookeeper/zookeeper.go:53-56 | the paths in letters, without an empty component under any root |
| `ZkClients.NodesInEveryRun` | zookeeper/zookeeper.go:49-113 | under every interleaving of client calls, an endpoint has a node exactly when the last call on that node created it under an existing name node, and a name node without a child is held by an operation under way |
| `ZkClients.MadeIffBased` | zookeeper/zookeeper.go:72-76 | in every run, the creation of an endpoint's node works if and only if the name's node exists at that call |
| `ZkClients.AllBasedIff` | zookeeper/zookeeper.go:99-110 | a step takes the name's node from under some Register if and only if it deletes a childless name node while a Register of that name is about to create its endpoint's node |
| `ZkClients.UndisturbedRefinesSet` | zookeeper/zookeeper.go:49-113 | as long as no step does that, the endpoints with a node are those whose last operation, taken at its call on that node, was Register, and with nothing under way the tree stands for that set |
| `ZkClients.EndpointLost` | zookeeper/zookeeper.go:57-79 | a run that ends with a registered endpoint without a node, for any two endpoints of one name |
| `ZkClients.AloneIsWhole` | zookeeper/zookeeper.go:49-113 | the client calls of an operation, uninterrupted, amount to the whole operation |

## Left out

- The port gathering of `add` and most of `newService`: a container comes with the drafts of its services; only the ID, the port key and the tags are modelled.
- `log.Fatal` on a failed first listing, and `main`: process exit, flags and tickers, beyond the intervals used in `Expiry`.
- The Consul, etcd and SkyDNS adapters: only the shape of their keys matters, as a parameter of `KeyedRegistry`.
- `MetaData.ServiceMetaData`: says nothing of the labels left behind by a panic, because the process is gone then.
- Unicode lower-casing: any function from strings to strings stands for it, so nothing about it is assumed.
- `Reconcile.SyncReconciles`: assumes that Docker inspects the container it was asked for, and that the sync has the bridge to itself while its goroutines run; other events are covered by the `Lifecycle` invariants.
- `ZkClients.UndisturbedRefinesSet`: names and addresses without slashes, no connection errors, and no session expiry, which removes ephemeral nodes.
- `TargetSearch.FindTargetGroup`: nil pointers inside descriptions, on which the source panics, are not represented.
- `ServiceLookup.ChunkedEqualsUnchunked`: needs an API that describes names independently; without that there is no unchunked answer to compare with.
- Which attributes switch the ELB handling on (`CheckELBFlags`, `CheckELBOnlyReg`) and the defaults of `instanceInformation`: single-branch facts.
- Eureka registrations of plain containers, the retry loop of `RegisterWithELBv2`, and AWS metadata lookup: they add no state to the machine in `ElbStatus`.
