# Kernmux, modelled and proved in Dafny

Kernmux is a host manager for peer kernels. It plans which CPUs, address ranges and PCI devices an instance may take,
drives the external tool Kerf, and offers operations, events, images and consoles over a management API. This project
models its five hardest parts and proves what they keep over every run.

- **Placement and isolation** (`Snapshots`, `Placement`, `Lifecycle`, `ResourcePools`, `Rules`, `Planning`, `Kerf`, `Hosts`,
  `Lifelines`, `Commitment`). Planning is a function of an authoritative snapshot, and is also a flat list of rules, the
  first of which that is violated decides. Kerf is an environment step that reads the planned argument
  list: it keeps the memory base of an instance, replaces the resources that the options name, picks a free range inside
  one region for a new instance, and recomputes the available CPUs. A run is any sequence of such steps, of pool
  resizes, and of snapshots in which nothing moved.
- **Versions, executors and operations** (`Inventory`, `Executors`, `Operations`, `EventStreams`, `Histories`,
  `Schedulers`, `Reaping`, `StalePlans`, `Concurrency`, `Overlaps`). The inventory service, the two executors and the
  operation registry are classes proved against functions on values. Runs are arbitrary interleavings of critical
  sections, worker steps and cancellations, and `Concurrency` puts workers and the host they change into one run.
- **Console** (`ConsoleFrames`, `ConsoleStreams`, `ConsoleLeases`, `ConsoleSessions`, `ConsoleWire`,
  `ConsoleServer`, `ConsoleVisits`, `ConsoleBridge`). The browser's encoder and decoder, the daemon's reader, writer and serve loop, and the gateway's
  relay all meet in one byte format. Streams follow arbitrary finite scripts of partial, interrupted and failing I/O.
- **Image store** (`Images`, `ImageRuns`, `Catalogs`, `Sorting`). Directories are maps, the hash is an arbitrary
  function, and an import may stop after any publish step.
- **Byte-level readers** (`HttpResponses`, `Base64`, `Tokens`). The HTTP response reader over arbitrary reads, and
  bearer tokens from the browser's encoding to the gateway's decision.

Integers are unbounded in Dafny; `u64`, `u32` and byte ranges, checked, saturating and wrapping arithmetic are written
out (`Prelude`). Clocks, process results, inventory observations, directory order and read sizes are parameters,
nondeterministic choices or scripts.

## What turned out not to hold as promised

Each of these is kept as the code has it, with a case in which it fails and a condition that is met exactly when the
promise holds.

- Inventory generations saturate: two different states share the last generation once a change is seen there
  (`Inventory.SaturationExample`, `Inventory.FaithfulIff`). No run of fewer than 2^64 - 1 refreshes gets that far.
- The event sequence saturates in the same way: the ring is as promised exactly while fewer than 2^64 - 1 events were
  published (`EventStreams.SequenceExample`, `EventStreams.RunKeepsIff`).
- A failed import leaves the catalog alone unless the last directory sync fails after the record was linked
  (`ImageRuns.LateFailureExample`, `ImageRuns.FailedImportKeepsRecordsIff`).
- Importing a plain file under the OS-image kind is accepted and makes the catalog unlistable for good
  (`ImageRuns.PoisoningExample`, `ImageRuns.RunsConsistentIff`). The management API does not offer it.
- A pool resize is planned on totals and Kerf chooses the regions, so an accepted one is sure to keep memory isolated
  exactly when no instance holds any (`Hosts.TotalsDoNotPlaceRanges`, `Hosts.ResizeKeepsIsolationIff`). Runs assume
  that Kerf leaves live ranges in the pool.
- Believing the postflight snapshot alone also believes a Kerf that did nothing, exactly when an update asked for what
  was already there (`Executors.BelievedExample`, `Executors.IneffectiveRunFails`).
- The fixed-length token comparison decides equality with a token exactly when the token fits the bound
  (`Tokens.AgreeIsEqualityIff`). Every token that the configuration admits does.
- The two executors hold different locks, so a plan of one can be carried out after the other changed the host, and a
  run of both can break the CPU partition (`Overlaps.OverlapExample`). A run keeps the host isolated throughout exactly
  when every call that Kerf carries out still fits the host it reaches: new CPUs in the pool, a new size within a region
  from the old base, and assigned CPUs within a resized pool (`Concurrency.CallKeepsIff`,
  `Concurrency.InterleavingsStayIsolatedIff`). All runs of one executor do (`Concurrency.OneLaneStaysIsolated`).

## Model

| member | source | states |
|---|---|---|
| Placement.FindUnique | crates/kernmux-daemon/src/placement.rs:44-76 | a hardware ID is refused as unknown, ambiguous or offline exactly by how many host CPUs report it and whether that one is online |
| Placement.ValidatePoolCpus | crates/kernmux-daemon/src/placement.rs:44-76 | only CPUs newly entering the pool are validated, and the first bad one in request order is reported |
| Placement.PoolCpuError | crates/kernmux-daemon/src/placement.rs:44-76 | no error exactly when every newcomer is reported once and online |
| Placement.InstanceCpuError | crates/kernmux-daemon/src/placement.rs:79-99 | no error exactly when the requested CPUs come from the available ones plus the instance's own |
| Lifecycle.CheckedRegionBytes | crates/kernmux-daemon/src/lifecycle.rs:458-464 | the checked fold yields the exact total, or nothing precisely when that total exceeds 64 bits |
| Lifecycle.PeerMemoryError | crates/kernmux-daemon/src/lifecycle.rs:434-455 | the peer scan passes exactly when every other instance is known not to touch the requested range |
| Lifecycle.PeerDeviceError | crates/kernmux-daemon/src/lifecycle.rs:479-497 | passes exactly when no other instance owns a requested device |
| Lifecycle.DeviceScan | crates/kernmux-daemon/src/lifecycle.rs:515-541 | passes exactly when every requested device is managed, free or already owned, grouped, and comes with its whole IOMMU group |
| Lifecycle.RequireInstance | crates/kernmux-daemon/src/lifecycle.rs:320-338 | an instance with the ID in the required state, or a bad ID, no such instance, or one in another state, each exactly then |
| Lifecycle.BuildUpdate | crates/kernmux-daemon/src/lifecycle.rs:190-241 | validating and pushing options one by one yields the update plan, errors in the same order |
| Hosts.CreateAcceptedIff | crates/kernmux-daemon/src/lifecycle.rs:146-188 | a create is accepted exactly when its identity is new, its CPUs are free, and assigned plus requested bytes fit the pool and one region |
| Hosts.UpdateAcceptedIff | crates/kernmux-daemon/src/lifecycle.rs:190-241 | an update is accepted exactly when its CPUs, its range and its devices are allowed in terms of the snapshot alone |
| Hosts.ResizeAcceptedIff | crates/kernmux-daemon/src/resource_pool.rs:160-226 | a resize is accepted exactly when newcomers may enter and everything assigned stays within the request |
| Planning.PlanDecides | crates/kernmux-daemon/src/lifecycle.rs:97-543 | every lifecycle request is refused with the error of the first rule it violates, in one flat list over names, states, each CPU, each peer and each device, and is accepted when it violates none |
| Planning.PoolDecides | crates/kernmux-daemon/src/resource_pool.rs:160-197 | the same for pool requests: health, generation, duplicates, each newcomer, then what is assigned |
| Planning.CommandAcceptedIff | crates/kernmux-daemon/src/lifecycle.rs:97-144 | load, start, stop, unload and delete are accepted exactly at the current generation, for a valid ID, with the first such instance ready, loaded, active, loaded or ready, and a load with its paths given |
| Planning.CommandStateRefusedIff | crates/kernmux-daemon/src/lifecycle.rs:320-338 | in any other state, exactly, the answer names the state needed and the state found |
| Planning.NameIff | crates/kernmux-daemon/src/lifecycle.rs:349-362 | a name is a letter or digit followed by at most 62 letters, digits, dots, underscores and dashes |
| Planning.CanonicalPciIdIff | crates/kernmux-daemon/src/lifecycle.rs:545-555 | a PCI ID is canonical exactly when it spells domain, bus, device and function in fixed-width lower-case hexadecimal |
| Planning.EntryErrorIff | crates/kernmux-daemon/src/placement.rs:44-76 | a hardware ID is unknown, ambiguous or offline exactly when no CPU, two CPUs, or one offline CPU reports it |
| Planning.InSomeRegionIff | crates/kernmux-daemon/src/lifecycle.rs:408-433 | a range counts as inside the pool exactly when one region holds all of it without wrapping |
| Planning.MissingAre | crates/kernmux-daemon/src/lifecycle.rs:515-541 | the group members that a refusal names are exactly those left out of the request or not managed |
| Planning.PlannedPool | crates/kernmux-daemon/src/resource_pool.rs:199-226 | an accepted pool command lists the requested CPUs once each in ascending order and the bytes, expects exactly them, and mutates |
| Planning.PlannedCommand | crates/kernmux-daemon/src/lifecycle.rs:97-310 | an accepted command is its verb, the instance addressed and exactly the requested options, each once, with the result to expect, and it mutates unless it is a dry run |
| Kerf.UpdateArgumentsCarryTheRequest | crates/kernmux-daemon/src/lifecycle.rs:203-226 | the options read back from an update command are the request, none lost, swapped or invented |
| Kerf.CreateArguments | crates/kernmux-daemon/src/lifecycle.rs:170-178 | the create command names the requested instance, CPUs and bytes |
| Kerf.PlannedVerb | crates/kernmux-daemon/src/lifecycle.rs:97-144 | every accepted plan carries the command of its request and addresses its instance |
| Kerf.ResizeArguments | crates/kernmux-daemon/src/resource_pool.rs:199-226 | the pool command carries the requested CPU set and bytes |
| ResourcePools.PlannedCpusAreTheRequest | crates/kernmux-daemon/src/resource_pool.rs:173-226 | the planned CPUs are the request sorted without duplicates and contain every assigned CPU |
| ResourcePools.PoolTransition | crates/kernmux-daemon/src/resource_pool.rs:304-326 | returned and added CPUs account exactly for the observed change of the pool |
| Hosts.InvariantMeans | crates/kernmux-daemon/src/lifecycle.rs:373-543 | the per-instance and per-pair invariant is the same as isolation, CPU partition and IOMMU closure together |
| Hosts.CreateKeeps | crates/kernmux-daemon/src/lifecycle.rs:146-188 | an accepted and applied create keeps isolation, the CPU partition and IOMMU closure |
| Hosts.UpdateApart | crates/kernmux-daemon/src/lifecycle.rs:408-456 | after an unchecked shrink or a checked growth the instance still shares no address with a peer |
| Hosts.UpdatePlaced | crates/kernmux-daemon/src/lifecycle.rs:408-456 | after a shrink or a growth the range still lies in one region with no address wrap |
| Hosts.UpdateGroupClosed | crates/kernmux-daemon/src/lifecycle.rs:466-543 | after an accepted device update the instance owns whole IOMMU groups |
| Hosts.UpdateKeeps | crates/kernmux-daemon/src/lifecycle.rs:190-241 | an accepted and applied update keeps isolation, the CPU partition and IOMMU closure |
| Hosts.ResizeKeeps | crates/kernmux-daemon/src/resource_pool.rs:160-226 | an accepted and applied resize keeps all three, given that live ranges stay in the pool |
| Hosts.ResizeKeepsCpusIff | crates/kernmux-daemon/src/resource_pool.rs:173-197 | a resize conserves CPUs exactly when it contains every assigned CPU |
| Hosts.ResizeKeepsIsolationIff | crates/kernmux-daemon/src/resource_pool.rs:160-226 | an accepted resize keeps memory isolated for every choice of regions exactly when no instance holds memory |
| Hosts.TotalsDoNotPlaceRanges | crates/kernmux-daemon/src/resource_pool.rs:190-197 | a concrete accepted resize that fits the totals and leaves a live range outside the pool |
| Hosts.RunsStayIsolated | crates/kernmux-daemon/src/lifecycle.rs:97-543 | in every state of every run identities are unique, ranges lie in regions and are disjoint, pool CPUs are the disjoint union of available and assigned ones, and device sets are disjoint and group-closed |
| Lifelines.RunsFollowLifecycle | crates/kernmux-daemon/src/lifecycle.rs:97-310 | in every run every instance goes from ready to loaded to active and back one arrow at a time; it is created ready, changes resources only while ready, and is deleted only when ready |
| Lifelines.RunningIsLeftAlone | crates/kernmux-daemon/src/lifecycle.rs:97-310 | a running instance keeps its identity and resources over every step, and only a stop ends its running |
| Hosts.RunsNeverSplitGroups | crates/kernmux-daemon/src/lifecycle.rs:466-543 | in every state of every run no two instances own members of one IOMMU group |
| Commitment.NeverOverCommitted | crates/kernmux-daemon/src/lifecycle.rs:373-456 | on an isolated host the sum of instance memory is at most the sum of the regions, though growth never checks a total |
| Commitment.RunsNeverOverCommit | crates/kernmux-daemon/src/lifecycle.rs:373-406 | along every run the saturating subtraction never clamps, the unchecked total never wraps, and create decides on the true free memory |
| Inventory.CollectLookup | crates/kernmux-daemon/src/inventory.rs:518-562 | collecting devices through an ordered map loses no device, keeps the last entry per PCI ID and yields strict order |
| Inventory.AssembledDevicesAreManaged | crates/kernmux-daemon/src/inventory.rs:518-590 | every device that the pool or an instance reports is managed in the assembled snapshot |
| Inventory.GenerationRelevantState | crates/kernmux-daemon/src/inventory.rs:431-437 | the in-place normalisation clears NUMA free memory everywhere and nothing else |
| Inventory.RelevantIff | crates/kernmux-daemon/src/inventory.rs:431-437 | two snapshots count as equal exactly when they agree on everything but the free memory of NUMA nodes |
| Inventory.AssembledShows | crates/kernmux-daemon/src/inventory.rs:439-624 | an assembled snapshot is healthy and shows each instance, state, resource, device, CPU, capability and total as observed, stamped with its generation |
| Inventory.RetainedIs | crates/kernmux-daemon/src/inventory.rs:388-422 | after any refreshes the retained snapshot shows the last successful observation, under a generation that counts the changes seen, no more and no fewer |
| Inventory.ReturnedIs | crates/kernmux-daemon/src/inventory.rs:388-422 | a refresh returns nothing before the first success, the observation as a healthy snapshot when it succeeds, and the last success marked indeterminate with its diagnostic when it fails |
| Inventory.InventoryService.Refresh | crates/kernmux-daemon/src/inventory.rs:388-422 | the retained and the returned snapshot are those of the refresh specification, for successes and failures |
| Inventory.ReturnedIsCurrent | crates/kernmux-daemon/src/inventory.rs:388-422 | what a refresh returns stands for what it retains, also when the source failed |
| Inventory.GenerationsStep | crates/kernmux-daemon/src/inventory.rs:388-422 | along any run returned generations never fall and rise by at most one |
| Inventory.FaithfulIff | crates/kernmux-daemon/src/inventory.rs:388-437 | equal generations mean equal state, up to free memory, health and diagnostics, exactly when no change is seen at the last generation |
| Inventory.FaithfulForPracticalRuns | crates/kernmux-daemon/src/inventory.rs:388-437 | every run of fewer than 2^64 - 1 refreshes has faithful generations |
| Inventory.SaturationExample | crates/kernmux-daemon/src/inventory.rs:388-422 | a run of changes that returns two different states under the last generation |
| Inventory.PlanReadsEssence | crates/kernmux-daemon/src/lifecycle.rs:97-144 | planning depends on nothing outside what a generation stands for |
| Inventory.EqualGenerationsPlanAlike | crates/kernmux-daemon/src/lifecycle.rs:97-144 | on every run with faithful generations a request gets the same answer on any two returned snapshots of equal generation |
| Executors.Reconciled | crates/kernmux-daemon/src/lifecycle_executor.rs:354-408 | a postflight that is not healthy is indeterminate, exactly; a healthy one succeeded exactly when it shows the planned result, or for a dry run when the process exited well, and otherwise failed |
| Executors.LifecycleExecutor.Execute | crates/kernmux-daemon/src/lifecycle_executor.rs:314-332 | inventory state, recorded Kerf calls and result are those of one guarded execution, with any refreshes of the shared inventory by others while Kerf runs |
| Executors.CallsAreGuarded | crates/kernmux-daemon/src/lifecycle_executor.rs:314-332 | Kerf is called at most once, only from a healthy snapshot of the requested generation, and an error means it was not called |
| Executors.OutcomesRestOnObservations | crates/kernmux-daemon/src/lifecycle_executor.rs:314-332 | Kerf is called only after a successful preflight observation, an outcome is indeterminate exactly when the postflight observation failed, and it succeeded exactly when that observation shows the result |
| Executors.ObservedIff | crates/kernmux-daemon/src/lifecycle_executor.rs:410-475 | what postflight looks for is what the request was for: identity, name, state, CPUs, bytes and devices |
| Executors.FaithfulRunSucceeds | crates/kernmux-daemon/src/lifecycle_executor.rs:410-475 | a faithful run of any planned command is recognised as success, whatever its exit status |
| Executors.IneffectiveRunFails | crates/kernmux-daemon/src/lifecycle_executor.rs:354-475 | a Kerf that changed nothing is believed exactly when an update asked for what was there already |
| Executors.BelievedExample | crates/kernmux-daemon/src/lifecycle_executor.rs:354-408 | a planned update to the CPUs an instance has already, by a Kerf that failed and did nothing, counts as success |
| Executors.ResourcePoolExecutor.Execute | crates/kernmux-daemon/src/resource_pool.rs:98-113 | inventory state, recorded Kerf calls and result are those of one guarded pool execution, with any refreshes by others while Kerf runs |
| Executors.PoolCallsAreGuarded | crates/kernmux-daemon/src/resource_pool.rs:98-113 | Kerf is called at most once, only from a healthy snapshot of the requested generation, and an error means it was not called |
| Executors.PoolCallsNeedObservations | crates/kernmux-daemon/src/resource_pool.rs:98-113 | without a preflight observation there is no call, and each way of having none has its own error |
| Executors.PoolOutcomesRestOnObservations | crates/kernmux-daemon/src/resource_pool.rs:98-113 | a pool outcome is indeterminate exactly when the postflight observation failed, and succeeded exactly when that observation shows the request |
| Executors.PoolOutcomeIff | crates/kernmux-daemon/src/resource_pool.rs:228-302 | each outcome and each recovery advice has its own condition on the snapshots |
| Executors.PoolExpectationIff | crates/kernmux-daemon/src/resource_pool.rs:199-302 | what a pool plan expects to observe is what its reconciliation looks for |
| Executors.ReachedSucceeds | crates/kernmux-daemon/src/resource_pool.rs:228-302 | a pool request succeeds exactly when the healthy postflight pool has the requested CPUs and bytes |
| Executors.FaithfulResizeSucceeds | crates/kernmux-daemon/src/resource_pool.rs:228-302 | a faithful resize is recognised as success with no recovery action |
| Executors.RestartAdvisedIff | crates/kernmux-daemon/src/resource_pool.rs:257-268 | a host restart is advised exactly when a full release returned every CPU, changed something and left memory behind |
| Operations.OperationRegistry.New | crates/kernmux-daemon/src/operations.rs:71-92 | a zero capacity is refused, and a new registry is empty with its counters at one |
| Operations.OperationRegistry.Create | crates/kernmux-daemon/src/operations.rs:96-121 | creation evicts the oldest operation when full, queues the new one and publishes one event |
| Operations.OperationRegistry.Update | crates/kernmux-daemon/src/operations.rs:230-247 | a change either replaces one operation and publishes one event, or is rejected |
| Operations.OperationRegistry.PublishOperationEvent | crates/kernmux-daemon/src/operations.rs:249-267 | the event ring, sequence and generation advance as specified |
| Operations.Changed | crates/kernmux-daemon/src/operations.rs:230-247 | a rejected change leaves the whole registry as it was |
| Operations.EventSubscription.NextBatch | crates/kernmux-daemon/src/operations.rs:287-302 | the batch is the one after the cursor, and the cursor moves to its last event |
| EventStreams.PublishKeepsRingIff | crates/kernmux-daemon/src/operations.rs:249-267 | the ring holds the newest consecutively numbered events, exactly while the sequence can advance |
| EventStreams.BatchIsUnread | crates/kernmux-daemon/src/operations.rs:311-342 | a batch is the whole unread log, or a marker for what was lost followed by everything retained |
| EventStreams.BatchContiguous | crates/kernmux-api/src/v1.rs:756-759 | successive events of a batch, the marker included, are contiguous and do not move the generation back |
| EventStreams.RunKeepsIff | crates/kernmux-daemon/src/operations.rs:96-342 | in every reachable state retained sequences are consecutive up to the latest and as many as the capacity allows, exactly while fewer than 2^64 - 1 events were published, and until then the stream is explained |
| EventStreams.LogTells | crates/kernmux-daemon/src/operations.rs:249-267 | over every run there is one event per operation accepted or changed, about its first resource, and its generation is the highest that any operation up to it observed or expected |
| EventStreams.SequenceExample | crates/kernmux-daemon/src/operations.rs:249-267 | a run of submissions in which two events carry the last sequence number |
| EventStreams.StreamIncreases | crates/kernmux-daemon/src/operations.rs:287-302 | a subscription never hands out a position twice |
| EventStreams.ExactlyOnceOrAnnounced | crates/kernmux-daemon/src/operations.rs:249-342 | for every interleaving each event passed by the cursor was delivered exactly once or lies in exactly one announced gap |
| EventStreams.ReadCatchesUp | crates/kernmux-daemon/src/operations.rs:287-342 | a read reaches the end of the log and overflows exactly when more than the capacity was published since the cursor |
| Histories.MutateEvolves | crates/kernmux-daemon/src/operations.rs:128-191 | an accepted change keeps progress within 0 to 100 and rising, terminal states final, completion time set exactly in terminal states |
| Histories.ChangedView | crates/kernmux-daemon/src/operations.rs:230-247 | a change is visible on the addressed operation exactly as the transition rules say |
| Histories.ChangeAcceptedIff | crates/kernmux-daemon/src/operations.rs:128-191 | a change is accepted exactly when it fits a retained operation, and each refusal has its own condition |
| Histories.ChangeReads | crates/kernmux-daemon/src/operations.rs:128-191 | after an accepted change the operation reads as started, at the progress given, or finished with the state, generation, error and time given |
| Histories.FinishLasts | crates/kernmux-daemon/src/operations.rs:170-191 | a finished operation reads as it was finished over every continuation of the run, for as long as it is retained |
| Histories.ChangedEvolves | crates/kernmux-daemon/src/operations.rs:230-247 | a change touches the addressed operation only |
| Histories.RetainedIff | crates/kernmux-daemon/src/operations.rs:195-201 | an operation is retrievable exactly while its identifier is among the newest ones |
| Histories.OperationsEvolve | crates/kernmux-daemon/src/operations.rs:96-191 | between any two moments of any run that does not use up the identifiers a retained operation keeps its request, never leaves a terminal state and never loses progress |
| Histories.NextIdentifier | crates/kernmux-daemon/src/operations.rs:96-121 | over any run the next identifier is one more than the number of submissions, until the counter stays at its last value |
| Histories.RetrievableUntilEvicted | crates/kernmux-daemon/src/operations.rs:96-121 | over any run an operation is retrievable exactly while fewer than the capacity were submitted after it |
| Schedulers.AcceptedIsCurrent | crates/kernmux-daemon/src/scheduler.rs:278-333 | a job that passes preflight saw a healthy snapshot of its own generation |
| Schedulers.TaskStepKeeps | crates/kernmux-daemon/src/scheduler.rs:278-379 | no boundary of a task, cancelled or panicking, makes its result claim more than it did |
| Schedulers.ExecutionIsThreeSteps | crates/kernmux-daemon/src/lifecycle_executor.rs:314-332 | what the executor's execute does is what a worker's preflight, call and postflight do, with the same result and number of calls |
| Schedulers.PoolExecutionIsThreeSteps | crates/kernmux-daemon/src/resource_pool.rs:98-113 | the same for the pool executor |
| Schedulers.FinishIsAccepted | crates/kernmux-daemon/src/scheduler.rs:158-208 | every result of a worker is accepted by finish while the operation is retained |
| Schedulers.RunKeeps | crates/kernmux-daemon/src/scheduler.rs:158-412 | every interleaving of workers, cancellations, failed spawns and panics that does not use up the identifiers keeps registry, phases and locks in step |
| Schedulers.ExecutorsAreExclusive | crates/kernmux-daemon/src/scheduler.rs:278-333 | no two workers are ever inside the same executor |
| Schedulers.RegistryIsTruthful | crates/kernmux-daemon/src/scheduler.rs:158-379 | in every reachable state a done operation is indeterminate, succeeded or failed by its postflight snapshot alone, after one call planned on a healthy snapshot of its generation, and carries that snapshot's generation and error; without one it was cancelled on request before any call, or failed with an error |
| Schedulers.JobOutcomeIff | crates/kernmux-daemon/src/scheduler.rs:83-113 | the outcome of either kind of job in terms of its postflight snapshot alone |
| Schedulers.CancelIsHonoured | crates/kernmux-daemon/src/scheduler.rs:278-333 | a worker cancelled before it starts executing never calls Kerf, whatever happens afterwards, and ends as cancelled unless it panics |
| Schedulers.PanicIsFailure | crates/kernmux-daemon/src/scheduler.rs:173-184 | a worker that panics fails with an internal error and gives its lock back |
| Schedulers.SpawnFailureIsShown | crates/kernmux-daemon/src/scheduler.rs:185-197 | an operation whose worker cannot be started is shown as failed with an internal error that may be retried |
| Schedulers.ApproachReaches | crates/kernmux-daemon/src/scheduler.rs:278-333 | a worker that nobody cancels, whose lock is free and whose operation is retained, reaches its Kerf call with the accepted plan, touching no other worker |
| Concurrency.RunsOnEqual | crates/kernmux-daemon/src/lifecycle_executor.rs:314-332 | a planned command runs on the host as it would on any snapshot that shows the host |
| StalePlans.LifecycleFitsIff | crates/kernmux-daemon/src/lifecycle.rs:97-241 | a lifecycle command planned while the pool was another one keeps the host sound exactly when its CPUs are still in the pool and its new size still within a region; every other command always does |
| StalePlans.ResizeFitsIff | crates/kernmux-daemon/src/resource_pool.rs:160-226 | a pool command planned on any snapshot keeps the host sound exactly when it contains the CPUs assigned by the time it runs |
| Concurrency.StepKeepsLocked | crates/kernmux-daemon/src/scheduler.rs:278-333 | the lock of the lifecycle executor keeps the instances of a plan in hand as they were planned on, through every step of either executor |
| Concurrency.CallKeepsIff | crates/kernmux-daemon/src/scheduler.rs:278-333 | a call that Kerf carries out keeps the host isolated exactly when its request still fits the host, which a caller can see from the request and the host |
| Concurrency.InterleavingsStayIsolatedIff | crates/kernmux-daemon/src/scheduler.rs:278-333 | over every interleaving of workers of both executors, every world is isolated, partitioned and group-closed exactly when every call carried out still fitted |
| Concurrency.OneLaneStaysIsolated | crates/kernmux-daemon/src/scheduler.rs:278-333 | the lock of one executor is enough: any number of interleaved workers of it keeps the shared host isolated |
| Overlaps.OverlapExample | crates/kernmux-daemon/src/host_api.rs:177-178 | a run of a pool worker and a lifecycle worker, planned on the same snapshot, that ends with the CPU partition broken by a call that no longer fits |
| Reaping.ReapFinished | crates/kernmux-daemon/src/scheduler.rs:252-266 | swap-removal drops exactly the finished workers and keeps every other one |
| ConsoleFrames.EncodeFrame | web/src/console-protocol.ts:32-39 | a frame is refused exactly above 64 KiB, and otherwise is kind, big-endian length, payload |
| ConsoleFrames.PrefixFree | web/src/console-protocol.ts:32-39 | the bytes of a frame determine it, whatever follows |
| ConsoleFrames.DecodeAppend | web/src/console-protocol.ts:44-63 | decoding may stop anywhere and continue with what was left over |
| ConsoleFrames.ConsoleFrameDecoder.Push | web/src/console-protocol.ts:44-63 | one push yields the frames and the remainder of buffer plus chunk, and an error leaves the buffer alone |
| ConsoleFrames.BufferBoundIsNeverHit | crates/kernmux-gateway/src/browser_console.rs:165-202 | after any push at most 65540 bytes are buffered, so no relayed chunk trips the buffer guard |
| ConsoleFrames.FeedIsDecode | web/src/console-protocol.ts:44-63 | pushing chunk after chunk decodes the concatenated stream, for every way of cutting it |
| ConsoleFrames.ChunkedRoundTrip | web/src/console-protocol.ts:32-63 | every list of frames survives encoding and any chunking, with an empty buffer at the end |
| ConsoleStreams.WriteAllRetry | crates/kernmux-daemon/src/console.rs:593-603 | all bytes are written in order exactly when the stream takes them in the end; otherwise a prefix is, and the error is the one the stream refused with |
| ConsoleStreams.ReadExact | crates/kernmux-daemon/src/console.rs:520-547 | what arrives before the stream stops decides alone: the bytes asked for, or all there are and the error that stopped them |
| ConsoleStreams.WriteSelector | crates/kernmux-daemon/src/console.rs:577-591 | it succeeds exactly when one write takes the whole selector; otherwise the error says that the stream refused or took only part, which is all the device got |
| ConsoleWire.WriteProtocolFrame | crates/kernmux-daemon/src/console.rs:549-558 | the daemon writes the browser's format, cut short only by a stream that refuses, and rejects exactly payloads whose length does not fit |
| ConsoleWire.ReadProtocolFrame | crates/kernmux-daemon/src/console.rs:520-547 | the result is decided by the arriving bytes however they are cut or interrupted; exactly the returned frame is consumed, and on an error exactly the header of an oversized frame or all of an incomplete one |
| ConsoleWire.FragmentOfFrame | crates/kernmux-daemon/src/console.rs:520-547 | what a broken-off read consumed is the beginning of some frame |
| ConsoleWire.DecodersAgree | crates/kernmux-daemon/src/console.rs:520-547 | on every byte string the daemon's reader and the browser's decoder find the same frames and agree on what is wrong |
| ConsoleLeases.RunsAreExclusive | crates/kernmux-daemon/src/console.rs:269-330 | over every run the attached set is the set of leases held and no instance has two |
| ConsoleLeases.AcquiredIff | crates/kernmux-daemon/src/console.rs:303-320 | over every run an attempt gets a lease exactly when the instance is valid and nobody holds it |
| ConsoleLeases.LeaseGoesBack | crates/kernmux-daemon/src/console.rs:322-330 | over every run, however a session ends, its lease is free again |
| ConsoleLeases.FirstReasonKept | crates/kernmux-daemon/src/console.rs:440-448 | whatever happens later, a session keeps its instance and its first close reason, and no lease comes back to it |
| ConsoleLeases.DropAfterCloseIsHarmless | crates/kernmux-daemon/src/console.rs:322-330 | dropping a closed session in any reachable state releases nobody's lease |
| ConsoleLeases.EventsAreLocal | crates/kernmux-daemon/src/console.rs:303-330 | closing, failing and dropping a session change that session and its own lease only |
| ConsoleSessions.ConsoleSession.Close | crates/kernmux-daemon/src/console.rs:440-448 | the first reason wins, and the lease goes back as the model of all runs says |
| ConsoleSessions.ConsoleSession.Drop | crates/kernmux-daemon/src/console.rs:322-330 | dropping releases a lease that is still held, and only that |
| ConsoleSessions.ConsoleSession.ReadFrame | crates/kernmux-daemon/src/console.rs:356-387 | data is reported exactly while some arrives, bounded and unaltered; a device that blocks is pending, and end or failure closes with the matching reason |
| ConsoleSessions.ConsoleSession.WriteFrame | crates/kernmux-daemon/src/console.rs:395-413 | oversized and late writes touch nothing; any other write succeeds whole exactly when the device takes it, and otherwise closes with the reason of the device's own error |
| ConsoleSessions.ErrorsMean | crates/kernmux-daemon/src/console.rs:108-120 | which device errors mean a missing device, a stopped instance or a failed transport |
| ConsoleSessions.SelectorNames | crates/kernmux-daemon/src/console.rs:278-279 | the selector reads back as the instance number and ends at its only newline |
| ConsoleSessions.Attach | crates/kernmux-daemon/src/console.rs:269-295 | a session is granted exactly for a valid and free instance whose device takes the whole selector; every failure has its own cause, leaves the leases as they were and sends no more than the selector's beginning |
| ConsoleServer.Respond | crates/kernmux-daemon/src/console.rs:478-515 | what to reply to each request: data within the frame limit while the device has some, pending, closed or its own error otherwise; an acknowledged input was written whole |
| ConsoleServer.HandleRequest | crates/kernmux-daemon/src/console.rs:478-515 | each understood request gets one reply that reports the session and what the device had, moves exactly the bytes it claims within the frame limit, and an error has its cause in the device, the limit, the session or the client |
| ConsoleServer.ServeFramedConsole | crates/kernmux-daemon/src/console.rs:462-518 | the bytes on all four sides are exactly the completed exchanges plus the one request in flight and prefixes of what it set off, every output reply within the frame limit; a clean end closed the session or heard the client out, with the reason that belongs to it, and every error is explained at the place in the client's stream where it happened |
| ConsoleVisits.ServeInstance | crates/kernmux-daemon/src/console.rs:269-518 | a visit attaches exactly for a valid and free instance whose device takes the selector, and each other outcome has its own cause; then the device receives the selector and what the run sent it, the greeting and the run account for every byte of the client's stream, every error is explained, and the lease is back however it ends |
| ConsoleVisits.DaemonSeesRequests | crates/kernmux-daemon/src/console.rs:520-547 | the requests handled are the first frames that the browser sent, in order and unaltered |
| ConsoleVisits.DaemonHearsAll | crates/kernmux-daemon/src/console.rs:520-547 | when everything that arrived was consumed, the requests handled are all the frames sent |
| ConsoleVisits.DeviceGetsWhatWasTyped | crates/kernmux-daemon/src/console.rs:462-518 | over every session, failing or not, the device has received the beginning of what the browser typed, in order, and nothing else |
| ConsoleVisits.BrowserShowsWhatWasProduced | web/src/console-protocol.ts:44-63 | over every session, failing or not, and however the relay cuts the stream, the browser decodes the beginning of the attachment and the replies and shows the beginning of what the device produced; all of it once a clean session has come through |
| ConsoleVisits.ClientBytesAreFrames | crates/kernmux-daemon/src/console.rs:520-547 | the bytes that a run took from the client are its requests and the beginning of one more frame at most |
| ConsoleBridge.TakeTurn | crates/kernmux-gateway/src/browser_console.rs:171-198 | one turn forwards one message or one read, each within the wire limit, and answers pings in kind; it ends the relay exactly for a stream that ended, a side that refuses or a message outside the protocol |
| ConsoleBridge.Bridge | crates/kernmux-gateway/src/browser_console.rs:165-202 | both directions are relayed in order, every message within the wire limit, and the relay ends with the first turn that has to end it and with no other; only that turn's read or message is cut, and the browser is told exactly when it is not a refusal that ended it |
| Images.CopyAndHash | crates/kernmux-daemon/src/image_store.rs:514-548 | for every sequence of reads the copy is the whole content, or is refused as empty or above the limit |
| Images.ImageStore.New | crates/kernmux-daemon/src/image_store.rs:300-310 | a zero size limit and an unusable directory are refused |
| Images.ImageStore.Import | crates/kernmux-daemon/src/image_store.rs:321-419 | store and result are those of publishing the blob and then the record |
| ImageRuns.PreparedDecides | crates/kernmux-daemon/src/image_store.rs:321-424 | an import is refused with the first rule it violates: label, architecture, regular file, content, disk header, size limit, expected digest |
| ImageRuns.MetadataLimits | crates/kernmux-daemon/src/image_store.rs:734-768 | a label may have 128 bytes and an architecture 64 characters, and neither may be empty |
| ImageRuns.ImportAcceptedIff | crates/kernmux-daemon/src/image_store.rs:321-424 | an import succeeds exactly when it is admissible, what is stored already fits it and nothing interrupted it; a digest mismatch has its exact condition, and a refusal touches nothing |
| ImageRuns.ImportStores | crates/kernmux-daemon/src/image_store.rs:350-424 | on success the record tells kind, digest, size and disk metadata as imported, and record and blob are in the store under their names |
| ImageRuns.ReadableIff | crates/kernmux-daemon/src/image_store.rs:642-683 | a record of some content reads back exactly when an import of that content would publish it |
| Images.ImageStore.PublishBlob | crates/kernmux-daemon/src/image_store.rs:550-563 | a blob is linked once under its digest, and one already there is verified |
| Images.ImageStore.PublishRecord | crates/kernmux-daemon/src/image_store.rs:565-587 | a record is linked once, and one already there must be the same |
| Images.ImageStore.List | crates/kernmux-daemon/src/image_store.rs:449-479 | listing succeeds exactly when every record is readable and matches its blob, and then returns exactly the records in strict order |
| ImageRuns.ImportGrows | crates/kernmux-daemon/src/image_store.rs:321-419 | an import, stopped anywhere, changes nothing that was published and adds at most its own record |
| ImageRuns.FailedImportKeepsRecordsIff | crates/kernmux-daemon/src/image_store.rs:565-587 | a failed import leaves the records unchanged exactly unless the sync after linking the record failed |
| ImageRuns.LateFailureExample | crates/kernmux-daemon/src/image_store.rs:565-587 | a failed first import that leaves a record behind |
| ImageRuns.SuccessfulImportIsListed | crates/kernmux-daemon/src/image_store.rs:321-419 | a successful import is recorded with a blob of its size and digest |
| ImageRuns.ImportConsistentIff | crates/kernmux-daemon/src/image_store.rs:321-419 | one import, stopped anywhere, keeps the store consistent exactly when it does not publish an OS image without metadata |
| ImageRuns.RunsConsistentIff | crates/kernmux-daemon/src/image_store.rs:321-419 | after any imports, each stopped anywhere, the catalog lists exactly when none of them did that |
| ImageRuns.StoredWasImported | crates/kernmux-daemon/src/image_store.rs:321-615 | after any imports, interrupted anywhere, each record and each blob comes from an admissible import, its expected digest included, and holds what that import brought |
| ImageRuns.ApiRunsStayConsistent | crates/kernmux-daemon/src/image_store.rs:321-419 | with the imports that the API offers the catalog always lists |
| ImageRuns.PoisoningExample | crates/kernmux-daemon/src/image_store.rs:642-683 | one plain file imported as an OS image succeeds and makes the catalog unreadable |
| ImageRuns.CatalogOrder | crates/kernmux-daemon/src/image_store.rs:449-480 | a listing has kernels first, then initrds, then OS images, by digest within a kind |
| ImageRuns.CatalogUnique | crates/kernmux-daemon/src/image_store.rs:449-479 | the listing is the same whatever order the directories enumerate in |
| Catalogs.ImageCatalog.Refresh | crates/kernmux-daemon/src/image_store.rs:166-181 | the generation moves exactly when the listing changed, and an exhausted counter changes nothing |
| Catalogs.ImageCatalog.Import | crates/kernmux-daemon/src/image_store.rs:190-207 | view, store and result are those of the guarded import between two listings of the store; once it got through, the second listing is that of the new store |
| Catalogs.RefreshedIff | crates/kernmux-daemon/src/image_store.rs:166-188 | a reconciliation returns the listing under a generation that moves exactly with a change, or the store's error, or that the generation is exhausted |
| Catalogs.GuardedAcceptedIff | crates/kernmux-daemon/src/image_store.rs:190-235 | a guarded import succeeds exactly when the catalog lists, the caller names its generation, the store accepts it unpoisoned, and the generation can advance for a new record; a stale answer names both generations |
| Catalogs.GuardedImportIsSafe | crates/kernmux-daemon/src/image_store.rs:190-207 | a stale generation or an unlistable store is refused with the store untouched, and success returns the record and the new listing |
| Catalogs.GuardedImportAdvancesIff | crates/kernmux-daemon/src/image_store.rs:190-207 | the generation advances by one exactly when the import published a record |
| Catalogs.GenerationIsFaithful | crates/kernmux-daemon/src/image_store.rs:166-181 | on every run equal generations mean equal catalogs |
| Catalogs.ReimportKeepsGeneration | crates/kernmux-daemon/src/image_store.rs:190-207 | importing known content again keeps the generation |
| HttpResponses.FindTerminator | crates/kernmux-client/src/lib.rs:521-545 | the first blank line is found, or there is none |
| HttpResponses.ReadHead | crates/kernmux-client/src/lib.rs:521-545 | the head found in partial reads is the head of the whole stream, and each error tells why there is none |
| HttpResponses.ReadResponse | crates/kernmux-client/src/lib.rs:521-585 | a response is accepted only if the stream is one head within the limit, exactly its declared body in JSON and then the end, and each refusal names what is wrong with what was delivered |
| HttpResponses.OutcomeIsDetermined | crates/kernmux-client/src/lib.rs:521-585 | no two outcomes fit the same delivery, so acceptance, status, body and error do not depend on how the bytes arrive |
| Base64.Base64Url | crates/kernmux-gateway/src/browser_console.rs:241-258 | pushing characters chunk by chunk, by shifts and masks, yields the regrouped sextets in the URL-safe alphabet |
| Base64.SextetsCarryTheBits | crates/kernmux-gateway/src/browser_console.rs:241-258 | the sextets are the bits of the input in order, filled with fewer than six zero bits, as section 4 of RFC 4648 has it |
| Base64.EncodedRoundTrip | crates/kernmux-gateway/src/browser_console.rs:241-258 | every byte string is recovered from its text, which uses URL-safe characters only |
| Base64.EncodedLength | crates/kernmux-gateway/src/browser_console.rs:241-258 | the length of the text for every input length |
| Base64.BrowserTextIsEncoded | web/src/console-protocol.ts:25-30 | padded Base64 with two marks replaced and the padding stripped is the gateway's text, for every byte string |
| Base64.PaddedLength | web/src/console-protocol.ts:25-30 | the browser's padded text has four characters for every three bytes begun |
| Tokens.ConstantTimeEqual | crates/kernmux-gateway/src/browser_console.rs:260-269 | the OR of XORs vanishes exactly when the lengths and the bytes up to the bound agree |
| Tokens.AgreeIsEqualityIff | crates/kernmux-gateway/src/browser_console.rs:260-269 | for bytes, that decides equality with a given token for every other argument exactly when the token fits the bound |
| Tokens.Authorized | crates/kernmux-gateway/src/lib.rs:741-757 | with a configured token a request is authorized exactly when its header is the scheme followed by the token |
| Tokens.ValidSubprotocols | crates/kernmux-gateway/src/browser_console.rs:219-239 | an offer is valid exactly when it fits 1024 bytes, one entry names the console protocol and one entry carries the token, in spite of saturating counters |
| Tokens.BrowserAcceptedIff | web/src/console-protocol.ts:25-30 | the browser's own offer is valid exactly when it holds the gateway's token and that has at most 741 bytes |

## Left out

- Real Kerf behaviour: partial application by Kerf, and resizes that move live ranges out of the pool, are not steps of a run. The steps assumed are the predicates of module `Kerf`.
- The text of Kerf arguments: options carry values, not rendered strings. Planning of load, stop and state commands is on values.
- Exclusion between the lifecycle executor and the pool executor: they use different locks, so it is claimed within one executor only.
- Hosts.RunsStayIsolated: plans and their effects are on one snapshot; interleaved planning and execution is the subject of module `Concurrency`.
- Operation identifiers are numbers, timestamps are opaque text, and error codes are kept only where an outcome depends on them.
- EventStreams.ExactlyOnceOrAnnounced: while fewer than 2^64 - 1 events were published, which is exactly while the ring is as promised. `EventStreams.ReadCatchesUp` has the same bound.
- Histories.OperationsEvolve: while fewer than 2^64 - 2 operations were submitted; beyond that identifiers repeat. The same holds of `Histories.RetrievableUntilEvicted`, `Schedulers.RunKeeps` and `Concurrency.InterleavingsStayIsolatedIff`.
- ConsoleVisits.BrowserShowsWhatWasProduced: the daemon's frame limit is at most the browser's, as its default is, and the JSON of the attachment, of close reasons and of errors fits it; JSON is abstract.
- Waiting in `next_batch` and joining of worker threads: only the state at each critical section is modelled.
- Images.ImageStore.List: records are ordered by kind and digest, which is what the derived order comes to on records of one schema version; the limit on record file size, temporary files, permissions and power loss are not modelled.
- Disk header sniffing: format and virtual size are data of the source, assumed known and non-empty as the inspection guarantees.
- HttpResponses.ReadResponse: head parsing is an arbitrary function from head bytes to status and declared length, and JSON an arbitrary predicate on bodies.
- Tokens.Authorized: header text is visible ASCII, as the header accessor guarantees; the token is its bytes.
- JSON, SHA-256, UTF-8 decoding and diagnostics text are abstract.
- Process supervision, deadlines, probes, HTTP servers, routing, multipart upload, roles, limits, configuration, command line and user interface: plumbing or small case splits that would only add easy members.
