# ContextStore: a verified model of the versioned object store and its caches

ContextStore keeps immutable KV-cache objects on NVMe devices behind a metadata service. This project
models its hardest parts in Dafny and proves what they promise:

- **Versioned write, read and reclaim protocol** (`Types`, `Metadata`, `Protocol`, `Durability`, `WholePuts`,
  `Lifecycle`, `Grace`, `ReadFaults`, `GcLease`, `RedisMetadata`, `ProtocolOnRedis`). A put takes a fresh generation
  of its key, writes files named after it, and publishes metadata in one atomic command, or removes its files. Overwrite, delete and expiry retire the old version
  into a durable reclaim queue with a grace period and leases. `Protocol` is a transition system over any
  number of writers, readers and reclaim workers. `Metadata` holds the in-memory backend as the
  specification. `RedisMetadata` holds the scripted backend as its refinement, and `ProtocolOnRedis` carries the
  protocol's runs over to it.
- **Striping data path** (`Striping`, `ReadPlan`, `StripeGate`, `SubsetReads`). Segments are cut into stripes,
  stripes are read in padded sub-ranges, and completions are held back until a stripe's checksum passes.
- **Memory tier** (`L1Cache`, `MemoryTier`, `TierLaws`). Two LRU caches under one byte counter, in front of the disk
  tier. `TierLaws` says what callers may rely on, in terms of calls and answers alone.
- **Speculative descriptor client** (`DescriptorClient`, `CurrentReads`). A lookup and a read race with overwrites.
- **Python side** (`Decimal`, `PrefixIndex`, `StoreLoad`, `HostMemory`, `HostLaws`) and **keys and paths** (`Router`).

Code that changes state step by step is a class or a loop, proved against a function of the state before; the
theorems are about those functions and their whole runs.

## Assumptions

- MD5, SHA, xxh3 values and content tokens are collision-free. They appear as free constructors, as the hashed
  text, or as a hypothesis about the two digests compared.
- The clock that reclaim workers and cache reads see does not run backwards.
- A file write finishes before the publish step of its put. File writes, reads and removals are atomic.
- A read of a file that is there returns its bytes or meets a fault that the read path notices. In `Protocol` a
  fault can come at any time, and removes the metadata read by as in the code. Without checksums the plain read does
  not compare lengths, so a short read goes unnoticed there; such reads are outside the model.
- The memory tier's disk reads meet no fault, except where a row says so.
- A metadata command takes effect at most once where a row says so; `Reapplies` marks the one step that breaks
  this. `Protocol` itself allows commands that are applied and reported as failed, and commands applied twice.
- One call of the memory tier, of the host-memory cache or of the prefix index is one atomic step.
- The instant a retiring command was asked at is not after the instant it takes effect; how far apart they are is
  left open. `Protocol` keeps the asking instant of a publish for its second run.
- An executor reports each requested sub-range once. Until then the read writes within its own padded window only.
- Integers are unbounded, except where the code checks: the 64-bit expiry instant and the length of a parsed key.

## Findings

Each of these is a lemma with the run or input, next to the exact condition under which the property holds.

- The grace period runs from when a retirement is asked for, not from when it happens. A replace or delete that
  waits for the connection or is run again after a reconnect takes its delay off the grace period of the version it
  retires. The whole period after the retirement is kept if and only if there was no delay
  (`Grace.GraceFromRetirementIff`, `Grace.LateReplaceCutsGrace`).
- A publish command that is retried after a lost reply and takes effect twice breaks conservation, and can leave
  an acknowledged, current write without its file (`Durability.ConservationExact`,
  `Durability.RepeatedPublishLosesWrite`). The collector's look at current metadata protects such a write if and
  only if its files are still there and no collector is past that look (`Grace.KeepsFilesIff`).
- A read that fails drops the write it was reading. The cleanup meant for missing files also runs on failed and short
  reads, on checksum mismatches, on stripes stored without a checksum, and when an existence test fails. An
  acknowledged, current write is then gone, its files stay, and nothing will reclaim them. It has happened if and only
  if a reader read the write's metadata while it was current, met a fault, and cleaned up while it was still current
  (`ReadFaults.DroppedIffFaulted`, `ReadFaults.FaultedReadDropsWrite`). From a given moment on, and without further
  faults, the write is safe if and only if no reader is between fault and cleanup (`ReadFaults.SafeFromNowIff`). A
  memory-tier entry for the key stays behind unless it has expired (`MemoryTier.FaultedReadIff`).
- Redis completion and rescheduling are several commands. Cut between them, a task in flight is stranded for good
  (`RedisMetadata.InterruptedComplete`, `RedisMetadata.StrandedForever`). Enqueuing a task that is in flight lets
  it be claimed again within its lease (`RedisMetadata.RedisRefinesQueue`, `RedisMetadata.EnqueueInFlightBreaksLease`).
  Runs in which no publish takes effect twice never do (`ProtocolOnRedis.ProtocolNeverQueuesInFlight`); a run with
  a repeated publish does (`ProtocolOnRedis.RepeatedPublishQueuesInFlight`).
- Padded read windows overlap when stripes are not whole blocks and there is more than one
  (`ReadPlan.FullPlanSoundIff`), and then a later read can overwrite a range already released
  (`SubsetReads.StaysReleasedIff`, `SubsetReads.StaysReleasedWholeIff`). The subset gate relies on its caller not to ask for a stripe twice: it would
  release the second copy unchecked (`StripeGate.SoundIffDistinct`). The one caller refuses such requests before any
  read, so every subset read the server starts is verified (`SubsetReads.ServedReadsAreVerified`).
- The memory tier's caches share a counter but not a bound: together they can hold twice the capacity
  (`L1Cache.BoundIsTight`). An expired entry can outlive its version (`MemoryTier.ExpiredEntryRun`); a cached
  entry is the live version if and only if its key is live (`MemoryTier.TierIsTransparent`).
- With more than one channel, a chunk that comes back as a single zero byte is taken for a placeholder; a single
  channel has no placeholders (`StoreLoad.LanesRoundTripIff`, `StoreLoad.LoneZeroLost`). Cut at a fixed size, a
  lane's share yields one if and only if it ends in a zero byte one past a cut (`StoreLoad.StoredRoundTripIff`).
- A segmented write goes past the host-memory cache and leaves a stale value there if and only if the slot is cached
  with other bytes (`HostMemory.HostAgreementIff`).
- The host-memory counter drifts upward and shrinks the usable capacity: on a put over a tensor, on a tensor put
  over both, and on a parallel read that misses one non-empty value twice (`HostMemory.PutDriftsIff`,
  `HostMemory.PutTensorHalfway`, `HostMemory.GetParallelDriftsIff`).
- A TTL whose expiry instant exceeds 64 bits expires the object at once (`Types.ExpiryIsFinal`).
- A key string with a signed or zero-padded length parses, but is not what printing gives (`Router.ReprintsIff`).

## Model

| member | source | states |
|---|---|---|
| `Types.ExpiryIsFinal` | kv-service/server/src/metadata.rs:104-111 | expiry is final, and over all 64-bit times it is the instant the TTL names if and only if that instant fits in 64 bits |
| `Metadata.SelectDue` | kv-service/server/src/metadata.rs:877-896 | returns distinct due, unleased tasks up to the limit, and all of them when the limit is not reached |
| `Metadata.LeaseAll` | kv-service/server/src/metadata.rs:877-896 | every claimed task gets the lease, no other lease changes |
| `Metadata.MemoryMetadata.CommitIfAbsent` | kv-service/server/src/metadata.rs:769-780 | an existing block wins and nothing changes; an injected failure changes nothing |
| `Metadata.MemoryMetadata.ReplaceBlock` | kv-service/server/src/metadata.rs:809-830 | publishes and queues the previous version in one step, returning it |
| `Metadata.MemoryMetadata.RetireBlock` | kv-service/server/src/metadata.rs:832-844 | removes the current version and queues it, or does nothing |
| `Metadata.MemoryMetadata.RetireBlockIfMatches` | kv-service/server/src/metadata.rs:854-875 | retires only a version of the same identity |
| `Metadata.MemoryMetadata.DeleteBlockIfMatches` | kv-service/server/src/metadata.rs:926-936 | deletes only metadata of the same generation |
| `Metadata.MemoryMetadata.AllocateGeneration` | kv-service/server/src/metadata.rs:942-955 | the next generation is above both the counter and the live version |
| `Metadata.MemoryMetadata.EnqueueGc` | kv-service/server/src/metadata.rs:789-807 | queues a reclaim task under the identity of the retired version |
| `Metadata.MemoryMetadata.TakeDue` | kv-service/server/src/metadata.rs:877-896 | a claim returns eligible tasks within the limit, all of them if there is room, and leases exactly those |
| `Metadata.MemoryMetadata.CompleteTask` | kv-service/server/src/metadata.rs:898-903 | the task and its lease are gone |
| `Metadata.MemoryMetadata.RescheduleTask` | kv-service/server/src/metadata.rs:905-910 | the task is queued with its new time and no lease |
| `Protocol.StepSafe` | kv-service/server/src/storage_tier.rs:476-502 | every step of every actor keeps the safety invariant tying metadata, tasks, files, readers and workers to versions |
| `Protocol.VersionFixed` | kv-service/server/src/storage_tier.rs:588-603 | in every run, what a generation stands for never changes once it is handed out |
| `Protocol.ReadIntegrity` | kv-service/server/src/storage_tier.rs:825-864 | in every interleaving, repeated and rolled-back publishes included, a read yields nothing or exactly the bytes put under the one generation its metadata names |
| `Lifecycle.FinishedReadReturns` | kv-service/server/src/storage_tier.rs:825-864 | over every run, a reader that read metadata at one step and finishes at a later one returns the bytes of the generation that was current when it read the metadata |
| `Lifecycle.UndisturbedReadSucceeds` | kv-service/server/src/storage_tier.rs:825-864 | without a re-applied publish: a reader of a version nobody disowned, which has read every file while the version was current or within its grace period and met no fault, can finish, and its result is what the key read back when it began |
| `Lifecycle.ReadsWhatWasPut` | kv-service/server/src/storage_tier.rs:825-864 | over every run, a finished read of a version returns what its put was given |
| `Lifecycle.CurrentCanBeRead` | kv-service/server/src/storage_tier.rs:825-864 | at every moment of every run without a re-applied publish, a current version nobody disowned can be read to the end, the read returns what the key reads back, and the store is unchanged |
| `Lifecycle.PutCanSucceed` | kv-service/server/src/storage_tier.rs:476-502 | at every moment of every run without a re-applied publish, a put can be carried through to an acknowledged, current version of its contents, an if-absent put where the key is absent |
| `Lifecycle.PutThenRead` | kv-service/server/src/storage_tier.rs:476-502 | after such a put a read returns exactly the bytes put |
| `Lifecycle.PutIfAbsentNeverDisplaces` | kv-service/server/src/storage_tier.rs:483-502 | no step of a put-if-absent changes or removes a current version or queues anything |
| `Lifecycle.PublishTakesEffect` | kv-service/server/src/metadata.rs:445-483 | an overwriting publish that is run, at the first or the second try, makes its version current and queues the displaced one for a grace period after the asking |
| `Lifecycle.DeleteTakesEffect` | kv-service/server/src/metadata.rs:832-844 | in every run without a re-applied publish, a delete leaves the key unreadable, every other key as it was, and the version queued for a grace period after the asking |
| `Lifecycle.ExpiryTakesEffect` | kv-service/server/src/storage_tier.rs:519-543 | an expiry pass retires the version it looked at if that is still current, and otherwise changes nothing |
| `Lifecycle.RetiredCanBeReclaimed` | kv-service/server/src/api/service.rs:1350-1403 | in every run without a re-applied publish, a retired version whose task is due and unleased can be reclaimed at once: every file gone, the task done |
| `Lifecycle.BackoffDoubles` | kv-service/server/src/api/service.rs:1405-1412 | the retry delay starts at 5 s, doubles with every attempt and stops at 300 s |
| `Lifecycle.PutBackDelays` | kv-service/server/src/api/service.rs:1405-1412 | a task put back is claimable exactly from its next retry time on, with one attempt more |
| `Protocol.GenerationsNeverReused` | kv-service/server/src/metadata.rs:942-955 | in every run, two allocations for a key give different, increasing generations, whatever was retired between |
| `Protocol.FailedPutLeavesNoFile` | kv-service/server/src/storage_tier.rs:476-502 | a put that failed and whose removals succeeded has no file left |
| `WholePuts.FailedPutSparesOthers` | kv-service/server/src/storage_tier.rs:866-946 | from the start of a put to its failure with no publish applied, none of its steps changes current metadata, the queue or another version's file, and its version is never current |
| `WholePuts.FailedPutKeepsPrevious` | kv-service/server/src/storage_tier.rs:476-502 | if nobody else publishes, deletes, expires or drops the key during such a put, the key resolves to what it did before and reads back the same bytes unless disowned; with its removals done nothing is left of the put |
| `WholePuts.StillCurrentReadsSame` | kv-service/server/src/storage_tier.rs:825-864 | a version current at two instants and not disowned reads back the same bytes at both, whatever ran between |
| `Durability.StepStrong` | kv-service/server/src/storage_tier.rs:476-502 | every step that does not re-apply a publish, faulted reads and their cleanup included, keeps fates, reclaim times fixed at the asking instant, and durability |
| `Durability.Conservation` | kv-service/server/src/metadata.rs:769-875 | in every run without a re-applied publish, each committed version is exactly one of live, queued, reclaimed, dropped |
| `Durability.ConservationExact` | kv-service/server/src/metadata.rs:354-394 | after a step conservation holds if and only if the step did not make a publish take effect twice |
| `Durability.ReapplyDuplicates` | kv-service/server/src/metadata.rs:445-483 | a re-applied replace makes a version live that is also queued, reclaimed or dropped |
| `Durability.ReclaimNeverTouchesLive` | kv-service/server/src/api/service.rs:1347-1403 | no queued or claimed task names a path of a live layout or of a writer whose version is not published yet, writing or waiting to repeat its publish |
| `Durability.AcknowledgedWritesAreDurable` | kv-service/server/src/storage_tier.rs:139-150 | an acknowledged write keeps all its files while current, until a grace period after its retirement was asked for, and for good once dropped; only a reader that met a fault drops it |
| `ReadFaults.DroppedIffFaulted` | kv-service/server/src/storage_tier.rs:825-842 | in every run an acknowledged write has been dropped if and only if a reader read its metadata while current, met a fault, and cleaned up while it was still current |
| `ReadFaults.FaultedReadDropsWrite` | kv-service/server/src/storage_tier.rs:208-255 | for every fault on a stripe, and a failed existence test on any file, a run from the empty store in which an acknowledged write is gone, its files there and unqueued |
| `ReadFaults.SafeFromNowIff` | kv-service/server/src/storage_tier.rs:2447-2451 | without further faults on it a current acknowledged write is never dropped, if and only if no reader is between a fault on it and its cleanup |
| `ReadFaults.DroppedForGood` | kv-service/server/src/storage_tier.rs:471-474 | a dropped acknowledged write never becomes current or queued again, and its files are never removed |
| `Durability.GraceShieldsReaders` | kv-service/server/src/storage_tier.rs:139-150 | a reader of a version nobody disowned finds every file while the version is current or within the grace period counted from the asking |
| `Durability.NewestWhileAlone` | kv-service/server/src/storage_tier.rs:580-603 | while no other put of the key starts, the generation a put was given is larger than every other of the key |
| `WholePuts.LockedPutsIncrease` | kv-service/server/src/storage_tier.rs:580-603 | along puts of a key each started after the earlier ones ended, the generations that become current strictly increase |
| `Durability.StaleCleanupIsHarmless` | kv-service/server/src/storage_tier.rs:519-543 | expiry or missing-file cleanup acting on a stale version never removes a newer one |
| `Durability.RepeatedPublishLosesWrite` | kv-service/server/src/metadata.rs:354-394 | a run in which a retried replace leaves an acknowledged current write without its file |
| `Grace.GraceFromRetirementIff` | kv-service/server/src/storage_tier.rs:139-150 | in every continuation an acknowledged version keeps its files for a whole grace period after it stops being current, if and only if the retiring command took effect the instant it was asked for |
| `Grace.GraceCutShort` | kv-service/server/src/metadata.rs:354-394 | otherwise some continuation reclaims a file before that period is over |
| `Grace.LateReplaceCutsGrace` | kv-service/server/src/api/service.rs:788-797 | for every grace period and delay, a run from the empty store in which a late replace has the old file gone early |
| `Grace.KeepsFilesIff` | kv-service/server/src/api/service.rs:1347-1403 | with publishes repeated any number of times, an acknowledged current version keeps its files while current if and only if all are there and no collector is past its check |
| `GcLease.NeverLost` | kv-service/server/src/metadata.rs:789-807 | in every queue history a task stays queued until it is completed |
| `GcLease.LeaseIsExact` | kv-service/server/src/metadata.rs:877-896 | after a claim, and until touched, the task is claimable at a time if and only if the lease has run out |
| `GcLease.ClaimsAreALeaseApart` | kv-service/server/src/metadata.rs:877-910 | two claims of a task with no completion, reschedule or enqueue between are at least a lease apart |
| `RedisMetadata.EnqueueSimulates` | kv-service/server/src/metadata.rs:445-516 | enqueuing has the queue's effect, and keeps the three structures consistent if and only if the task is not in flight |
| `RedisMetadata.BlockSimulates` | kv-service/server/src/metadata.rs:422-719 | every metadata command has the specification's effect, and keeps the structures consistent if and only if it queues no task in flight |
| `RedisMetadata.EnqueueInFlightBreaksLease` | kv-service/server/src/metadata.rs:565-605 | otherwise the next roomy claim hands the task out while its lease runs |
| `RedisMetadata.PickedIsEligible` | kv-service/server/src/metadata.rs:565-605 | after the requeue pass a payload is due by score if and only if the queue calls it eligible |
| `RedisMetadata.TakeSimulates` | kv-service/server/src/metadata.rs:565-605 | the claim script is one claim of the queue, lapsed leases and dangling due entries included; with room it returns all eligible tasks |
| `RedisMetadata.TakeConsistent` | kv-service/server/src/metadata.rs:565-605 | the claim script keeps the structures consistent at the later clock |
| `RedisMetadata.CompleteSimulates` | kv-service/server/src/metadata.rs:607-616 | completing, even late, is the queue's completion |
| `RedisMetadata.RescheduleSimulates` | kv-service/server/src/metadata.rs:618-638 | rescheduling, even of a completed task, is the queue's reschedule |
| `RedisMetadata.RedisRefinesQueue` | kv-service/server/src/metadata.rs:422-719 | over every history of metadata and queue commands the structures stay consistent if and only if no command queues a task in flight, and then the history is one of the specification |
| `RedisMetadata.RedisLeasesHold` | kv-service/server/src/metadata.rs:565-638 | in such a history a task claimed from Redis is not handed out again within its lease |
| `ProtocolOnRedis.ProtocolRunsOnRedis` | kv-service/server/src/metadata.rs:422-719 | every protocol run without a re-applied publish, carried out by the scripts, leaves the structures holding the protocol's store, consistent, at every moment |
| `ProtocolOnRedis.ProtocolNeverQueuesInFlight` | kv-service/server/src/metadata.rs:445-563 | so no command of such a run queues a task in flight |
| `ProtocolOnRedis.RepeatedPublishQueuesInFlight` | kv-service/server/src/metadata.rs:354-394 | a run, carried out by the scripts, in which a repeated publish lets a delete queue a task in flight and break consistency |
| `ProtocolOnRedis.CommandHasEffect` | kv-service/server/src/storage_tier.rs:476-543 | the metadata command each step issues has exactly the step's effect on the store |
| `RedisMetadata.InterruptedComplete` | kv-service/server/src/metadata.rs:607-616 | cut after one command, completion strands the task if and only if it was in flight; repeating it heals |
| `RedisMetadata.InterruptedReschedule` | kv-service/server/src/metadata.rs:618-638 | exact condition for a cut reschedule to strand the task; repeating it heals |
| `RedisMetadata.StrandedForever` | kv-service/server/src/metadata.rs:565-605 | a stranded task is never claimed again unless enqueued, completed or rescheduled anew |
| `RedisMetadata.RangeByScore` | kv-service/server/src/metadata.rs:565-605 | distinct members up to the score, lowest first, nothing lower left out, cut at the limit |
| `RedisMetadata.Requeue` | kv-service/server/src/metadata.rs:565-605 | exactly the lapsed leases move to the due set |
| `RedisMetadata.LeaseEach` | kv-service/server/src/metadata.rs:565-605 | picked members leave the due set; exactly those with a payload are leased, and their payloads are returned in the order picked |
| `RedisMetadata.ClaimDue` | kv-service/server/src/metadata.rs:565-605 | the claim script on the three structures: lapsed leases requeued, lowest due scores picked, those with a payload leased and handed out in that order |
| `RedisMetadata.ClaimAnswered` | kv-service/server/src/metadata.rs:576-586 | what a claim hands out: each leased task once and as stored, nothing ineligible, and everything eligible if there is room |
| `RedisMetadata.RedisMetadata.Enqueue` | kv-service/server/src/metadata.rs:445-563 | the part the replace and retire scripts share: payload set, due entry added |
| `RedisMetadata.RedisMetadata.CommitIfAbsent` | kv-service/server/src/metadata.rs:432-443 | same effect and answer as the specification; consistency kept |
| `RedisMetadata.RedisMetadata.ReplaceBlock` | kv-service/server/src/metadata.rs:445-483 | same effect and answer as the specification; consistency kept if and only if the replaced version's task is not in flight |
| `RedisMetadata.RedisMetadata.RetireBlock` | kv-service/server/src/metadata.rs:485-516 | same effect and answer as the specification; consistency kept under the same condition |
| `RedisMetadata.RedisMetadata.RetireBlockIfMatches` | kv-service/server/src/metadata.rs:518-563 | same effect and answer as the specification; consistency kept under the same condition, and always without a match |
| `RedisMetadata.RedisMetadata.DeleteBlockIfMatches` | kv-service/server/src/metadata.rs:655-681 | compares the generation only, queues nothing, keeps consistency |
| `RedisMetadata.RedisMetadata.AllocateGeneration` | kv-service/server/src/metadata.rs:688-719 | same generation as the specification; consistency kept |
| `RedisMetadata.RedisMetadata.TakeDue` | kv-service/server/src/metadata.rs:565-605 | the whole script; from consistent structures the tasks returned have distinct ids, are exactly the leased ones as stored, in the order picked, all eligible, and with room every eligible task is among them |
| `RedisMetadata.RedisMetadata.CompleteTask` | kv-service/server/src/metadata.rs:607-616 | both commands run |
| `RedisMetadata.RedisMetadata.RescheduleTask` | kv-service/server/src/metadata.rs:618-638 | all three commands run |
| `Striping.RebucketSegments` | kv-service/server/src/storage_tier.rs:1410-1442 | for every segment list, empty segments included, stripe i is bytes [i*c, min((i+1)*c, total)) of the concatenation |
| `Striping.FillStripe` | kv-service/server/src/storage_tier.rs:1421-1441 | the inner loop terminates lexicographically with the stripe filled and the read position at its end |
| `Striping.StripesRejoin` | kv-service/server/src/storage_tier.rs:1538-1549 | the stripes of a value joined are the value |
| `Striping.ByteHome` | kv-service/server/src/storage_tier.rs:1414-1442 | byte k is in stripe k / c at offset k % c and in no other stripe |
| `Striping.StripeStarts` | kv-service/server/src/storage_tier.rs:1407-1409 | a stripe starts inside the value if and only if it is counted |
| `Striping.SliceBuffer` | kv-service/server/src/storage_tier.rs:1118-1165 | the copy-free write cuts the same stripes |
| `Striping.ReadStriped` | kv-service/server/src/storage_tier.rs:1538-1549 | the files in stripe order, appended |
| `Striping.RoundTrip` | kv-service/server/src/storage_tier.rs:1398-1549 | writing segments as stripe files and reading them back gives the segments' bytes |
| `ReadPlan.AlignUpIsLeast` | kv-service/server/src/storage_tier.rs:2309-2310 | padding is the least whole number of blocks |
| `ReadPlan.StreamStep` | kv-service/server/src/storage_tier.rs:84-86 | the step is at least one block, whole blocks, and within a block of the configured size |
| `ReadPlan.PlanTiles` | kv-service/server/src/storage_tier.rs:1693-1747 | the plan covers the staging area back to back with non-empty ranges |
| `ReadPlan.EveryByteOnce` | kv-service/server/src/storage_tier.rs:2297-2331 | every staged byte is covered by exactly one sub-range |
| `ReadPlan.PlanPlaced` | kv-service/server/src/storage_tier.rs:1720-1746 | every range lies within its stripe file and names the object offset it serves |
| `ReadPlan.ReadsObjectBytes` | kv-service/server/src/storage_tier.rs:1720-1746 | such a range reads the object's bytes at that offset |
| `ReadPlan.WindowsSoundIff` | kv-service/server/src/storage_tier.rs:1693-1747 | padded windows are aligned, and are disjoint, if and only if every requested stripe but the last is whole blocks |
| `ReadPlan.IncreasingIndicesAreSound` | kv-service/server/src/storage_tier.rs:1693-1747 | increasing indices over block-sized stripes meet that condition |
| `ReadPlan.FullPlanSoundIff` | kv-service/server/src/storage_tier.rs:2287-2331 | the whole-object plan is aligned and disjoint if and only if the stripe size is whole blocks or there is one stripe |
| `ReadPlan.DestIsObjectOffset` | kv-service/server/src/storage_tier.rs:2297-2306 | the whole-object plan stages every range at its own object offset |
| `ReadPlan.PlanStripe` | kv-service/server/src/storage_tier.rs:1720-1746 | the sub-range loop builds the stripe's ranges, or stops exactly when a window does not fit |
| `ReadPlan.PlanSubset` | kv-service/server/src/storage_tier.rs:1693-1747 | refused if and only if an index names no file, starts beyond the object, or a window does not fit |
| `ReadPlan.PlanFull` | kv-service/server/src/storage_tier.rs:2287-2331 | for any number of stripe files: refused if and only if the buffer is short or a window does not fit, broken by a file past the end, otherwise the plan of the stripes that have a file |
| `ReadPlan.AnyOrderHolds` | kv-service/server/src/storage_tier.rs:2297-2331 | with disjoint windows, completed reads stay intact in any order and with any padding |
| `ReadPlan.FullReadFillsBuffer` | kv-service/server/src/storage_tier.rs:2287-2331 | once all reads of a sound plan completed, in any order, the buffer holds the object |
| `StripeGate.OwnBound` | kv-service/server/src/storage_tier.rs:2374-2392 | a stripe never gets more arrivals than sub-ranges, and with that many every one has arrived |
| `StripeGate.StripeEmissions` | kv-service/server/src/storage_tier.rs:1767-1881 | for every arrival order: nothing about a stripe before it is complete, then its verdict, which `GateAnswers` spells out |
| `StripeGate.GateAnswers` | kv-service/server/src/storage_tier.rs:1797-1878 | for every arrival order: an intact stripe is released with one Ok event per arrival in arrival order, any other is rejected exactly once; the fault is that of the first arrival not read in full, or else a checksum mismatch or a missing checksum |
| `StripeGate.OwnInOrder` | kv-service/server/src/storage_tier.rs:1775-1785 | the arrivals held for a stripe are all of its arrivals, in arrival order |
| `StripeGate.AboutInOrder` | kv-service/server/src/storage_tier.rs:1855-1878 | the emissions about a stripe are all of them, in order |
| `StripeGate.ReleasedIsVerified` | kv-service/server/src/storage_tier.rs:1778-1848 | an Ok event implies all sub-ranges arrived at full length and the checked window matched the checksum |
| `StripeGate.ReleasedBytes` | kv-service/server/src/storage_tier.rs:1767-1881 | with each stripe requested once, a released range holds in the buffer what was written |
| `StripeGate.ReleasedBytesWhole` | kv-service/server/src/storage_tier.rs:2371-2472 | the same for whole-object reads |
| `StripeGate.DuplicateEscapes` | kv-service/server/src/storage_tier.rs:1792-1796 | the gate alone, given an index twice: a run that releases a wrong second copy |
| `StripeGate.SoundIffDistinct` | kv-service/server/src/storage_tier.rs:1767-1881 | the gate releases only written bytes if and only if its caller repeats no index |
| `SubsetReads.NoFaultIffAcceptable` | kv-service/server/src/rdma/server.rs:1170-1205 | no position of a request is at fault if and only if the indices are distinct and each stripe exists, fits the window and is local |
| `SubsetReads.Admit` | kv-service/server/src/rdma/server.rs:1164-1210 | the validation loop admits exactly such requests, adds up their staging bytes, and otherwise the first fault decides |
| `SubsetReads.ServeSubset` | kv-service/server/src/rdma/server.rs:1150-1242 | a read starts if and only if the request is valid and its plan fits |
| `SubsetReads.ServedReadsAreVerified` | kv-service/server/src/rdma/server.rs:1170-1242 | every subset read the server starts releases only bytes that were written, whatever arrives in whatever order |
| `SubsetReads.ReleasedToTheEnd` | kv-service/server/src/storage_tier.rs:1767-1881 | with whole-block stripes but the last, a released range holds what was written from the release to the end of the read |
| `SubsetReads.ReleasedToTheEndWhole` | kv-service/server/src/storage_tier.rs:2371-2472 | the same for whole-object reads of block-sized stripes, or of one stripe |
| `SubsetReads.StaysReleasedIff` | kv-service/server/src/storage_tier.rs:1693-1881 | a subset read keeps every released range to the end, in every arrival order, if and only if every requested stripe but the last is whole blocks |
| `SubsetReads.StaysReleasedWholeIff` | kv-service/server/src/storage_tier.rs:2287-2472 | a whole-object read does if and only if stripes are whole blocks or there is one |
| `SubsetReads.PaddingOverwrites` | kv-service/server/src/storage_tier.rs:1720-1746 | a window that reaches into another stripe: a run that releases the stripe and then overwrites its first byte |
| `StripeGate.CountMembers` | kv-service/server/src/storage_tier.rs:1770-1776 | the expected count of each stripe is its number of sub-ranges |
| `StripeGate.Settle` | kv-service/server/src/storage_tier.rs:2384-2470 | a complete stripe adds its Ok events if it is intact and otherwise one error naming the fault; the metadata is dropped at most once |
| `StripeGate.RunGate` | kv-service/server/src/storage_tier.rs:2371-2472 | the gating loop emits, for both gates and every arrival order, what `StripeEmissions` and `GateAnswers` describe, and drops the metadata once at the first error of a whole read |
| `L1Cache.EvictHolds` | kv-service/server/src/memory_tier.rs:510-520 | eviction keeps the most recent entries and stops as soon as the budget allows |
| `L1Cache.TouchMakesRecent` | kv-service/server/src/memory_tier.rs:115-127 | a hit becomes the most recent entry and the others keep their order |
| `L1Cache.InsertedIsFound` | kv-service/server/src/memory_tier.rs:485-520 | a new entry is the most recent of its cache, and its key is nowhere else |
| `L1Cache.InsertCounts` | kv-service/server/src/memory_tier.rs:502-577 | an insertion keeps the counter above the bytes held, its own cache within budget, and does not grow the other |
| `L1Cache.InsertMembers` | kv-service/server/src/memory_tier.rs:502-577 | afterwards both caches hold old entries of other keys and, in the one inserted into, the new entry |
| `L1Cache.InvalidateHolds` | kv-service/server/src/memory_tier.rs:485-500 | exactly the key's entries leave both caches, and the counter moves with them |
| `L1Cache.WithinBudgetIff` | kv-service/server/src/memory_tier.rs:502-526 | the counter ends within budget if and only if the entry fits beside the other cache |
| `L1Cache.EvictToFreeHolds` | kv-service/server/src/memory_tier.rs:670-694 | frees the needed bytes or everything, and not one entry more |
| `L1Cache.StepBounded` | kv-service/server/src/memory_tier.rs:485-762 | every cache operation keeps the bounds; the counter drifts only up, and only at the entry limit |
| `L1Cache.ByteBound` | kv-service/server/src/memory_tier.rs:485-762 | in every run the bytes held are at most twice the capacity, or capacity plus max(capacity, slab) with slab entries |
| `L1Cache.CounterExact` | kv-service/server/src/memory_tier.rs:67-68 | the counter is exact as long as neither cache has been full by entry count |
| `L1Cache.BoundIsTight` | kv-service/server/src/memory_tier.rs:528-577 | a run that reaches twice the capacity |
| `L1Cache.DriftAtEntryLimit` | kv-service/server/src/memory_tier.rs:521-525 | at the entry limit the counter gains exactly the size of the silently dropped entry |
| `MemoryTier.StepAgrees` | kv-service/server/src/memory_tier.rs:88-376 | each call keeps the caches in agreement with disk, and answers and changes disk as the disk tier alone would |
| `MemoryTier.TierIsTransparent` | kv-service/server/src/memory_tier.rs:88-376 | over every run the answers and the disk are those of the disk tier alone, every unexpired entry is the live version, and an entry is live if and only if its key is |
| `TierLaws.HistoryDecides` | kv-service/server/src/memory_tier.rs:88-376 | over every run, each answer about a key follows from the last write to it that took effect, whichever cache is asked and whatever was evicted, reclaimed or done to other keys |
| `TierLaws.DeletedUntilWritten` | kv-service/server/src/memory_tier.rs:339-343 | after a delete the key is not found through either cache, does not exist, and a put-if-absent wins, until it is written again |
| `TierLaws.WrittenUntilChanged` | kv-service/server/src/memory_tier.rs:256-337 | what was written is read back, up to its expiry instant and not from then on, until overwritten or deleted; meanwhile a put-if-absent loses and a delete finds it |
| `TierLaws.DiskRunsOnMetadata` | kv-service/server/src/storage_tier.rs:519-543 | every call changes current metadata and generation counters as the metadata commands behind it do |
| `MemoryTier.ReadIsCached` | kv-service/server/src/memory_tier.rs:228-254 | a value that fits is cached, as the most recent entry, by the read that missed it |
| `MemoryTier.WriteIsCached` | kv-service/server/src/memory_tier.rs:256-273 | and by the write that stored it |
| `MemoryTier.SlabCopyIsCached` | kv-service/server/src/memory_tier.rs:711-760 | a slab copy is cached whatever its size |
| `MemoryTier.HitStaysInMemory` | kv-service/server/src/memory_tier.rs:228-254 | an unexpired hit leaves disk, counter and the other cache alone and becomes the most recent entry |
| `MemoryTier.GetAgrees` | kv-service/server/src/memory_tier.rs:183-253 | a read, hit, miss or expired, answers as the disk would |
| `MemoryTier.GetWithMetaAgrees` | kv-service/server/src/memory_tier.rs:109-175 | with the committed metadata in hand a with-meta read is the plain read |
| `MemoryTier.ExistsAgrees` | kv-service/server/src/memory_tier.rs:349-376 | existence from either cache is the disk's answer |
| `MemoryTier.RefreshAgrees` | kv-service/server/src/memory_tier.rs:256-311 | a committed put replaces both cached representations by the new version |
| `MemoryTier.ExpiredEntryOutlives` | kv-service/server/src/memory_tier.rs:228-253 | reading through one cache purges the disk and leaves an expired entry in the other |
| `MemoryTier.ExpiredEntryRun` | kv-service/server/src/memory_tier.rs:228-253 | a run from the empty tier, for every capacity, write and clock, that ends with an expired entry whose key is gone |
| `MemoryTier.RereadFailureIff` | kv-service/server/src/memory_tier.rs:256-272 | a committed put whose metadata re-read fails keeps agreement if and only if the key was not cached |
| `MemoryTier.FaultedReadIff` | kv-service/server/src/memory_tier.rs:183-253 | after a disk read that met a fault the caches agree if and only if every entry they hold for the key has expired |
| `MemoryTier.StaleReadIff` | kv-service/server/src/memory_tier.rs:109-139 | with arbitrary metadata, exact condition for a with-meta read to keep agreement |
| `MemoryTier.TieredStore.InvalidateEntry` | kv-service/server/src/memory_tier.rs:485-500 | both pops and both subtractions |
| `MemoryTier.TieredStore.MakeRoom` | kv-service/server/src/memory_tier.rs:510-520 | the eviction loop |
| `MemoryTier.TieredStore.InsertEntry` | kv-service/server/src/memory_tier.rs:502-577 | the insertion of either cache |
| `MemoryTier.TieredStore.FreeChunks` | kv-service/server/src/memory_tier.rs:670-694 | the loop that frees segment entries |
| `MemoryTier.TieredStore.GetValue` | kv-service/server/src/memory_tier.rs:183-253 | state and answer of a read |
| `MemoryTier.TieredStore.GetExpected` | kv-service/server/src/memory_tier.rs:109-175 | state and answer of a with-meta read |
| `MemoryTier.TieredStore.PutValue` | kv-service/server/src/memory_tier.rs:256-311 | disk first, then invalidate, then cache |
| `MemoryTier.TieredStore.PutValueIfAbsent` | kv-service/server/src/memory_tier.rs:275-337 | an existing object leaves both tiers alone |
| `MemoryTier.TieredStore.PutFromSlab` | kv-service/server/src/memory_tier.rs:711-762 | slab entries are inserted under the larger budget |
| `MemoryTier.TieredStore.DeleteValue` | kv-service/server/src/memory_tier.rs:339-343 | the key leaves both caches and the current metadata, no other key does, and the answer is whether it was live |
| `MemoryTier.TieredStore.HasValue` | kv-service/server/src/memory_tier.rs:349-376 | state and answer of an existence check |
| `DescriptorClient.StrictReturnsCurrent` | src/contextstore/kvservice_client/client.py:672-745 | for every ordering of lookup, reads, overwrites and relocations, strictly validated bytes are those of the version current when the lookup was served |
| `DescriptorClient.CachedReadIsCurrent` | src/contextstore/kvservice_client/client.py:672-856 | with reads served whole or piece by piece at any instants of the call, strictly validated bytes are those of a version current at some instant between call and return |
| `DescriptorClient.LenientReturnsCurrent` | src/contextstore/kvservice_client/client.py:747-811 | without strict validation a failed lookup lets through bytes current when the read was served |
| `DescriptorClient.SpeculationPaysIff` | src/contextstore/kvservice_client/client.py:278-294 | the speculative read is used if and only if the cached content identity is the one looked up |
| `DescriptorClient.FanOutIsOneRead` | src/contextstore/kvservice_client/client.py:371-422 | chunks read from several nodes at different instants, in any order, add up to one read served at any of them |
| `DescriptorClient.SortedByIndex` | src/contextstore/kvservice_client/client.py:405-422 | sorting pieces by stripe puts stripe k at position k |
| `DescriptorClient.RemembersWhatItReturned` | src/contextstore/kvservice_client/client.py:813-856 | after strictly validated bytes the remembered descriptor is of that content |
| `DescriptorClient.ClientAnswers` | src/contextstore/kvservice_client/client.py:672-838 | for every combination of replies: when bytes are returned and which, and when nothing is; every other call raises |
| `DescriptorClient.UnchangedIsReturned` | src/contextstore/kvservice_client/client.py:672-838 | if one version is current throughout the call and no reply is a failure, its bytes are returned |
| `DescriptorClient.CacheFollows` | src/contextstore/kvservice_client/client.py:672-838 | what the key is remembered by afterwards: the newest descriptor seen, nothing if the object is gone, what it was if the call learned nothing |
| `DescriptorClient.RememberIsLru` | src/contextstore/kvservice_client/client.py:310-328 | the remembered entry is the most recent, and the oldest others go, only when there are too many |
| `CurrentReads.ProtocolIdentifies` | kv-service/server/src/storage_tier.rs:588-603 | in every protocol run, with objects moved at will, equal content identities mean equal bytes |
| `CurrentReads.StrictOverProtocol` | src/contextstore/kvservice_client/client.py:672-745 | over every protocol run, strictly validated bytes are those put under the generation current when the lookup was served |
| `DescriptorClient.Trim` | src/contextstore/kvservice_client/client.py:327-328 | the most recent descriptors, as many as fit |
| `DescriptorClient.KVClient.CachedLookup` | src/contextstore/kvservice_client/client.py:296-304 | a hit is returned and becomes the most recent |
| `DescriptorClient.KVClient.CacheDescriptor` | src/contextstore/kvservice_client/client.py:310-328 | newest descriptor kept, placement retained when none is given, size bounded |
| `DescriptorClient.KVClient.EvictDescriptor` | src/contextstore/kvservice_client/client.py:333-334 | the key is forgotten |
| `DescriptorClient.KVClient.ReadFresh` | src/contextstore/kvservice_client/client.py:821-856 | data read after a lookup is returned and remembered; nothing is answered exactly when there was no data, and the key is then forgotten |
| `DescriptorClient.KVClient.GetCached` | src/contextstore/kvservice_client/client.py:672-811 | outcome and cache of the cached read for every combination of replies: which bytes it returns, and when it returns nothing |
| `Decimal.PrintValue` | src/contextstore/index/prefix_index.py:30-34 | a printed number is non-empty digits that denote it |
| `Decimal.JoinInjective` | src/contextstore/index/prefix_index.py:30-34 | comma-joined token lists are equal only if the lists are |
| `PrefixIndex.KeyInjective` | src/contextstore/index/prefix_index.py:30-34 | different prefixes hash different texts |
| `PrefixIndex.KeysTellModelsApart` | src/contextstore/index/prefix_index.py:30-38 | keys are equal only for the same model and the same prefix, whatever characters the model name has |
| `PrefixIndex.RegisteredIff` | src/contextstore/index/prefix_index.py:56-102 | after every history a prefix is registered if and only if some registration covered it and no later removal took it, and pinned if and only if a whole-prefix registration covered it |
| `PrefixIndex.RegisteredIsFound` | src/contextstore/index/prefix_index.py:40-70 | looking up tokens just registered matches at least the registered blocks |
| `PrefixIndex.BlockKeys` | src/contextstore/index/prefix_index.py:118-130 | incremental hashing feeds, at every block end, exactly the text of the direct key |
| `PrefixIndex.RunIsLongest` | src/contextstore/index/prefix_index.py:40-54 | the matched run is the longest run of known leading prefixes |
| `PrefixIndex.FlatKeysAre` | src/contextstore/index/prefix_index_redis.py:52-60 | on whole-block prefixes the flat keys are those of the registered prefixes, also past the end of the tokens |
| `PrefixIndex.TrieEqualsFlat` | src/contextstore/index/prefix_index_redis.py:24-67 | after every history without whole-prefix registrations trie and flat set answer every lookup alike |
| `PrefixIndex.FlatLookup` | src/contextstore/index/prefix_index_redis.py:30-50 | the flat lookup counts the leading hits |
| `PrefixIndex.MatchedBlocks` | src/contextstore/index/prefix_index.py:40-54 | the trie walk matches the longest run |
| `PrefixIndex.TrieIndex.LookupPrefix` | src/contextstore/index/prefix_index.py:40-54 | block size times the longest run of prefixes registered and not removed, or ever pinned |
| `PrefixIndex.TrieIndex.RegisterBlocks` | src/contextstore/index/prefix_index.py:56-70 | exactly the block prefixes of the tokens become registered; their keys are returned |
| `PrefixIndex.TrieIndex.RegisterWholePrefix` | src/contextstore/index/prefix_index.py:72-87 | the block prefixes become registered and pinned for good |
| `PrefixIndex.TrieIndex.RemoveBlocks` | src/contextstore/index/prefix_index.py:89-102 | exactly the prefixes of the given keys stop being registered; pins stay |
| `PrefixIndex.TrieIndex.Contains` | src/contextstore/index/prefix_index.py:104-106 | a key is contained if and only if a registered prefix or a whole prefix has it |
| `StoreLoad.BlocksRoundTrip` | src/contextstore/connector.py:1010-1177 | gathered blocks scattered to distinct ids reproduce every plane of every layer and touch no other block |
| `StoreLoad.GatherLength` | src/contextstore/connector.py:989-1008 | the gathered bytes are as many as the layout says |
| `StoreLoad.PartitionTotals` | src/contextstore/storage/kvservice.py:1113-1123 | the lane sizes add up to the number of segments |
| `StoreLoad.LanesJoin` | src/contextstore/storage/kvservice.py:974-1001 | the lanes in order hold the segments |
| `StoreLoad.LanesRoundTripIff` | src/contextstore/storage/kvservice.py:960-1111 | the stored bytes come back if and only if a single channel is used or no chunk of a lane with segments comes back as a lone zero byte |
| `StoreLoad.LoneZeroLost` | src/contextstore/storage/kvservice.py:1098-1111 | one zero byte over two channels comes back as nothing; over one it comes back |
| `StoreLoad.StoredRoundTripIff` | src/contextstore/storage/kvservice.py:960-1111 | with channels that cut at a fixed size above one, the bytes come back if and only if there is one channel or no lane's share ends in a lone zero byte |
| `StoreLoad.LoneZeroIff` | src/contextstore/storage/kvservice.py:1103-1111 | cut at a size above one, bytes yield a lone zero byte if and only if their length leaves remainder one and they end in zero |
| `StoreLoad.StoreThenLoad` | src/contextstore/connector.py:1010-1177 | gather, 4 MiB segments, lanes, any chunking on return and scatter of what the lanes' get returns reproduce the blocks and nothing else; it is a miss only if nothing was stored |
| `StoreLoad.PutLanes` | src/contextstore/storage/kvservice.py:960-1001 | one channel stores the segments as they are; with more, every lane stores its contiguous share or the placeholder |
| `StoreLoad.GetLanes` | src/contextstore/storage/kvservice.py:1062-1111 | one channel's chunks are returned as they are, more are merged in order without placeholders; a missing channel or an empty result is a miss |
| `StoreLoad.ByteLayout` | src/contextstore/connector.py:989-1008 | sizes use the first layer's element size, and fit every layer of a uniform cache |
| `StoreLoad.CopyLayers` | src/contextstore/connector.py:1056-1070 | the buffer holds the gathered layers if and only if every layer fills its part |
| `StoreLoad.Worker.CopyToPinned` | src/contextstore/connector.py:1010-1077 | the cache is copied whole, layer after layer, if and only if every layer fills its planned part, as in a uniform cache |
| `StoreLoad.FillPinned` | src/contextstore/connector.py:1137-1150 | the chunks one after another, empty ones skipped |
| `StoreLoad.ScatterParts` | src/contextstore/connector.py:1153-1177 | all layers written if and only if every layer has the first one's element type; otherwise exactly the layers before the first other type |
| `StoreLoad.Worker.LoadChunks` | src/contextstore/connector.py:1113-1177 | nothing to load or a wrong total leaves any cache alone; otherwise exactly the target blocks change, up to the first layer of another element type |
| `HostMemory.EvictHolds` | src/contextstore/storage/host_memory.py:206-215 | eviction uncounts what it drops and ends within capacity or empty |
| `HostMemory.StepSound` | src/contextstore/storage/host_memory.py:21-159 | every operation keeps bound and counter, does to the backend what it alone would see, and keeps agreement if and only if it is not a segmented write over other cached bytes |
| `HostMemory.HostBound` | src/contextstore/storage/host_memory.py:21-159 | after every operation of every history, segmented writes included, the bytes held are within capacity and counter, and the drift never shrinks |
| `HostMemory.HostAgreementIff` | src/contextstore/storage/host_memory.py:21-159 | over every history the cache agrees with the backend throughout, and reads answer as it, if and only if no segmented write goes over other cached bytes |
| `HostMemory.DriftShrinksCapacity` | src/contextstore/storage/host_memory.py:21-33 | what a put leaves held is at most capacity less drift, or nothing |
| `HostMemory.PutDriftsIff` | src/contextstore/storage/host_memory.py:21-33 | a put makes the counter drift if and only if the slot held a tensor |
| `HostMemory.PutTensorHalfway` | src/contextstore/storage/host_memory.py:35-52 | a tensor put drifts by the old tensor's size exactly when a value was cached too |
| `HostMemory.GetParallelDriftsIff` | src/contextstore/storage/host_memory.py:119-146 | a parallel read makes the counter drift if and only if an uncached key with a non-empty value is asked for more than once |
| `HostMemory.PassThroughIff` | src/contextstore/storage/host_memory.py:148-159 | a pass-through write keeps agreement if and only if the slot is not cached or holds the same bytes |
| `HostMemory.AnswersAt` | src/contextstore/storage/host_memory.py:119-146 | answer i of a parallel read is what a single read of key i gives, the backend's if the cache agrees |
| `HostMemory.ServeHits` | src/contextstore/storage/host_memory.py:119-132 | hits are touched, misses listed, and every answer is that of a single read |
| `HostMemory.HostMemoryBackend.EvictIfNeeded` | src/contextstore/storage/host_memory.py:206-215 | the eviction loop, values before tensors |
| `HostMemory.HostMemoryBackend.PutValue` | src/contextstore/storage/host_memory.py:21-33 | state after a put |
| `HostMemory.HostMemoryBackend.PutTensorValue` | src/contextstore/storage/host_memory.py:35-52 | state after a tensor put |
| `HostMemory.HostMemoryBackend.GetValue` | src/contextstore/storage/host_memory.py:62-76 | state and answer of a read |
| `HostMemory.HostMemoryBackend.GetParallelValues` | src/contextstore/storage/host_memory.py:119-146 | every answer is that of a single read; misses are filled and counted in order |
| `HostMemory.HostMemoryBackend.FillMissed` | src/contextstore/storage/host_memory.py:134-145 | fetched values are cached and counted one after another, repeated keys counted twice |
| `HostMemory.HostMemoryBackend.DeleteKey` | src/contextstore/storage/host_memory.py:88-100 | all layers of the key go, and are uncounted |
| `HostMemory.HostMemoryBackend.PutSegments` | src/contextstore/storage/host_memory.py:148-159 | only the backend changes |
| `HostLaws.WrittenUntilChanged` | src/contextstore/storage/host_memory.py:21-76 | over every history without harmful segmented writes, single and parallel reads return the last bytes written to the slot |
| `HostLaws.DeletedUntilWritten` | src/contextstore/storage/host_memory.py:88-100 | after a delete every layer of the key reads as missing until written again |
| `HostLaws.HitBecomesRecent` | src/contextstore/storage/host_memory.py:62-67 | a hit becomes the most recent value, the others keep their order, and nothing else changes |
| `HostLaws.EvictsOldestFirst` | src/contextstore/storage/host_memory.py:206-215 | eviction takes the oldest values, then the oldest tensors, and no more than it must |
| `HostLaws.NewIsRecent` | src/contextstore/storage/host_memory.py:21-33 | what a put or a missed read brings in is the most recent value, if any value is left |
| `Router.RoundTrip` | kv-service/server/src/router.rs:29-69 | parsing a printed key gives the key back, for every namespace and object key |
| `Router.PrintInjective` | src/contextstore/storage/kvservice.py:173-176 | different key pairs print differently |
| `Router.ReprintsIff` | kv-service/server/src/router.rs:45-69 | a string that parses is its key's printed form if and only if its length part is canonical |
| `Router.BoundaryIff` | kv-service/server/src/router.rs:57-62 | the byte length names a character boundary if and only if some prefix has that many UTF-8 bytes |
| `Router.EncodeDecodes` | kv-service/server/src/router.rs:57-64 | the UTF-8 bytes of a character determine it |
| `Router.ByteLenIsEncoded` | kv-service/server/src/router.rs:57-64 | lengths count the bytes of the UTF-8 encoding |
| `Router.BoundaryIsUtf8` | kv-service/server/src/router.rs:57-57 | a character ends after that many bytes if and only if the text does or the next byte starts a character |
| `Router.ParseAnswers` | kv-service/server/src/router.rs:44-69 | for every text: a key if the part before the first colon is a number that fits and a character ends there, and otherwise the error that says which of these fails |
| `Router.VersionedPathInjective` | kv-service/server/src/router.rs:133-206 | versioned paths differ whenever key, generation, layout or chunk index differ, on whatever devices |
| `Router.ComponentIsSafe` | kv-service/server/src/router.rs:208-222 | a namespace becomes one safe path component |
| `Router.BuildComponent` | kv-service/server/src/router.rs:208-222 | the character loop builds that component |
| `Router.StripesSpread` | kv-service/server/src/router.rs:225-228 | stripes up to a round apart share a device if and only if they are exactly a round apart |

## Left out

- gRPC handlers, RDMA server, slab allocator and I/O executors, beyond the server-side descriptor check and the reclaim pass they run.
- CUDA, cuFile and verbs calls, and the raw pointers they use. Tensors are lists of blocks of bytes.
- Metrics, logging, tracing, configuration and command-line code.
- The INT8 codec, which needs IEEE floating point.
- Concurrent callers inside one memory-tier call; a cache fill can interleave with another writer's put.
- The expiry of entries seen by `peek_chunks`, which does not check it.
- The circuit breaker and high-availability wrapper of the Python storage backend.
- Files left by a stripe write that failed part-way. The model keeps them (`Protocol` marks them as left), and claims nothing about their removal.
- Committed generations across nodes: only uniqueness is proved, since a replace does not compare generations.
- Segment boundaries of values that the memory tier reads from disk; an entry filled by a read is one segment.
- Batch variants of get and put in the memory tier, and the hit, miss and eviction statistics.
- Trie nodes as linked objects: a node is named by the tokens on its path, and token ids are non-negative.
- Redis failures in the flat prefix index, which answer as no match.
- The metadata cache, tensor reads, existence check and key listing of the host-memory backend.
- Overflow of 64-bit arithmetic in read plans, which the code reports as an error.
- The registered-buffer fallback of a subset read, taken when the slab is full, and the RDMA writes to the client.
- The copy of a layer that gathers to a single byte, which would be spread over a larger part instead of refused.
- Claims of several tasks at once in `ProtocolOnRedis`: a worker's claim there takes one task.
- The tuple layout of gate events. In a whole-object error event the first field is a stripe number, in a success event a sub-range number.
- StripeGate.RunGate: the fault kinds are modelled, their message texts are not.
- Duplicate block ids in a load: scattering is claimed for distinct ids, as an indexed copy with repeated ids has no defined order.
