# Verification of the import and read paths

A Dafny model of the parts of the store that are hardest to get right by reading: the importer's
duplicate detector, its per-region write throttle and its ingest latch; the admission, scaling and
timing of the unified read pool; the coprocessor's request tracker, stream loop, batched tasks and
checksum; and the two text transformations of the FFI generator. `dafny verify dfyconfig.toml`
checks the whole project.

| file | what it is about |
|---|---|
| `DuplicateSpec.dfy`, `DuplicateDetector.dfy` | which versions of a key are duplicates, stated over the whole CF_WRITE range, and the cursor machine that finds them batch by batch |
| `ThrottledWriter.dfy` | ref-counted semaphores per region, taken and returned without the lock, collected concurrently |
| `IngestLatch.dfy` | one latch per SST file, taken one at a time by many requests, with roll-back |
| `Admission.dfy` | memory quota and running-task gauge, interleaved at single atomic operations |
| `PoolScaling.dfy`, `TimeSlice.dfy` | the size of the pool, its running-task limit, its auto adjustment, and the moving average of time slices |
| `Tracker.dfy`, `StreamRequest.dfy` | the life of a coprocessor request: its stages and times, its stream |
| `TrackerSlab.dfy`, `BatchTasks.dfy` | the sharded slab of request trackers, and the batched tasks that use it |
| `Checksum.dfy`, `GeneratedText.dfy` | table checksums under a rewrite rule; the version file and the namespace filter |
| `Sums.dfy`, `Wrappers.dfy` | counting over sequences, repeated steps, and shared value types |

How to read it. A concurrent protocol is a `State`, a `Step` per atomic action, `Apply` for one
step (a step that is not enabled changes nothing) and `Run` for a sequence of steps; a theorem about
`Run` is a theorem about every interleaving. Objects that the source updates in place are classes,
whose operations are proved to be these steps, or a run of them. Where the source returns an error or panics,
the model returns an `Err` or a `None`. Clocks, CPU measurements, handler answers and scanner
results are inputs.

What the proofs bring out about the code, beyond what its comments say:

- In key-only mode the newest version of a duplicated key is missing from the report; the report
  is value mode's without the first version of each key (`KeyOnlyDropsNewest`).
- The running-task limit can be exceeded by up to the number of concurrent spawners minus one, and
  for every limit above zero, every such number and requests of any size that the quota has room
  for, some run does exceed it by that much (`LimitOvershoot`, `OvershootIsReached`). A limit of
  zero is strict (`NothingRunsAtZero`).
- The limit is a number that each pool handle keeps for itself: scaling changes it in the scaled
  handle, and spawners with another handle keep the limit they had.
- The optimistic test in the quota's `alloc` converts a negative difference to a huge unsigned
  number, so an overdrawn quota passes it. The second test catches every such case (`SoloQuota`,
  `QuotaNeverOversold`). The counter overshoots the capacity at most by what requests about to be
  refused have charged, and does not wrap round as long as these are few (`CounterBound`,
  `CounterNeverWraps`).
- Once the running-task limit has saturated, scaling forgets the per-worker limit. The exact condition
  under which it is kept is `ScalingKeepsLimitIff`; `SaturationForgetsTheLimit` is an instance.
- The time-slice mean divides by a count cut to 32 bits: it is the mean exactly when the count
  fits (`MeanIffCountFits`), and a multiple of 2^32 panics (`PanicsOnAMultiple`).
- The tracker's destructor tests a stage that can no longer hold at that point, so its deadline
  warning depends on the deadline alone (`Drop`).
- A batch that is dropped before its tasks finish leaves in the tracker slab exactly the entries
  that its unfinished tasks were given (`UnfinishedTasksStayInSlab`), and they stay for good
  (`DroppedEntriesStay`). A shard that has filled up with them refuses every later tracker
  (`FullShardRefusesForGood`), and one large enough dropped batch does that to all shards
  (`LeaksFillTheSlab`).
- After an error the detector loses what it had gathered for the current batch, which is less than
  a batch (`Detect`).
- The namespace filter is idempotent if and only if the kept module does not reach across the end
  of the root header (`FilterIsIdempotentIff`); `FilterIsNotIdempotentEverywhere` is an input on
  which it is not.

## Model

| member | source | states |
|---|---|---|
| DuplicateDetector.Detect | src/import/duplicate_detect.rs:54-222 | For every sorted range: the error is the range's first fault; the batches partition keys in order and concatenate to the declarative report of these keys; no key is split and no batch empty. Without a fault it is the whole report and all but the last batch hold at least 4096 pairs; with one, all do, and fewer than 4096 pairs are lost before the faulty key |
| DuplicateDetector.FilledMore | src/import/duplicate_detect.rs:58-65 | All batches but the last stay full as batches are added, and all of them while keys remain |
| DuplicateDetector.Detector.MoveToNextImportKey | src/import/duplicate_detect.rs:68-77 | From a key boundary, stops at the newest version of the next imported key; the keys passed over report nothing and have no fault |
| DuplicateDetector.Detector.SkipLockAndRollback | src/import/duplicate_detect.rs:146-163 | Stops on the key's next Put or Delete or exactly behind the key; nothing reported, no stopping version and no fault in between |
| DuplicateDetector.Detector.SkipAllVersion | src/import/duplicate_detect.rs:165-175 | Leaves the cursor exactly on the first entry of the next key, failing only if that entry cannot be read |
| DuplicateDetector.Detector.MakeKvPair | src/import/duplicate_detect.rs:177-198 | A key without a raw form is an error; else the value of the write or the error of looking it up; without a write an empty value |
| DuplicateDetector.Detector.PushDuplicate | src/import/duplicate_detect.rs:117-129 | Extends the key's report by the duplicate under the cursor, with the newest version in front the first time; its errors are the declared ones in their order |
| DuplicateDetector.Detector.InspectVersion | src/import/duplicate_detect.rs:104-142 | One data version: reported, skipped or the last one to look at, with the key's report and fault carried along exactly |
| DuplicateDetector.Detector.CollectCurrentKeyDuplicate | src/import/duplicate_detect.rs:79-144 | Appends exactly the declarative group of the key and ends on the next key's first entry, or returns exactly the key's fault |
| DuplicateDetector.Detector.TryNext | src/import/duplicate_detect.rs:54-66 | One batch is the report of a whole number of keys; it ends with the key that filled it or at the end of the range. An error is the first fault, reached before a batch was full |
| DuplicateDetector.Detector.Next | src/import/duplicate_detect.rs:204-222 | After an error or a None it returns None forever and moves nothing; otherwise a batch or the first fault |
| DuplicateDetector.AppendBatch | src/import/duplicate_detect.rs:54-66 | One more batch of whole keys keeps the batches a partition and their concatenation a report |
| DuplicateSpec.Scan.GroupEndIsBoundary | src/import/duplicate_detect.rs:146-175 | A key's versions are contiguous: no boundary lies inside, and any later boundary is at or behind the group's end |
| DuplicateSpec.Scan.GroupIsOneKey | src/import/duplicate_detect.rs:146-175 | A group holds versions of one user key and ends where another key begins |
| DuplicateSpec.Scan.KeysAreDistinct | src/import/duplicate_detect.rs:68-77 | In a sorted range two group starts carry different keys, so no key is collected twice |
| DuplicateSpec.Scan.ReportAppend | src/import/duplicate_detect.rs:54-66 | Reports of adjacent stretches of keys concatenate |
| DuplicateSpec.Scan.AfterStop | src/import/duplicate_detect.rs:107-141 | A delete, or the first data version at or below min_commit_ts, cuts off everything older |
| DuplicateSpec.Scan.FaultIffNotClean | src/import/duplicate_detect.rs:79-144 | A key fails exactly if its newest version is no Put, a record above its stopping version does not parse, a value it would report cannot be read, or the next key cannot be reached |
| DuplicateSpec.Scan.CleanIff | src/import/duplicate_detect.rs:79-144 | The same in terms of the records alone |
| DuplicateSpec.Scan.NewestFault | src/import/duplicate_detect.rs:85-94 | The error of a key whose newest version does not parse or is no put |
| DuplicateSpec.Scan.ScanFaultIffNotClean | src/import/duplicate_detect.rs:104-142 | The same for the versions of a key from any position on |
| DuplicateSpec.Scan.FailsLater | src/import/duplicate_detect.rs:54-77 | A fault found after uneventful keys loses no more than what had been gathered |
| DuplicateSpec.Scan.OlderTail | src/import/duplicate_detect.rs:104-142 | The report holds every duplicate of the newest version and nothing else |
| DuplicateSpec.Scan.ReportedIff | src/import/duplicate_detect.rs:104-142 | In terms of the records alone: an older version is reported if and only if it is a put, no delete and no older put lies above it, and it was imported or its GC fence is absent, zero or beyond min_commit_ts; the newest if and only if some older one is and values are asked for; nothing else is, and every pair has its version's key, timestamp and value |
| DuplicateSpec.Scan.ImportedDuplicateIsFound | src/import/duplicate_detect.rs:104-129 | Every put above min_commit_ts with no delete between it and the newest version is reported, with its short value or else its CF_DEFAULT value |
| DuplicateSpec.Scan.OnlyImportedDuplicatesAreFound | src/import/duplicate_detect.rs:104-129 | Of the versions above min_commit_ts nothing else is reported behind the newest |
| DuplicateSpec.Scan.ReportIff | src/import/duplicate_detect.rs:54-66 | The report of a range holds what some key of it reports, and nothing else |
| DuplicateSpec.Scan.UntouchedIsSilent | src/import/duplicate_detect.rs:68-77 | A key that the import did not touch reports nothing and faults only if it cannot be read |
| DuplicateSpec.Scan.LookupIff | src/import/duplicate_detect.rs:182-196 | The value of a write is its short value, else what CF_DEFAULT holds at its start timestamp; each of the two errors under its exact condition |
| DuplicateSpec.Scan.OlderShape | src/import/duplicate_detect.rs:104-142 | The duplicates have the key, strictly descending timestamps below the newest, and only the last may predate the import |
| DuplicateSpec.Scan.GroupShape | src/import/duplicate_detect.rs:104-142 | In value mode a group is empty or has at least two versions and starts with the newest; timestamps strictly descend; at most the last is at or below min_commit_ts |
| DuplicateSpec.Scan.TailIsMvccRead | src/import/duplicate_detect.rs:104-142 | A version at or below min_commit_ts is reported if and only if no Delete lies above it and an MVCC read at min_commit_ts finds a value, and it is that very version |
| DuplicateSpec.Scan.TailFromDuplicate | components/txn_types/src/write.rs:423-440 | A reported version at or below min_commit_ts is the one the read finds, its GC fence respected |
| DuplicateSpec.Scan.TailFromRead | src/import/duplicate_detect.rs:104-142 | What the read finds is reported, as the last version, unless the key was deleted since |
| DuplicateSpec.Scan.ReadIsNewest | components/txn_types/src/write.rs:423-440 | What an MVCC read finds passes its GC fence and has no newer Put or Delete at or below the timestamp |
| DuplicateSpec.KeyOnlyDropsNewest | src/import/duplicate_detect.rs:94-101 | Key-only mode reports the same keys, with the versions of value mode except the newest |
| ThrottledWriter.StepKeepsInv | src/import/raft_writer.rs:55-126 | Every atomic step keeps: a living write holds the very semaphore its region has in the map, regions do not share semaphores, permits are conserved |
| ThrottledWriter.RunKeepsInv | src/import/raft_writer.rs:55-126 | The same for every interleaving of writes, acquires, releases, drops and collections |
| ThrottledWriter.ThrottleHolds | src/import/raft_writer.rs:60-102 | In every interleaving at most max_permit writes of a region hold permits |
| ThrottledWriter.HoldersOfRegion | src/import/raft_writer.rs:60-102 | Available permits plus running writes of the region equal max_permit; a region without an entry has no running write |
| ThrottledWriter.QueuedWriteMayRunIff | src/import/raft_writer.rs:32-38 | A queued write can take a permit if and only if fewer than max_permit writes of its region run |
| ThrottledWriter.AcquireTakes | src/import/raft_writer.rs:32-38 | Taking a permit makes the write run: one more runs in its region, one permit less is free, nothing else changes |
| ThrottledWriter.ReleaseReturns | src/import/raft_writer.rs:76-101 | A write that ends gives its permit back: one less runs in its region, one permit more is free, nothing else changes |
| ThrottledWriter.DropEnds | src/import/raft_writer.rs:72-102 | A write that waits or has ended can be dropped |
| ThrottledWriter.QueuedWriteGetsItsTurn | src/import/raft_writer.rs:32-38 | From every state any queued write gets its permit once at most one other write of its region has ended |
| ThrottledWriter.AllWritesEnd | src/import/raft_writer.rs:72-102 | From every state all writes can come to their end |
| ThrottledWriter.HandlesCount | src/import/raft_writer.rs:111-114 | Handles are counted, and without one no write begins |
| ThrottledWriter.OneSemaphorePerRegion | src/import/raft_writer.rs:63-71 | Two living writes of a region share one semaphore, whatever the collector did in between |
| ThrottledWriter.MoveConserves | src/import/raft_writer.rs:32-38 | Taking or returning a permit conserves the sum of available and held permits of every semaphore |
| ThrottledWriter.WriteConserves | src/import/raft_writer.rs:60-71 | So does a new write, with or without a new semaphore |
| ThrottledWriter.VisitKeepsExactlyTheBusy | src/import/raft_writer.rs:119 | retain keeps an entry if and only if some living write belongs to its region, and touches no other entry |
| ThrottledWriter.DrainingPersists | src/import/raft_writer.rs:111-126 | While a collection of an idle map is under way no entry escapes it, whatever else happens |
| ThrottledWriter.SweepOne | src/import/raft_writer.rs:119 | One visit of retain leaves, of the entries visited so far, exactly those with a living write |
| ThrottledWriter.OneGcEmptiesTheMap | src/import/raft_writer.rs:111-126 | Once all writes are gone one whole try_gc leaves the map empty |
| ThrottledWriter.EverythingCanEnd | src/import/raft_writer.rs:55-126 | From every state outside a collection some run ends all writes and one collection then leaves the map empty |
| ThrottledWriter.Writer.Write | src/import/raft_writer.rs:55-73 | Refines the Write step: reuses the region's semaphore or stores a fresh one, and queues the write on it |
| ThrottledWriter.Writer.TryGc | src/import/raft_writer.rs:111-126 | With another handle it returns true and keeps exactly the entries with living writers, unchanged; as the last handle it returns false and changes nothing |
| IngestLatch.StepKeepsInv | src/import/ingest.rs:280-306 | Each single acquire, release or phase change keeps: a latched path has one owner holding it once, any other path has none |
| IngestLatch.RunKeepsInv | src/import/ingest.rs:280-306 | The same for every interleaving of any number of requests |
| IngestLatch.AdvanceBalances | src/import/ingest.rs:33-45 | What a request gains or gives up is what the latch set gains or loses, path by path |
| IngestLatch.LatchIsDisjointUnion | src/import/ingest.rs:33-45 | In every run the latch set is the disjoint union of what the requests hold |
| IngestLatch.IngestIsExclusive | src/import/ingest.rs:280-306 | Two requests that ingest at the same time have no file in common |
| IngestLatch.RepeatedFileConflicts | src/import/ingest.rs:282-294 | A request with a repeated file, or a file without a path, never ingests |
| IngestLatch.ReleaseFindsItsPath | src/import/ingest.rs:287-289 | Every release removes a path that is latched, and that its caller owns |
| IngestLatch.RefusalHasAnOwner | src/import/ingest.rs:33-37 | Taking a named path fails if and only if some request holds it at that moment |
| IngestLatch.NothingLatchedWhenIdle | src/import/ingest.rs:280-306 | When every request has ended the latch set is empty |
| IngestLatch.ArrivalDecides | src/import/ingest.rs:280-306 | In every state an arriving request that is left to itself ends ingested if and only if its files are distinct paths that nobody has latched, else conflicted, and leaves latches and other requests as they were |
| IngestLatch.ArrivalIngests | src/import/ingest.rs:282-302 | On the way it ingests with exactly its files latched on top of the others' |
| IngestLatch.Latch.ReleaseAll | src/import/ingest.rs:303-305 | Removes exactly the given paths, each of them found |
| IngestLatch.Latch.AcquireAll | src/import/ingest.rs:281-286 | Takes every latch it can get; it gets all exactly if the files are distinct paths that nobody else holds |
| IngestLatch.Latch.Ingest | src/import/ingest.rs:280-306 | Is a run of an arriving request's steps in any state of the other requests; conflicts if and only if a file repeats, has no path or is latched already; either way the latch set is as before; in between it holds exactly the request's files more |
| Admission.StepKeepsInv | src/coprocessor/endpoint.rs:877-899 | Every atomic step keeps the accounting of bytes and gauges, and the bytes of requests that have won the quota within the largest capacity so far |
| Admission.RunKeepsInv | src/coprocessor/endpoint.rs:877-899 | The same for every interleaving |
| Admission.ResourcesAreAccounted | src/read_pool.rs:156-196 | Memory in use is the bytes of the requests that charged and did not release; each gauge is the number of its spawned, unfinished tasks |
| Admission.QuotaNeverOversold | components/tikv_util/src/memory.rs:272-285 | Whatever the interleaving, admitted bytes stay within the largest capacity that was ever configured, and within the configured capacity as long as it is not changed |
| Admission.CapacityIsConfigured | components/tikv_util/src/memory.rs:226-262 | A capacity is taken as configured, at the start and later, except that it is cut to isize::MAX |
| Admission.PeakIsConfigured | components/tikv_util/src/memory.rs:259-262 | The largest capacity in force was at most the largest configured one |
| Admission.FreeNeverUnderflows | components/tikv_util/src/memory.rs:287-302 | The counter is never negative; free is never called with a size it ignores, nor with more than is in use, so neither special branch is taken |
| Admission.CounterBound | components/tikv_util/src/memory.rs:272-285 | The counter is at most the largest capacity so far plus 2^48 bytes for each request about to be refused, and at most 2^48 bytes for each charging request |
| Admission.CounterNeverWraps | components/tikv_util/src/memory.rs:272-302 | While these bounds stay within isize::MAX, the run with a counter that wraps round at isize is the run without: all of the above holds of it |
| Admission.RefusedHoldsNothing | src/coprocessor/endpoint.rs:888-898 | Refused and finished requests hold nothing: with only such requests both resources are at zero |
| Admission.AdvanceWithin | src/read_pool.rs:156-165 | One step of a request keeps running tasks plus spawners behind the check within max_tasks + n - 1 |
| Admission.LimitOvershoot | src/read_pool.rs:156-165 | With at most n spawners between check and increment, running tasks never exceed max_tasks + n - 1; strict for one spawner |
| Admission.OvershootIsReached | src/read_pool.rs:156-165 | For every limit above zero, every n and every request size of which the quota has room for max_tasks + n - 1, some run within that bound on spawners reaches max_tasks + n - 1 running tasks |
| Admission.NothingRunsAtZero | src/read_pool.rs:162-165 | With a limit of zero no task ever runs, so that the bound is exact there as well |
| Admission.SoloQuota | components/tikv_util/src/memory.rs:272-285 | Without interference a request gets the quota if and only if it fits, despite the wrap-around of the first test; a refused one leaves the counter as it was |
| Admission.SoloSpawn | src/read_pool.rs:156-165 | Without interference a request with quota runs if and only if its priority is below the limit; otherwise its quota is back |
| Admission.SoloOutcome | src/coprocessor/endpoint.rs:877-899 | Left alone, a request ends running, refused by the quota or refused by the pool, each under its exact condition, and takes both resources or neither |
| Admission.ReadPool.Alloc | components/tikv_util/src/memory.rs:272-285 | Succeeds if and only if the bytes fit and are no oversized allocation; on failure the counter is unchanged |
| Admission.ReadPool.Free | components/tikv_util/src/memory.rs:287-302 | Subtracts, stopping at zero; ignores oversized amounts |
| Admission.ReadPool.Spawn | src/read_pool.rs:156-165 | Counts a task in its priority's gauge if and only if that is below the limit |
| Admission.ReadPool.SpawnWithMemoryQuotaCheck | src/coprocessor/endpoint.rs:877-899 | Is a run of the request's steps; refused by the quota if and only if the bytes, the future's own size included, exceed 2^48 or do not fit, else by the pool if and only if the priority is at its limit; takes both resources or neither |
| Admission.ReadPool.TakeBoth | src/coprocessor/endpoint.rs:888-898 | Takes both resources or neither; each of the three results under its exact condition |
| Admission.ReadPool.Complete | src/coprocessor/endpoint.rs:892-895 | Is the last two steps of a running task: gives back its bytes and its place in the gauge |
| PoolScaling.SizesAgree | src/read_pool.rs:599-621 | Over every sequence of configuration tasks and ticks the handle's size is the runner's, core <= cur <= max(core, max), and cur is core while auto adjustment is off |
| PoolScaling.ConfigurationIsFollowed | src/read_pool.rs:599-621 | Per-worker limit, core size and auto adjustment are the last configured ones, the size is the configured one while auto adjustment is off, and a new limit takes effect at once |
| PoolScaling.StepKeepsLimit | src/read_pool.rs:252-287 | One event keeps the running-task limit at per-worker limit times size, saturating |
| PoolScaling.LimitFollowsSize | src/read_pool.rs:252-287 | Over every such sequence, as long as the product fits, the running-task limit is the last configured per-worker limit times the number of threads |
| PoolScaling.ScalingKeepsLimitIff | src/read_pool.rs:252-287 | From any state whose limit is per-worker limit w times s threads, scaling to n threads gives w times n if and only if w * s fits, or (MAX / s) * n saturates too |
| PoolScaling.SaturationForgetsTheLimit | src/read_pool.rs:264-266 | An instance: 2^63 - 1 tasks per worker on 4 threads become 2^62 - 1 on one |
| PoolScaling.NoReversal | src/read_pool.rs:48-53 | Under one load a tick in one direction is never followed by one in the other |
| PoolScaling.TickIff | src/read_pool.rs:661-692 | A tick adds a thread, and takes one away, under exactly the conditions that the source lists |
| PoolScaling.OneDirection | src/read_pool.rs:644-693 | Under a constant load the size moves in one direction only, over any number of ticks |
| PoolScaling.Settles | src/read_pool.rs:644-693 | Under a constant load it is at rest after at most max(core, max) - core ticks |
| PoolScaling.Grows | src/read_pool.rs:672-678 | While it still changes, a growing pool gains one thread per tick |
| PoolScaling.Shrinks | src/read_pool.rs:679-683 | While it still changes, a shrinking pool loses one thread per tick |
| PoolScaling.PassedOutwards | src/read_pool.rs:672-678 | Every size left behind on the way out is one at which the load wanted more threads |
| PoolScaling.PassedInwards | src/read_pool.rs:679-683 | Every size left behind on the way in is one at which the load wanted fewer |
| PoolScaling.ConfigRunner.RunTask | src/read_pool.rs:597-622 | Refines the events and keeps the invariant |
| PoolScaling.ConfigRunner.AdjustPoolSize | src/read_pool.rs:644-693 | Refines the tick and keeps the invariant |
| TimeSlice.WindowsPartition | src/read_pool.rs:375-406 | Accepted windows partition the sample history: their sums are last_sum and last_count; the mirror equals the average |
| TimeSlice.WindowIsAcceptedIff | src/read_pool.rs:392-405 | A window counts if and only if it holds samples of at least a tenth of a second; then its mean has weight 0.3; otherwise nothing changes |
| TimeSlice.MeanIffCountFits | src/read_pool.rs:398 | The 32-bit divisor gives the window's mean if and only if the count is below 2^32 |
| TimeSlice.PanicsOnAMultiple | src/read_pool.rs:398 | A window of 2^32 slices panics |
| TimeSlice.AverageStaysWithin | src/read_pool.rs:398-399 | The average stays between zero and the largest mean of an accepted window |
| TimeSlice.ApproachIsGeometric | src/read_pool.rs:398-399 | Blending the same mean k times gives m (1 - 0.7^k) |
| TimeSlice.AverageOfConstantMean | src/read_pool.rs:398-399 | After k windows of mean m the average is m (1 - 0.7^k) |
| TimeSlice.Inspector.Update | src/read_pool.rs:375-406 | Merges the levels and folds one window into the average, or keeps its samples for a later window |
| Tracker.StepBooks | src/coprocessor/tracker.rs:122-186 | Every legal transition under a monotone clock keeps the books: no gap and no overlap between the recorded times |
| Tracker.LifeBooks | src/coprocessor/tracker.rs:122-186 | The same over whole lives |
| Tracker.TimesAddUp | src/coprocessor/tracker.rs:122-266 | Schedule wait plus snapshot wait is total wait; process plus suspend is last finish minus first begin; the lifetime is wait, handler build, process and suspend plus exactly the gaps before the first and after the last item |
| Tracker.TimesAreTheClocks | src/coprocessor/tracker.rs:122-266 | Every recorded time is read off the clock at the transitions: the waits and the lifetime between theirs, processing from begin to end of each item, suspension from the end of each to the begin of the next |
| Tracker.ItemsAreTimed | src/coprocessor/tracker.rs:154-186 | The same for the items, from any stage on |
| Tracker.FastForwardTracks | src/coprocessor/tracker.rs:442-464 | From every stage the fast-forward is legal and ends in Tracked |
| Tracker.DropAlwaysReports | src/coprocessor/tracker.rs:442-464 | Wherever a legal life stops, dropping reports the request exactly once |
| Tracker.RequestTracker.OnScheduled | src/coprocessor/tracker.rs:122-131 | Refines the transition at some reading of the clock |
| Tracker.RequestTracker.OnSnapshotFinished | src/coprocessor/tracker.rs:133-142 | The same, legal only after scheduling |
| Tracker.RequestTracker.OnBeginAllItems | src/coprocessor/tracker.rs:144-152 | The same, legal only after the snapshot |
| Tracker.RequestTracker.OnBeginItem | src/coprocessor/tracker.rs:154-169 | The same; between items the pause is booked as suspension |
| Tracker.RequestTracker.OnFinishItem | src/coprocessor/tracker.rs:171-186 | The same; the item's time is booked as processing |
| Tracker.RequestTracker.OnFinishAllItems | src/coprocessor/tracker.rs:256-266 | The same; fixes the lifetime and reports |
| Tracker.RequestTracker.Track | src/coprocessor/tracker.rs:268-399 | Reports once and only right after the items finished, otherwise changes nothing |
| Tracker.RequestTracker.Drop | src/coprocessor/tracker.rs:442-495 | From every stage: ends Tracked with one report and balanced books, changes nothing if it was Tracked, books only the item under way; the warning is given whenever the deadline has passed |
| StreamRequest.HandleStreamRequest | src/coprocessor/endpoint.rs:726-794 | For every handler behaviour and every point of dropping: all answers but the last asked for are items with more to follow, element i carries answer i, a completed stream ended with a failure, a plain end or a finished item, and any other was dropped at an element or while the handler was at work; reported exactly once; one item per answer; the times in the elements add up to the request's totals |
| StreamRequest.PrepareHandler | src/coprocessor/endpoint.rs:731-755 | Reaches the loop exactly if nothing fails before; otherwise at most one element, an error |
| StreamRequest.AskHandler | src/coprocessor/endpoint.rs:758-770 | One item begins and, if answered, ends; the returned times are what the totals grew by |
| StreamRequest.Turn | src/coprocessor/endpoint.rs:757-791 | One turn leaves the stream underway, complete or dropped, each with exactly the elements it should have and times that agree with the tracker |
| StreamRequest.StreamLoop | src/coprocessor/endpoint.rs:757-792 | The loop ends for every answer sequence, with the same guarantees as the whole request |
| StreamRequest.Answered | src/coprocessor/endpoint.rs:772-791 | After passing on an answer the stream's elements are still those of the answers heard |
| StreamRequest.ExactlyAnswered | src/coprocessor/endpoint.rs:772-791 | Passing on an answer keeps elements and answers one for one, and says exactly whether the stream goes on, is complete or is dropped |
| StreamRequest.Heard | src/coprocessor/endpoint.rs:772-791 | Counts the answers up to and including the first that is a failure, a plain end or a finished item |
| TrackerSlab.TokenRoundTrip | components/tracker/src/slab.rs:145-173 | Shard, sequence number and key come back from the 64 bits of a token; the only one taken for the invalid token is the one with all bits set |
| TrackerSlab.FreeKey | components/tracker/src/slab.rs:108-115 | A vacant key; any vacant key can be the one |
| TrackerSlab.RemoveUndoesInsert | components/tracker/src/slab.rs:108-138 | A good token removes its entry and nothing else |
| TrackerSlab.StaleTokenRemovesNothing | components/tracker/src/slab.rs:108-138 | Once its entry is gone a token removes nothing, whatever its place is used for, within 2^26 insertions |
| TrackerSlab.ShardedSlab.InsertInto | components/tracker/src/slab.rs:108-121 | A full shard refuses with the invalid token and changes nothing; otherwise the token names the new entry |
| BatchTasks.StartBatch | src/coprocessor/endpoint.rs:668-716 | Is a run of the steps: one future per task in order, tasks that do not parse answered at once, the others in flight with or without an entry; the thread's shard counter moves by one for each task that asks |
| BatchTasks.StartedUntouched | src/coprocessor/endpoint.rs:668-717 | Whichever step starts the last task, none has been completed by then |
| BatchTasks.RunKeepsInv | src/coprocessor/endpoint.rs:646-718 | Every interleaving of any number of batches, refusals, completions, drops and other requests' entries keeps: shards within capacity, tokens and entries in agreement, responses matching their tasks |
| BatchTasks.BodyFollows | src/coprocessor/endpoint.rs:681-707 | A future keeps the body it was first completed with, or is in flight until its batch is dropped |
| BatchTasks.BatchAnswersEveryTask | src/coprocessor/endpoint.rs:646-718 | One response per task, in input order, with its task id and its own outcome, whatever the slab refused; no entry of the batch stays in the slab |
| BatchTasks.UnfinishedTasksStayInSlab | src/coprocessor/endpoint.rs:678-705 | At any moment a batch's slab entries are exactly the tokens of its unfinished tasks whose insertion was accepted |
| BatchTasks.TokensAreDistinct | components/tracker/src/slab.rs:108-121 | Two unfinished tasks never share an entry, although sequence numbers wrap round and keys are reused |
| BatchTasks.OthersComeAndGo | components/tracker/src/slab.rs:47-60 | Entries of other requests are made if there is room and go again |
| BatchTasks.DroppedEntriesStay | src/coprocessor/endpoint.rs:681-707 | The entries of a dropped batch stay in every continuation |
| BatchTasks.FullShardRefusesForGood | components/tracker/src/slab.rs:108-121 | Once dropped batches hold all places of a shard, every later task sent there goes without an entry |
| BatchTasks.LeaksFillTheSlab | components/tracker/src/slab.rs:21-30 | Some run gets there for all shards at once: one batch of as many tasks as the slab has places, started by one thread and dropped |
| Checksum.HandleRequest | src/coprocessor/checksum.rs:58-97 | The checksum, row count and byte count of the rows as they were before the rewrite; the first read error or foreign prefix is the result; other algorithms are refused |
| Checksum.RewrittenRow | src/coprocessor/checksum.rs:104-113 | Hashing from the old prefix's digest is hashing the original row, and its byte count is the original's |
| Checksum.RuleUndoesRewrite | src/coprocessor/checksum.rs:64-86 | A table moved to another prefix has, under the rule, the checksum it had before without one |
| Checksum.OrderIsIrrelevant | src/coprocessor/checksum.rs:77-86 | Under any rule, scans of the same rows in another order go through alike and give the same result |
| Checksum.SplitScansCombine | src/coprocessor/checksum.rs:77-86 | Under any rule, a split scan goes through if and only if both parts do, and its result is the xor and the sums of theirs |
| Checksum.ScanSumIsFold | src/coprocessor/checksum.rs:77-86 | The result of a request is the sum of what its rows contribute one by one |
| Checksum.TableSumCounts | src/coprocessor/checksum.rs:77-86 | A bit of the checksum is set if and only if an odd number of rows have it in their digest; the other two are the number of rows and their length |
| Checksum.XorLaws | src/coprocessor/checksum.rs:104-113 | Xor of words: bit by bit, commutative, associative, its own inverse |
| Checksum.TroubleIsFirst | src/coprocessor/checksum.rs:77-82 | The first row that is not read or has a foreign prefix decides about the error |
| Checksum.TroubleIff | src/coprocessor/checksum.rs:76-82 | The scan goes through if and only if every row is read and has the new prefix |
| Checksum.Digest.WriteAppends | src/coprocessor/checksum.rs:104-113 | Feeding two pieces is feeding their concatenation |
| GeneratedText.VersionRoundTrip | gen-proxy-ffi/src/lib.rs:68-87 | Reading a printed version file gives the version, for every 64-bit version |
| GeneratedText.NameIsFound | gen-proxy-ffi/src/lib.rs:68-76 | The first occurrence of the version's name is the printed one, whatever follows |
| GeneratedText.DecimalValue | gen-proxy-ffi/src/lib.rs:78-87 | Parsing a printed number gives the number |
| GeneratedText.ValueIsPositional | gen-proxy-ffi/src/lib.rs:68-76 | Digits are read as decimal places |
| GeneratedText.ParseIff | gen-proxy-ffi/src/lib.rs:68-76 | A number is read if and only if it is all digits and fits 64 bits |
| GeneratedText.Find | gen-proxy-ffi/src/lib.rs:26-38 | The first occurrence at or after a position, or none |
| GeneratedText.FilterIsIdempotentIff | gen-proxy-ffi/src/lib.rs:26-38 | Filtering twice is filtering once if and only if the kept module does not reach across the end of the root header |
| GeneratedText.BlockAfterRoot | gen-proxy-ffi/src/lib.rs:26-38 | A module behind the root header is found again right behind it in the output |
| GeneratedText.BlockAcrossRoot | gen-proxy-ffi/src/lib.rs:26-38 | A module across the end of the root header is found in the output with its own copy behind it |
| GeneratedText.FilterIsNotIdempotentEverywhere | gen-proxy-ffi/src/lib.rs:26-38 | An input on which filtering twice differs from filtering once |

## Left out

- Snapshots, iterators and range bounds: the detector is given the selected CF_WRITE range as a sequence; errors of opening and seeking the iterator are not modelled; a position whose timestamp cannot be split off, or that the iterator cannot reach, is `Unreadable`. Pairs carry the encoded user key.
- `SuspendDeadline`, `check_write_stall` and the body of `ingest_files_impl`: an easy flag, and engine behaviour that is not visible here.
- Cancelling an ingest future while it holds latches, and a pool shutdown that drops unfinished tasks: neither latch nor gauge is released on drop in the source.
- ThrottledWriter.StepKeepsInv: any queued write may take a free permit; the order in which a semaphore serves its waiters, closing a semaphore, and the engine write under the permit are not modelled.
- Admission.CounterNeverWraps: says nothing of a run in which so many requests charge at once that their bytes could pass isize::MAX.
- Admission.ReadPool.SpawnWithMemoryQuotaCheck: the sum of the two sizes is taken to fit a usize.
- The per-priority future pools behind the other read-pool variant, worker scheduling, resource control and task levels.
- PoolScaling.ConfigRunner.AdjustPoolSize: CPU measurements are inputs and reals; the notification of a size change is not modelled. Pools have at least one thread, and the runner starts with the size of its handle.
- TimeSlice.Inspector.Update: exact reals instead of rounded durations; the mirror is written in the same step.
- TimeSlice.WindowsPartition: for cumulative readings whose windows hold fewer than 2^32 samples, since other windows panic or are averaged wrongly.
- Tracker.RequestTracker.Track: that a report happens, and once; metrics, slow-query log, statistics and perf contexts are not modelled.
- The unary request path, the construction of a batched task's own request and the copying of its response fields: the outcome of a task is one value.
- BatchTasks.RunKeepsInv: a slab entry's content is only whose it is, and the key of a new entry is any vacant one; how futures are polled, what else other requests do, and the guarantee behind the memory-lock check are not modelled.
- Checksum.HandleRequest: the digest is any fold over bytes and words are sets of bits; the CRC-64 polynomial, the wrap-around of the counters and the storage scanner are not modelled.
- GeneratedText.FilterIsIdempotentIff: texts are sequences of characters, file reading and writing and the byte positions of multi-byte characters are not modelled.
- The plugin registry, configuration dispatch and validation, fuzz targets, dashboards and FFI entry points: they would only add easy members.
