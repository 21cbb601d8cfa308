# BeachDB, modelled and proved

BeachDB is a small log-structured storage engine: a write-ahead log, a skip-list memtable, sorted tables and a
manifest. This project models its storage core in Dafny and proves what the engine is for: acknowledged batches
survive crashes whole and in order, reads see the newest version through all layers, a flush never gets lost or
doubled, and whatever a crash leaves on disk opens again.

## How it is laid out

Bottom up, one module per component:

- `Basics`, `Coding`, `Keys`: integers with their widths, big-endian fields, the internal-key order and encoding.
- `Runs`: sorted lists of versions, the meeting point of memtable, table and reference model.
- `ReferenceModel`: the linear model memtable. `SkipList`: the heap structure that refines it.
- `Batches`, `Records`, `Wal`: batch codec, record framing (shared by log and manifest), log reader and writer.
- `Blocks`, `TableFormat`, `TableWriter`, `TableReader`, `TableCursor`: tables, from bytes to lookups and iterators.
- `Layouts`: the documented byte layouts, offset by offset, of everything the encoders write.
- `VersionEdits`, `Versions`, `ManifestReplay`: manifest edits, the version they fold to, replay from bytes.
- `EngineStore`: the layers and what a read sees through them.
- `EngineProtocol`: the engine as a state machine. A state is a disk (log with a synced prefix, manifest with a
  synced prefix, table files) and, while the process runs, memory and the goroutines inside a call. Steps are the
  stretches between lock operations and the points at which a crash leaves a different disk; failed syncs, failed
  table writes, failed manifest appends, waiting, waking, close, kill, power loss and reopening are all steps. A kill
  ends the process and leaves everything it wrote for the next Open to read, no more durable than it was; only what
  was still in the log's buffer may go. A power loss also takes what was not durable.
- `EngineLogs`, `EngineThreads`, `EngineDisk`, `EngineInvariant`: the invariant, kept by every step.
- `EngineTheorems`, `EngineDurability`, `EngineReplays`, `EngineViews`, `EngineQuietRuns`, `EngineOrderlyRuns`,
  `EngineCoordination`: the results about all runs, with their exact conditions. `EngineScenarios`: runs in which the
  engine does not do what one might hope.
- `DiskBytes`: from the bytes of log, manifest and tables to the records, edits and entries of the state machine.
- `EngineDB`: the database object with its fields, its loops and its heap, proved against the functions above;
  `OpenDB` goes from the bytes of a directory to a running database, `Close` back to durable bytes.
- `EngineRecovery`: the bytes a stop leaves, opened by `OpenDB`, give what the state machine's Open gives.
- `EngineObject`: the object refines the state machine. Opening, writing, flushing, each pass of the flusher, what a
  call does after each of its waits, and closing take it from one state of the machine to the one that a run of the
  machine's steps reaches.

Automatic induction is switched off on every lemma; inductions are written out.

`dafny verify dfyconfig.toml` checks everything.

## Main results

- Crash refinement, with its exact condition over all runs: `EngineTheorems.CrashRefinement`, `ReadsFoldIff`,
  `EngineDurability.CrashSafeIff`, `SyncedRunsShowFolds`.
- What every read returns in every reachable state: `EngineViews.ReachableView`, `SeenIff`.
- Repeated replay is harmless from every reachable state as long as no power is lost
  (`EngineOrderlyRuns.OrderlyReplayHarmless`), and with power losses exactly when
  `EngineQuietRuns.RepeatedReplayIff` and `EngineReplays.SeqnoNeverDecreasesIff` say.
- First hit wins is newest wins, in every reachable state: `EngineTheorems.ReadsAreNewest`.
- No lost wakeup, no deadlock, bounded waiting, single flight, conservation: `EngineCoordination`.
- Every disk the engine can leave opens (`EngineCoordination.DiskAlwaysOpens`), and its bytes with it
  (`EngineRecovery.Reopen`, for keys within the manifest's cap).
- The database object does what the state machine does: `EngineObject.Open`, `Write`, `Flush`, `FlusherPass`, `Close`;
  and reads show what was written: `WriteThenGet`.
- Damage is never taken for a write that did not get through: `Records.StopsIff`, `DamagedRecordIsError`,
  `EngineDB.DamagedLogIsRefused`.
- The packing of a table is determined by its entries and the block size: `TableWriter.OnlyDivision`. The order is
  dictionary order: `Keys.CompareIsOrder`.

## What turned out not to hold

- Open makes nothing durable: it reads the log the system has, fsyncs only the directory, and publishing a table does
  not sync the log. With sync on, a write killed between its write and its fsync is replayed by the next Open; if a
  flush then publishes it and the power fails, the batch is half applied (`EngineScenarios.KilledBatchesTear`), and
  reads and the sequence counter can go back without a write (`ReplayedWriteUndone`). Nothing acknowledged is lost
  (`EngineTheorems.AckedStays`). The exact conditions are `ReadsFoldIff`, `CrashSafeIff`, `SeqnoNeverDecreasesIff` and
  `RepeatedReplayIff`. With sync on only a power loss can take a read back: without one, any sequence of flushes,
  kills and reopenings keeps every read and never lowers the counter (`EngineOrderlyRuns.OrderlyReplayHarmless`);
  with sync off a kill can as well, by taking the log's buffer with it. A run that publishes tables only once the
  applied records are durable meets the first; with sync on, a run whose Opens each find their files durable, as after
  a close or a power loss, meets all of them.
- Without sync on write the same tearing needs no kill: a flush makes newer values durable in a table while the tail
  of the log is lost (`EngineScenarios.WithoutSyncBatchesTear`).
- With background flushing off, overlapping `Flush` calls can freeze an emptied memtable, and the failure of that
  flush refuses all further writes until restart (`OverlappingFlushesPoison`, `EmptyFlushIff`, `FailureIsPermanent`).
  With background flushing on it cannot happen (`FlusherNeverPoisons`).
- The manifest decoder caps an encoded key at 64 KiB and the encoder does not check, so one flushed table that
  starts or ends with a longer key makes the manifest unreadable (`DiskBytes.ManifestReopensIff`).
- The record encoder compares the limit with a length already cut to 32 bits (`Records.RecordRoundTrip`), so a
  payload of 2^32 bytes is accepted and lost (`OversizedRecordIsLost`).
- Replay's live set and the version disagree after a delete with the wrong level (`ManifestReplay.StreamInSyncIff`).

Where code and documentation differ the model follows the code: the synthetic lookup key has the put kind
(`internal/sstable/reader.go:297-303`) where `docs/formats/sstable.md:167` says 0xFF, and a table's index bounds are
caught by a short read rather than by a check of their own (`docs/formats/sstable.md:266`).

## Model

| member | source | states |
|---|---|---|
| `EngineTheorems.CrashRefinement` | engine/db.go:140-176 | Sync on, any run and any continuation of it, with kills, power losses and reopenings anywhere: every batch acknowledged in the first part is still in the log, in its place, and applied; the log is a subsequence, in order, of the batches appended, each whole; Open applies all of it; and reads show the fold of the applied batches at every point if and only if every Open of the run found a log that covers its tables |
| `EngineTheorems.ReadsFoldIff` | engine/db.go:455-500 | In every mode and over every run: reads show the fold of the applied records at every point of the run if and only if every Open in it found a log that names each key its tables hold a value for |
| `EngineTheorems.OpenShowsLogIff` | engine/db.go:455-500 | On any disk that satisfies the disk invariant: every Get after Open returns what the fold of the surviving log leaves if and only if that log names each key the tables hold a value for |
| `EngineTheorems.StepSeen` | engine/db.go:503-564 | No step of a running process changes what a Get returns, but for applying a batch, which shows it whole |
| `EngineDurability.CrashSafeIff` | engine/db.go:1100-1108 | In any reachable state: whatever a power loss keeps, Open shows the fold of the surviving log, if and only if the durable log names every key for which a table that may survive holds a value |
| `EngineDurability.DurablePublishingIsEnough` | engine/db.go:648-682 | In any mode: a run that publishes each table only when every applied record is durable satisfies the condition at every Open, and shows the fold throughout |
| `EngineDurability.SyncedRunsShowFolds` | engine/db.go:159-173 | Sync on: a run in which every Open finds its files durable, in particular one that is never killed, shows the fold throughout, however often the power fails |
| `EngineRecovery.Reopen` | engine/db.go:87-138 | From bytes to the state machine: OpenDB on any directory whose log, manifest and tables are what a stop may leave of a reachable state succeeds, and builds the layers and the next id that Open builds on that state’s disk cut at some records and edits |
| `EngineObject.Write` | engine/db.go:140-176 | The object refines the state machine: Write takes the object from one state of the machine to the state that the run for its outcome reaches - nothing when the record never got into the log, append and failed sync, or append, sync and one of the three ways to apply - with layers, id, failure, manifest and the records and durable part of the log file all agreeing afterwards |
| `EngineObject.Flush` | engine/db.go:570-645 | The same for a Flush call without a flusher: for each way it may go, the object ends in the state its steps reach - freeze, file, edit and installation, or freeze and the recorded failure - and the call returns success exactly when the memtable was empty or its flush went through |
| `EngineObject.ResumeWrite` | engine/db.go:411-450 | The same for a Write that waited for the flush slot and has been woken: it leaves, waits on, or rotates into the free slot, and success acknowledges the record it left in the log |
| `EngineObject.HandOver` | engine/db.go:587-615 | The same for a Flush call up to its wait, with the flusher running |
| `EngineObject.ResumeFlush` | engine/db.go:587-645 | The same for a Flush call that waited for the slot: leaving, waiting on, handing over, or writing the table itself; it does not ask again whether the memtable holds anything, and then fails on an empty one |
| `EngineObject.AwaitFlush` | engine/db.go:605-617 | The same for a Flush call that handed its memtable over: it returns success exactly when the slot is free, no flush has failed and the database is open |
| `EngineObject.FlusherPass` | engine/db.go:503-564 | The same for a pass of the background flusher: leaving, idling, dropping an empty memtable, publishing, or recording the failure; it goes on exactly while neither closed nor failed |
| `EngineObject.Close` | engine/db.go:268-331 | The same for a Close that finds nobody building a table: its steps, with the flusher leaving in between, end the process with everything durable, and when the object’s Close succeeds its log file is durably the records of that log |
| `EngineObject.Open` | engine/db.go:87-138 | The same for Open, from bytes: on what a stop leaves of a reachable state’s files, the object is in the state the machine’s Open reaches from the disk after that power loss, or after that kill when the whole manifest and the written log are there |
| `EngineObject.LogSurvives` | internal/wal/writer.go:46-90 | Whatever a power loss leaves of the object’s log file is what may remain of the machine’s log, at least the records that are durable there |
| `EngineTheorems.AckedStays` | engine/db.go:159-175 | Sync on: from any reachable state, over any run, an acknowledged record keeps its index and its batch and stays applied and acknowledged |
| `EngineTheorems.LogIsAppended` | engine/db.go:155-162 | In any mode the log is a subsequence, in append order, of the batches that writers appended: nothing is invented, reordered or split |
| `EngineTheorems.AcknowledgesOwnBatch` | engine/db.go:172-175 | A write that returns success acknowledges the record of the batch it was called with, applied; no other step acknowledges anything |
| `EngineReplays.SeqnoNeverDecreasesIff` | engine/db.go:360-383 | In any mode and any reachable running state: no run from here, kills and power losses included, ends with a lower sequence counter, if and only if the durable manifest’s last sequence plus the operations in the durable log reach the counter |
| `EngineReplays.SeqnoNeverDecreases` | engine/db.go:455-500 | Sync on: after a run whose Opens found their files durable no run at all lowers the counter |
| `EngineQuietRuns.RepeatedReplayIff` | engine/db.go:455-500 | Sync on and no record waiting to be applied: no run without writes - any number of flushes, failures, kills, power losses, cleanups and reopenings - changes what a Get returns, if and only if for every prefix of log and manifest a power loss may keep: a key the surviving log names folds to the same value as in the whole log, any other key of the log has that value in the surviving tables, and any key beyond the log reads the same in the surviving tables as in all of them |
| `EngineOrderlyRuns.OrderlyReplayHarmless` | engine/db.go:455-500 | Both modes, from every reachable running state with nothing waiting to be applied, whatever kills and power losses lie behind it: any sequence of flush, close, cleanup and Open steps without writes - kills too, with sync on - leaves every read as it was and never lowers the sequence counter, although each Open replays the whole log on top of tables that already hold it |
| `EngineOrderlyRuns.CloseLosesNothing` | engine/db.go:268-324 | A close makes everything durable in either mode: from every reachable running state with nothing waiting to be applied, a close, any power losses and cleanups and a reopening leave every read as it was and do not lower the sequence counter |
| `EngineOrderlyRuns.OrderlyRunsCountUp` | engine/db.go:360-383 | Both modes, from every reachable state: no run without power loss (and, without sync, without a kill), writes included, ends with a lower sequence counter |
| `EngineViews.ReachableView` | engine/db.go:179-240 | In every mode and every reachable running state, whatever kills and power losses lie behind it: a key that an applied record names reads as the fold of the applied records, and any other key as the tables the manifest names have it |
| `EngineViews.SeenIff` | engine/db.go:455-500 | In every reachable running state: every Get returns what the fold of the applied records leaves, if and only if those records name each key for which a table the manifest names holds a value |
| `EngineQuietRuns.RepeatedReplayHarmless` | engine/db.go:455-500 | Sync on, after a run whose Opens found their files durable (one without kills, say) and with nothing waiting: no run without writes, power losses included, changes a Get, and no run at all lowers the counter |
| `EngineTheorems.ReadsAreNewest` | engine/db.go:179-240 | In every reachable state, recovered ones included, the layers are ordered by sequence number and first-hit-wins is the reference model’s newest version over the union of all layers, tombstones included |
| `EngineInvariant.StepKeeps` | engine/db.go:140-176 | Every step keeps the whole invariant: disk, goroutines, layers, the link between memory and manifest; and, for steps that publish only once the applied records are durable, tables covered by the durable log and reads equal to the fold of the applied records |
| `EngineInvariant.ReachableInv` | engine/db.go:87-138 | The part of the invariant that needs no discipline of publishing holds in every reachable state |
| `EngineInvariant.BatchKeeps` | engine/db.go:159-175 | Applying the last log record keeps the disk invariant, the layering, every memtable key named by an applied record, and, where reads showed the fold of the applied records, that they do |
| `EngineInvariant.EditKeepsDisk` | engine/db.go:648-682 | Once a flush edit is in the manifest, its table is complete, newer than all others and within the edit’s LastSequence; and if every applied record was durable by then, all its keys are in the durable part of the log |
| `EngineInvariant.FlushEditNames` | engine/db.go:655-669 | A flush edit adds one table of level 0 under its id and size, its range is the smallest and the largest key in it, and it sets the next id and the last sequence, and nothing else |
| `EngineInvariant.PublishedIsFrozen` | engine/db.go:648-669 | What is published is the frozen memtable, from the file whose id the edit carries, which is the next place in the manifest |
| `EngineInvariant.ReplayShows` | engine/db.go:455-500 | Replaying a log over tables it covers shows exactly the fold of that log, although every operation in the tables is applied a second time |
| `EngineInvariant.OpenKeeps` | engine/db.go:959-1006 | What Open builds from a disk satisfies the invariant of a running process, with no more of the log durable than before |
| `EngineInvariant.CrashKeeps` | engine/db.go:1100-1108 | Whatever a power loss keeps of log and manifest, at least what was synced, the disk invariant survives |
| `EngineInvariant.KillKeeps` | internal/wal/writer.go:25-43 | Whatever a kill leaves of the log - everything written, and any part of the buffer behind it - the disk invariant survives, and nothing becomes durable by it |
| `EngineInvariant.CleanupKeeps` | engine/db.go:931-957 | Removing an unreferenced table file keeps the disk invariant |
| `EngineDisk.OpenSucceeds` | engine/db.go:959-1006 | On a disk that satisfies the invariant Open meets no duplicate AddFile, no missing counter and no missing table, and yields exactly the tables plus the replayed log |
| `EngineDisk.ManifestCounters` | engine/db.go:860-869 | Replaying an engine manifest leaves the id after its last table and the last edit’s sequence number |
| `EngineDisk.ManifestAdds` | engine/db.go:655-669 | The tables an engine manifest adds are 1, 2, ... in order |
| `EngineDisk.ManifestLive` | engine/db.go:849-857 | The duplicate-AddFile check never fires on an engine manifest, and the live set is exactly its tables |
| `EngineDisk.TablesLayered` | engine/db.go:908-925 | The readers Open collects are in layer order and hold nothing newer than the manifest’s last sequence |
| `EngineThreads.StepThreads` | engine/db.go:503-564 | Every step keeps: one lock holder, one flush, only justified sleepers, the flush working on the frozen memtable under the next id, the flusher present while it should be, writers only past a clean admission check |
| `EngineThreads.ResumeThreads` | engine/db.go:413-429 | A woken writer that finds the slot taken again, an error or a close keeps the goroutine invariant |
| `EngineThreads.CallerThreads` | engine/db.go:570-617 | Every move of a Flush caller, with or without a flusher, keeps the goroutine invariant |
| `EngineThreads.FlusherThreads` | engine/db.go:514-540 | Each look of the flusher at its loop condition, empty memtables included, keeps the goroutine invariant |
| `EngineCoordination.NoLostWakeup` | engine/db.go:433-452 | While the flush slot is free the only possible sleeper is the flusher, so Signal wakes it if it sleeps and otherwise nobody |
| `EngineCoordination.FlusherNeverLeftAsleep` | engine/db.go:514-518 | Flusher on, memtable frozen, no failure, not closed: the flusher exists and is awake |
| `EngineCoordination.SleepersHaveReason` | engine/db.go:413-429 | The flusher sleeps only with nothing frozen; any other sleeper has a flush under way, no failure, no close, and somebody working on that flush |
| `EngineCoordination.WaitersAreServed` | engine/db.go:586-611 | No deadlock: while anybody waits for a flush, either the lock holder or the goroutine doing the flush has an enabled step |
| `EngineCoordination.WorkerProgresses` | engine/db.go:525-561 | Every move of the goroutine doing a flush brings it closer to its end, in at most four moves, and the end, success or failure, wakes everybody |
| `EngineCoordination.WaitIsBounded` | engine/db.go:606-611 | In every run that keeps the process up, by the time the goroutine doing a flush has made as many moves as its stage says (at most four) there was a point at which nobody was asleep |
| `EngineCoordination.OthersLeaveWorker` | engine/db.go:541-546 | No step of another goroutine moves the one doing the flush, so waiting is bounded by its own moves |
| `EngineCoordination.SingleFlight` | engine/db.go:541-563 | At most one flush; it works on the frozen memtable; its file id is the next id throughout; while it publishes, the last durable manifest edit adds exactly that file with exactly those entries |
| `EngineCoordination.EntriesAreConserved` | engine/db.go:503-564 | No step loses or duplicates an entry: memtable, frozen memtable and tables together change only by a batch’s entries when it is applied |
| `EngineCoordination.FrozenIsNeverOverwritten` | engine/db.go:443-446 | The frozen memtable goes only by being published or, if empty, dropped; no step overwrites it |
| `EngineCoordination.DiskAlwaysOpens` | engine/db.go:648-700 | At every point of every run, for every disk a kill or a power loss may leave, Open succeeds, every referenced table is complete, and the next id is above all referenced ones |
| `EngineCoordination.CleanupIsHarmless` | engine/db.go:931-957 | Open after removing any unreferenced file comes up with the same store, counters and goroutines as without |
| `EngineScenarios.WithoutSyncBatchesTear` | engine/db.go:387-390 | Sync off: for any two batches that a Get tells apart at a shared key, the second putting another key too, there is a run after which Get returns the first batch’s value at the one and the second’s at the other; no choice of whole batches does that |
| `EngineScenarios.KilledBatchesTear` | engine/db.go:160-170 | Sync on: the same, when the process is killed between writing and fsyncing the second record, Open replays it, a flush publishes it, and the power fails |
| `EngineScenarios.ReplayedWriteUndone` | engine/db.go:473-499 | Sync on: from the process that replayed such a record there is a run without writes that changes a Get, and one that lowers the sequence counter |
| `EngineScenarios.OverlappingFlushesPoison` | engine/db.go:581-626 | Without a flusher, a run of two writes and three overlapping Flush calls ends in the empty-memtable failure |
| `EngineScenarios.EmptyFlushIff` | engine/db.go:586-622 | A call starts a flush of an empty memtable exactly when there is no flusher and it is a waiting call that wakes to a free slot and an emptied memtable |
| `EngineScenarios.EmptyFlushFails` | engine/db.go:1056-1058 | Such a flush never finishes a file or publishes; when it reports, the database has failed |
| `EngineScenarios.FailureIsPermanent` | engine/db.go:343-350 | After a flush failure no write is admitted and the failure stays, until the process stops |
| `EngineScenarios.FlusherNeverPoisons` | engine/db.go:528-537 | With the flusher on, no run ever meets the empty-memtable failure: the loop drops empty memtables |
| `EngineScenarios.FlushNothingFails` | engine/db.go:619-634 | The three steps by which a waiting caller freezes nothing and fails the database, losing no data |
| `EngineStore.FirstHitIsNewest` | engine/db.go:192-239 | On ordered layers the search memtable, frozen memtable, tables newest first finds the newest version of the union |
| `EngineStore.ApplyReads` | engine/db.go:360-383 | After a batch every key it names reads as its last operation on that key, every other key as before |
| `EngineStore.ApplyKeepsLayers` | engine/db.go:360-383 | Applying a batch keeps the layers ordered |
| `EngineStore.ApplyOpsEntries` | engine/db.go:360-383 | Each operation adds exactly one entry with a fresh, higher sequence number |
| `EngineStore.FreezeKeeps` | engine/db.go:444-446 | Freezing the memtable changes no read, no order and no entry |
| `EngineStore.PublishKeeps` | engine/db.go:689-694 | Moving the frozen memtable to the newest table changes no read, no order and no entry |
| `EngineDB.DB.Write` | engine/db.go:140-176 | The critical section of Write: refused exactly when closed, failed, unloggable or unsynced; a batch that fails to sync is not applied but its record stays in the log; otherwise the record is in the log, durable if sync is on, and the layers are the old ones with the whole batch applied, rotated or stalled by threshold and slot |
| `EngineDB.DB.ResumeWrite` | engine/db.go:411-450 | A woken Write is refused if the database was closed or a flush failed, waits on while the slot is taken, and otherwise freezes the memtable |
| `EngineDB.DB.Get` | engine/db.go:179-240 | On an open object: Get returns a value exactly when the first layer that knows the key has it, that very value, an empty one included; KeyNotFound exactly on a tombstone or absence; and an error exactly when a table that cannot be read comes before one is found. Where the tables can be read, the first hit is the one over the layers of the state machine |
| `EngineObject.WriteThenGet` | engine/db.go:140-240 | Read your own write, in every reachable state: after a Write that is not refused, Get of a key it names is Ok of the value of the last put on it, also an empty one, or KeyNotFound if its last operation is a delete; every other key, and after a refused Write every key, reads as before |
| `EngineStore.FoldIsLast` | engine/db.go:360-383 | The fold at a key is what the operation says that is last on it by position: the value put, an empty one included, or a tombstone |
| `EngineDB.NewestTableDecides` | engine/db.go:208-237 | Asking tables from the newest down: the answer, value, tombstone or error alike, is that of the newest table that does not say missing |
| `EngineDB.DB.ApplyOperations` | engine/db.go:360-383 | The loop over operations makes the layers those with the batch applied |
| `EngineDB.DB.Rotate` | engine/db.go:443-446 | Freezes the memtable behind a fresh one that shares nothing with it |
| `EngineDB.DB.LogBatch` | engine/db.go:155-170 | Exactly when appending or syncing fails, and what is in the log in each case |
| `EngineDB.DB.SyncLog` | engine/db.go:387-409 | Under any fault: success makes everything appended durable, failure changes nothing that was appended |
| `EngineDB.DB.Publish` | engine/db.go:648-700 | Success appends exactly the flush edit, which carries the length of the file of the table that joins the open ones, folds it into the version, moves the frozen memtable to the newest table and advances the id; failure leaves memory as it was |
| `EngineDB.DB.FlushFrozen` | engine/db.go:543-558 | Builds and publishes the frozen memtable’s table: one edit recorded and folded, the id advanced. If the table or the edit fails, the failure is recorded, the memtable stays frozen and readable, and manifest, version and id stay |
| `EngineDB.DB.FlushLoopPass` | engine/db.go:514-563 | One pass of the flusher: stops when closed or failed, waits when idle, drops an empty memtable without a manifest edit, flushes any other with exactly one edit or records the failure |
| `EngineDB.DB.FlushMemtable` | engine/db.go:570-645 | The synchronous Flush: no-op on an empty memtable; otherwise the memtable becomes the newest table with one edit and the next id, or stays frozen with the failure recorded and manifest, version and id as they were |
| `EngineDB.DB.HandOver` | engine/db.go:570-617 | Flush with the flusher running: refused, nothing to do, or the memtable frozen if the slot is free and the call waiting |
| `EngineDB.DB.ResumeFlush` | engine/db.go:587-645 | A woken Flush: refused, waiting on, handed over, or flushed on the spot, where an empty memtable is a failure that stays |
| `EngineDB.DB.Close` | engine/db.go:268-331 | The object is closed whatever goes wrong, its readers and its log with it; without a fault every appended byte of the log is durable |
| `EngineDB.DB.ReplayWAL` | engine/db.go:455-500 | Succeeds on exactly the logs that end cleanly or torn and whose payloads decode; then the layers have every operation of every whole record applied in order, and the rest of the file is cut off |
| `EngineDB.FlushChangesNoRead` | engine/db.go:619-644 | Either outcome of a flush leaves every read, the layering and the multiset of entries as they were |
| `EngineDB.WriteMemtableEntries` | engine/db.go:1033-1060 | Through the memtable’s iterator, the writer gets exactly the memtable’s entries in order; smallest and largest are the first and last key; empty is refused, and a repeated version is an error |
| `EngineDB.WriteSSTable` | engine/db.go:1064-1139 | The file is the table of the memtable’s entries packed to the configured block size, or to 4096 bytes when none is; the size handed back is the file’s, the range its first and last key; the reader is on that file and answers every read as the memtable did |
| `EngineDB.OpenReaders` | engine/db.go:908-925 | A reader on the table of each file of the version, in its order, or failure exactly when one is missing or its footer or index does not decode; damaged data blocks do not matter here |
| `EngineDB.CleanupOrphans` | engine/db.go:931-957 | Removes exactly the table files the version does not name |
| `EngineDB.OpenManifest` | engine/db.go:727-738 | The version and counters of the manifest’s edits, or of the bootstrap edit when there is no CURRENT |
| `EngineDB.OpenDB` | engine/db.go:87-138 | From bytes: Open succeeds exactly when the manifest replays, every named table opens and the log replays; there is a reader per table in version order, and the layers are the tables with all logged operations applied, numbered from the manifest’s last sequence; where the tables’ blocks can be read, reads show these layers; the log keeps its valid prefix, durable as far as it was; cleanup keeps the referenced files |
| `EngineDB.DB.RecoverLog` | engine/db.go:480-486 | Replays the log, cuts its torn tail, and opens the writer behind what is left, making nothing durable |
| `EngineDB.LogOpensIff` | engine/db.go:472-500 | A log replays if and only if all its whole records are batches and nothing, or a write that did not get through, comes behind them |
| `EngineDB.DamagedLogIsRefused` | engine/db.go:480-490 | A log with a damaged record anywhere does not open, however many good records stand before and behind it, so none of them is cut off |
| `EngineStore.ApplyOpsConcat` | engine/db.go:473-499 | Applying batches one after another is applying their concatenation |
| `DiskBytes.LogAfterCrash` | engine/db.go:473-499 | Any byte prefix of the log at least as long as its synced part decodes to the first k whole batches, k at least the synced count, and trimming leaves exactly their bytes |
| `DiskBytes.EveryCutRemains` | internal/wal/reader.go:40-92 | Conversely every such k is what some crash leaves: the record-level crash loses no case |
| `DiskBytes.WriterSurvivors` | internal/wal/writer.go:46-90 | What may survive of a log writer’s file is what may remain of its records: the link from the writer to the results on crash images |
| `DiskBytes.ManifestReopensIff` | internal/manifest/edit.go:37-37 | An engine manifest replays from its bytes if and only if every key in it is within the decoder’s 64 KiB cap |
| `DiskBytes.OversizedEditUnreadable` | internal/manifest/edit.go:321-336 | The edit of a flush whose smallest or largest key is over the cap is encoded without complaint and always refused by the decoder |
| `DiskBytes.BootstrapBytes` | engine/db.go:774-785 | The first edit of a fresh manifest, byte for byte: next file id 1, last sequence 0, log number 0 |
| `DiskBytes.ManifestAfterCrash` | engine/db.go:878-903 | Any surviving byte prefix of an engine manifest replays as its first k edits |
| `DiskBytes.VersionListsTables` | internal/manifest/version.go:93-104 | The version replay builds lists the tables in the order they were added |
| `DiskBytes.TableAnswersAsMemtable` | internal/sstable/reader.go:124-165 | From bytes: a table written with any block size and opened again answers every lookup as a scan of the entries |
| `ReferenceModel.Model.GetAt` | internal/testutil/model.go:60-88 | The loop over all entries finds the newest visible write, the last inserted among equal sequence numbers |
| `ReferenceModel.Model.PutAt` | internal/testutil/model.go:30-41 | Appends the write to the history |
| `ReferenceModel.Model.DeleteAt` | internal/testutil/model.go:44-54 | Appends the tombstone to the history |
| `ReferenceModel.RunRefinesHistory` | internal/testutil/model.go:60-88 | Reading a sorted list of all writes at a sequence number finds the same write as scanning their history, ties included |
| `ReferenceModel.RunSorted` | internal/memtable/skiplist.go:119-156 | Inserting a history one by one gives a sorted list of exactly its writes |
| `SkipLists.SkipList.FindPredecessors` | internal/memtable/skiplist.go:91-114 | Terminates inside every tower and returns at each level the last node below the key |
| `SkipLists.SkipList.Put` | internal/memtable/skiplist.go:119-156 | Keeps every level a sorted chain and no tower above the recorded level, and makes the contents the old ones with the entry inserted in front of those it ties with |
| `SkipLists.SkipList.WireAll` | internal/memtable/skiplist.go:139-148 | Rewiring level by level: afterwards each level links the old nodes and the new one in order |
| `SkipLists.SkipList.RaiseLevel` | internal/memtable/skiplist.go:122-135 | A taller tower raises the level and gets the head as predecessor on the new levels |
| `SkipLists.SkipList.Get` | internal/memtable/skiplist.go:164-202 | Equals a scan of the contents for the first version at or below the sequence number |
| `SkipLists.LevelIsSublist` | internal/memtable/skiplist.go:29-40 | Every level is a sublist of the level below |
| `SkipLists.LevelWalk` | internal/memtable/skiplist.go:91-114 | Following a pointer at a level goes to the next node of that level, or ends it |
| `SkipLists.Build` | internal/memtable/skiplist.go:119-156 | Any history put with any tower heights leaves the sorted list of that history |
| `SkipLists.ListRefinesModel` | internal/memtable/skiplist.go:164-202 | A list built from a history answers every read as the reference model does |
| `SkipLists.SkipListIterator.Seek` | internal/memtable/skiplist.go:263-279 | Stands on the first entry whose user key is at least the target |
| `SkipLists.SkipListIterator.SeekToFirst` | internal/memtable/skiplist.go:255-258 | Stands on the first entry |
| `SkipLists.SkipListIterator.Next` | internal/memtable/skiplist.go:288-292 | Moves one entry on, and stays at the end |
| `Runs.SeekIsScan` | internal/memtable/skiplist.go:164-202 | Seeking to (key, seqno) and looking at one entry is scanning for the first visible version |
| `Runs.SeekKeySplits` | internal/memtable/skiplist.go:263-279 | The synthetic key splits a sorted list at the target user key |
| `Keys.CompareAntisymmetric` | internal/keys/keys.go:36-52 | Swapping the keys flips the sign; zero means same user key and sequence number |
| `Keys.CompareTransitive` | internal/keys/keys.go:36-52 | The order is transitive, strictly where one step is strict |
| `Keys.CompareBytesIsLexicographic` | internal/keys/keys.go:36-40 | Comparing byte strings is dictionary order: negative if and only if, after a common prefix, the first has the smaller byte or ends where the second goes on; positive if and only if the other way round |
| `Keys.CompareIsOrder` | internal/keys/keys.go:36-52 | A key sorts before another if and only if its user key is first in the dictionary, or the user keys are equal and its sequence number is larger |
| `Keys.NumbersInOrder` | internal/keys/keys.go:55-74 | Between byte strings of one length, dictionary order is the order of the numbers they spell |
| `Keys.KeyRoundTrip` | internal/keys/keys.go:55-98 | A key comes back if and only if its kind is known |
| `Keys.KeyCanonical` | internal/keys/keys.go:77-98 | Bytes the decoder accepts are the encoding of what it returns |
| `Keys.Encode` | internal/keys/keys.go:55-74 | Filling the buffer field by field gives the encoding |
| `Coding.U32RoundTrip` | internal/util/coding/coding.go:82-90 | Big-endian 32-bit values come back from any position |
| `Coding.U64RoundTrip` | internal/util/coding/coding.go:94-102 | Big-endian 64-bit values come back from any position |
| `Coding.U32IsBigEndian` | internal/util/coding/coding.go:82-84 | A stored 32-bit value is four bytes that spell it in base 256, most significant first |
| `Coding.U64IsBigEndian` | internal/util/coding/coding.go:94-96 | And a 64-bit value eight |
| `Coding.TakeFieldCanonical` | internal/util/coding/coding.go:59-66 | A length-prefixed field that is read is the encoding of what was read |
| `Coding.ByteReader.ReadBytes` | internal/util/coding/coding.go:59-66 | Takes exactly the next n bytes or fails without moving |
| `Batches.BatchRoundTrip` | engine/batch.go:186-284 | Decoding an encoded batch gives it back, deletes without values, if and only if its lengths fit 32 bits |
| `Batches.DecodeBatchCanonical` | engine/batch.go:241-284 | Bytes the decoder accepts re-encode to the same bytes: no trailing data, wrong count or reserved bytes |
| `Batches.EncodeBatchInjective` | engine/batch.go:186-237 | Two batches with one encoding are the same batch |
| `Batches.CutBatchRefused` | engine/batch.go:241-284 | An encoded batch that is cut anywhere is refused |
| `Batches.TrailingBytesRefused` | engine/batch.go:278-284 | Bytes behind an encoded batch make it corrupt |
| `Batches.HeaderErrors` | engine/batch.go:241-266 | Another version is named as such before anything else; a short header or a set reserved byte is corrupt |
| `Batches.UnknownOperation` | engine/batch.go:241-284 | An operation that is neither put nor delete is named as such, whatever good operations come before it |
| `Batches.CutOperation` | engine/batch.go:241-284 | An operation cut behind its type byte is truncated |
| `Batches.EncodeOperations` | engine/batch.go:186-237 | The preallocated buffer is filled exactly |
| `Batches.Decode` | engine/batch.go:241-284 | The reader loop computes the decoding, error by error |
| `Records.NewFormat` | internal/record/record.go:67-83 | A magic of other than 8 bytes is refused; otherwise the format has that magic and that limit, where zero stands for 64 MiB |
| `Records.WalFormat` | internal/wal/record.go:15-21 | The log’s format is valid, with a limit of 64 MiB |
| `Records.ManifestFormat` | internal/manifest/record.go:15-21 | So is the manifest’s |
| `Records.RecordRoundTrip` | internal/record/record.go:99-155 | A record is read back if and only if its length is below 2^32, with the limit applied to the truncated length |
| `Records.OversizedRecordIsLost` | internal/record/record.go:99-105 | The failing input: a payload of 2^32 zero bytes passes the limit, since its length is written as zero, and is not read back, whatever follows it |
| `Records.NextCanonical` | internal/wal/reader.go:40-92 | A payload that is read is framed by exactly its own record |
| `Records.StopsIff` | internal/wal/reader.go:40-92 | On any bytes at all: the end exactly when nothing is left; truncation exactly when less than a header is left, or a good header announces more than is left; a checksum error exactly when the announced payload is there and does not match; and each header error exactly on its field |
| `Records.DamagedRecordIsError` | internal/wal/reader.go:80-88 | A record whose payload was replaced by other bytes of another checksum ends the reading with the checksum error, whatever whole records stand before it and whatever follows: it is never taken for a torn tail |
| `Records.TailDecides` | internal/wal/reader.go:40-105 | Where reading stops, and why, is decided by the bytes from the valid offset on |
| `Records.RecordLayout` | docs/formats/wal.md:20-36 | Below 2^32 bytes a payload is refused exactly when it is over the limit; otherwise the record is magic, 1, 1, the length, the checksum, the payload, at the documented offsets |
| `Records.Magics` | docs/formats/manifest.md:40-51 | The log’s magic is BEACHWAL, the manifest’s BEACHMAN |
| `Records.TornLog` | internal/wal/reader.go:40-92 | For every list of payloads and byte prefix: exactly the wholly contained payloads, then end of file on a boundary or truncation elsewhere, valid offset at the last boundary |
| `Records.WholeIsLargest` | internal/wal/reader.go:40-92 | The number of records read is the largest that fits |
| `Records.ValidPrefixIsRecords` | internal/wal/reader.go:96-105 | In any file at all, the bytes before the valid offset are the records that were read |
| `Records.RepairThenAppend` | engine/db.go:480-486 | Cutting any file at its valid offset and appending replays as the survivors followed by the new records |
| `Records.Encode` | internal/record/record.go:99-120 | One buffer, filled by offset; refused when the truncated length is over the limit |
| `Wal.Reader.Next` | internal/wal/reader.go:40-92 | One payload, end of file, truncation or corruption, and how far the valid offset moves |
| `Wal.Reader.ReadAll` | engine/db.go:472-500 | The loop of every replay reads exactly the log’s payloads and stops for the right reason |
| `Wal.Writer.Append` | internal/wal/writer.go:46-69 | The record goes behind everything appended, the buffer may spill, nothing durable changes |
| `Wal.Writer.Sync` | internal/wal/writer.go:72-90 | Success makes all appended bytes durable; failure, exactly when the writer is closed, a flush has failed or the system reports a fault, makes none durable for certain and, if the flush failed, sticks |
| `Wal.Writer.Close` | internal/wal/writer.go:93-126 | Closed whatever goes wrong, with what could be flushed in the file; success leaves every appended byte durable |
| `Wal.SurvivorsAreWholeRecords` | internal/wal/writer.go:72-90 | Of m synced records at least m survive any crash, and whole ones only |
| `Blocks.EntriesRoundTrip` | internal/sstable/block.go:52-90 | Entries come back from a block payload if and only if each can be stored |
| `Blocks.DecodeEntriesCanonical` | internal/sstable/block.go:52-90 | An accepted payload is the encoding of its entries |
| `Blocks.EncodedEntrySize` | internal/sstable/block.go:186-188 | Exactly the number of bytes an entry adds |
| `Blocks.UnsealOfSealed` | internal/sstable/block.go:31-48 | A sealed payload passes its checksum |
| `Blocks.ChecksumDecides` | internal/sstable/block.go:31-48 | A block is accepted if and only if its last four bytes spell the checksum of the rest; otherwise the error is the mismatch |
| `Blocks.SealedIff` | internal/sstable/block.go:31-48 | What is accepted as a payload is exactly what was sealed |
| `Blocks.DecodeBlockEntries` | internal/sstable/block.go:52-90 | The reader loop computes the decoding of the payload |
| `Blocks.BlockBuilder.Add` | internal/sstable/block.go:134-157 | Appends exactly the entry |
| `Blocks.BlockBuilder.Finish` | internal/sstable/block.go:161-171 | The sealed encoding of the entries added |
| `TableFormat.DecodeEncodedIndex` | internal/sstable/index.go:31-119 | Index entries come back in order |
| `TableFormat.DecodeIndexCanonical` | internal/sstable/index.go:67-119 | An accepted index is the encoding of its entries |
| `TableFormat.IndexBlockIff` | internal/sstable/index.go:67-119 | An index block is accepted if and only if it is a sealed index, and a wrong checksum is named as such |
| `TableFormat.IndexBlockErrors` | internal/sstable/index.go:67-119 | One that is refused is a checksum mismatch exactly when the stored checksum is another, and otherwise corrupt |
| `TableFormat.BuildIndexBlock` | internal/sstable/index.go:31-62 | The loop builds the sealed encoding of the index |
| `TableFormat.DecodeIndexEntries` | internal/sstable/index.go:67-119 | The reader loop computes the index or the error |
| `TableFormat.FooterRoundTrip` | internal/sstable/footer.go:65-111 | A footer comes back |
| `TableFormat.FooterCanonical` | internal/sstable/footer.go:83-111 | An accepted footer is the encoding of what was read |
| `TableFormat.WriteFooter` | internal/sstable/footer.go:65-79 | Fixed offsets are filled to the encoding |
| `TableFormat.IndexAt` | internal/sstable/writer.go:145-174 | The i-th index entry carries the i-th block’s last key, its offset right behind the blocks before it, and its size |
| `TableWriter.TableBlocksKeep` | internal/sstable/writer.go:55-92 | For any entries and block size: the blocks concatenate to the entries, none is empty, and each is within the target unless it holds one entry |
| `TableWriter.TableBlocksDivide` | internal/sstable/writer.go:69-82 | No avoidable split: each block but the last is so full that the next entry would have taken it over the target |
| `TableWriter.OnlyDivision` | internal/sstable/writer.go:55-92 | This determines the packing: a list of blocks is the one the writer makes if and only if it holds the entries in order, no block is empty or needlessly over the target, and none is closed early |
| `TableWriter.NewWriter` | internal/sstable/writer.go:28-53 | A block size that is not positive is refused; otherwise an empty writer with that target |
| `TableWriter.LastKeysIncrease` | internal/sstable/writer.go:145-174 | Last keys of later blocks are strictly larger |
| `TableWriter.Writer.Add` | internal/sstable/writer.go:55-92 | Refuses exactly keys not above the last one, or a closed writer; otherwise packs the entry, into a new block only if it would take a non-empty one over the target |
| `TableWriter.Writer.FlushCurrentBlock` | internal/sstable/writer.go:145-174 | The current block goes behind the others with its index entry, offset and count |
| `TableWriter.Writer.Close` | internal/sstable/writer.go:95-142 | The file is the table of the packed blocks: blocks, index, footer with the real totals |
| `TableReader.TableRoundTrip` | internal/sstable/writer.go:95-142 | What Close wrote opens, every block loads as it was packed, and the footer counts are the real ones |
| `TableReader.OpenTableIff` | internal/sstable/reader.go:26-63 | A file opens as a table if and only if it ends in that table’s footer and, where the footer says, holds its sealed index |
| `TableReader.LoadBlockIff` | internal/sstable/reader.go:182-222 | A block loads as these entries if and only if their sealed encoding stands where the index says |
| `TableReader.LoadBlockErrors` | internal/sstable/reader.go:182-222 | One that does not load is a checksum mismatch exactly when it is all there and the stored checksum is another, and otherwise corrupt: out of the file, too short, or no entries |
| `TableReader.DamagedBlockIsError` | internal/sstable/reader.go:182-222 | A block whose checksum does not match is an error, whatever it would decode to |
| `TableReader.LookupStopsAt` | internal/sstable/reader.go:124-165 | On any table that opens, damaged ones included: Get is decided by the first block it does not pass over, and fails with that block’s error if it cannot be loaded |
| `TableReader.SearchIsFirst` | internal/sstable/reader.go:169-179 | The binary search finds the first index entry not below the key |
| `TableReader.GetFromIsScan` | internal/sstable/reader.go:124-165 | Scanning adjacent blocks until one lacks the key misses no version, also when versions span blocks |
| `TableReader.LookupIsScan` | internal/sstable/reader.go:124-165 | Get equals a linear scan of all entries for the first version at or below the bound |
| `TableCursor.Reader.Get` | internal/sstable/reader.go:124-165 | The loop over blocks computes the lookup; a closed file reads as corruption |
| `TableCursor.Reader.SeekBlockIndex` | internal/sstable/reader.go:169-179 | The search loop computes the block to start in |
| `TableCursor.Reader.ScanBlock` | internal/sstable/reader.go:278-293 | First visible version of the key in a block, and whether the key is there at all |
| `TableCursor.OpenReader` | internal/sstable/reader.go:26-63 | Opens exactly the files whose footer and index decode |
| `TableCursor.Iterator.SeekToFirst` | internal/sstable/iterator.go:47-76 | Stands before all entries of the table |
| `TableCursor.Iterator.Seek` | internal/sstable/iterator.go:80-124 | Stands where the two-level search says |
| `TableCursor.Iterator.Next` | internal/sstable/iterator.go:128-155 | The next entry of the block, the first of the next block, or the end; a block that cannot be loaded ends the iteration with its error. On a written table the remaining suffix loses its first entry |
| `TableCursor.SeekLandsOnSuffix` | internal/sstable/iterator.go:80-124 | On a written table, Seek leaves exactly the entries from the first user key at or above the target, or none |
| `TableCursor.SeekStopsAt` | internal/sstable/iterator.go:80-124 | On any table that opens, damaged ones included: Seek is decided by the first block that is not wholly below the target, and fails with that block’s error if it cannot be loaded |
| `TableCursor.ReadAll` | internal/sstable/iterator.go:47-76 | SeekToFirst and Next enumerate every entry once, in order |
| `TableCursor.WriteThenRead` | internal/sstable/writer.go:55-142 | Write, close, open, iterate: the same entries |
| `VersionEdits.EditRoundTrip` | internal/manifest/edit.go:107-169 | An edit comes back, unset counters as zero, if and only if its keys have known kinds and fit the cap |
| `VersionEdits.UnknownTagRefused` | internal/manifest/edit.go:221-264 | A tag that is none of the five is named as such |
| `VersionEdits.EncodedSize` | internal/manifest/edit.go:130-147 | Exactly the number of bytes Encode writes |
| `VersionEdits.Encode` | internal/manifest/edit.go:107-126 | The preallocated buffer is filled to the encoding |
| `VersionEdits.DecodeVersionEdit` | internal/manifest/edit.go:154-169 | The tag loop computes the decoding or the error |
| `VersionEdits.DecodeTag` | internal/manifest/edit.go:221-264 | One tag and its fields |
| `VersionEdits.ReadLengthPrefixedBytes` | internal/manifest/edit.go:321-336 | The cap is checked before the bytes are |
| `Versions.Version.Apply` | internal/manifest/version.go:37-79 | A new version that is the old one edited; the old one is unchanged |
| `Versions.Version.Clone` | internal/manifest/version.go:24-32 | A fresh version with the same files |
| `Versions.Version.AllFiles` | internal/manifest/version.go:93-104 | All files, level by level |
| `Versions.ApplyConserves` | internal/manifest/version.go:37-79 | Old files without the dropped ones plus the added ones: nothing lost, nothing made up |
| `Versions.RemoveFirstInPlace` | internal/manifest/version.go:43-56 | A delete takes out exactly the first file with its id and leaves the others in their order |
| `Versions.LevelZeroKeepsOrder` | internal/manifest/version.go:37-79 | Level 0 stays in insertion order |
| `Versions.EachLevelIs` | internal/manifest/version.go:37-79 | Level by level: the files its deletes name at that level go, the files added at that level come behind the rest in edit order; above level 0 a level the edit names is a sorted permutation of that, every other is exactly that |
| `Versions.HistoryStaysSorted` | internal/manifest/version.go:113-120 | Over any edits every level above 0 stays sorted by smallest key |
| `ManifestReplay.StreamInSyncIff` | engine/db.go:849-859 | Over any stream of edits replay accepts: at every point the live set is exactly the ids in the version, each once, if and only if every edit’s deletes name the level the file is at and no file the same edit adds |
| `DiskBytes.EngineStreamInSync` | engine/db.go:849-859 | On an engine manifest the live set is the version’s ids at every point |
| `Versions.LiveSetInSync` | internal/manifest/version.go:37-79 | The same for one edit, from a version and a live set in step |
| `Versions.WrongLevelDeleteDesyncs` | internal/manifest/version.go:43-56 | A delete with the wrong level breaks the step: a concrete edit |
| `ManifestReplay.ReplayResult.ApplyEdit` | engine/db.go:842-871 | Folds an edit into version, counters and live set, or reports the duplicate |
| `ManifestReplay.ReplayManifestStream` | engine/db.go:878-903 | Succeeds on exactly the replayable manifests and yields their fold, valid offset and torn flag; each error names its cause; the live set it ends with is the version’s ids if the deletes were proper |
| `ManifestReplay.ReplayableIff` | engine/db.go:842-903 | A manifest replays if and only if nothing or an unfinished write comes behind its whole records, these are edits, none adds a live file, and one sets the next file id |
| `ManifestReplay.DamagedManifestIsRefused` | engine/db.go:878-903 | A manifest with a damaged record anywhere is refused |
| `ManifestReplay.CountersAreLast` | engine/db.go:860-869 | Each counter ends with the value of the last edit that sets it |
| `Layouts.KeyLayout` | docs/formats/sstable.md:66-75 | User key, eight bytes of sequence number, one byte of kind: 1 for a put, 2 for a delete |
| `Layouts.EntryLayout` | docs/formats/sstable.md:84-95 | Key length, key, value length, value |
| `Layouts.IndexEntryLayout` | docs/formats/sstable.md:138-150 | Key length, last key, offset, size |
| `Layouts.FooterLayout` | docs/formats/sstable.md:195-210 | Magic BEACHSST, version 1, index offset and size, block and entry count, checksum, at the documented offsets |
| `Layouts.FooterReads` | internal/sstable/footer.go:83-111 | On any 40 bytes: the wrong magic, the wrong version and the wrong checksum are each named exactly when they are the first thing wrong, and otherwise the fields are read from those offsets |
| `Layouts.BatchLayout` | docs/formats/batch.md:20-60 | Version 1, three zero bytes, the number of operations, the operations back to back |
| `Layouts.OperationLayout` | docs/formats/batch.md:62-80 | Type 1 with key and value, or type 2 with the key alone |
| `Layouts.AddedFileLayout` | docs/formats/manifest.md:62-80 | Tag 1, level, file id, size, smallest and largest key |
| `Layouts.DeletedFileLayout` | docs/formats/manifest.md:62-80 | Tag 2, level, file id |
| `Layouts.CounterLayout` | docs/formats/manifest.md:62-80 | Tags 3, 4 and 5 with eight bytes, for the counters that are set |
| `Layouts.EditLayout` | internal/manifest/edit.go:107-127 | The counters that are set in the order of their tags, then the deletes, thirteen bytes each, then the added files |
| `Layouts.DeletesLayout` | internal/manifest/edit.go:107-127 | Delete i stands thirteen bytes behind the one before it |
| `Layouts.AddsLayout` | internal/manifest/edit.go:107-127 | Added files follow each other in order, without gaps |
| `VersionEdits.DecodeCounter` | internal/manifest/edit.go:221-265 | A counter tag sets its counter, over whatever an earlier tag set it to, and decoding goes on behind it |
| `VersionEdits.BadKeyRefused` | internal/manifest/edit.go:280-315 | An added file whose smallest or largest key is too short for a key or of no known kind is refused as a corrupt key, whatever else it says |
| `VersionEdits.CutAdded` | internal/manifest/edit.go:280-336 | An added file cut anywhere behind its tag is refused as truncated |
| `VersionEdits.CutCounter` | internal/manifest/edit.go:221-250 | A counter with fewer than eight bytes left is refused as truncated |
| `VersionEdits.CutDelete` | internal/manifest/edit.go:267-277 | So is a delete with fewer than twelve |
| `Layouts.FieldCap` | internal/manifest/edit.go:321-336 | A field is refused as too large if and only if it is over 64 KiB |

## Left out

- Checksums are a parameter: every result holds for any function from bytes to 32 bits. Damage that changes the checksum is shown to be detected; which damage does is not claimed.
- File system calls, directory creation, bufio internals and fsync error detail: an abstract disk with a synced part stands for them; a log write that fails half way through a record is not a step.
- Removal of files and truncation of a torn tail are durable at once: an orphan or a torn tail that reappears after a power loss is not a state of the model. What survives a stop is a prefix of the file's latest contents.
- CURRENT and the naming of manifest files: installing CURRENT is one atomic step of Open, and orphan MANIFEST files are not modelled.
- Sequence numbers and file ids do not run out: steps that need one more require that there is one.
- EngineProtocol.WriterTake: the size threshold that triggers rotation is a free choice of the step, so memory estimates are not modelled; a batch too large for the log is a write that takes no step.
- EngineProtocol.TableTake: table files are entries here; TableReader and DiskBytes connect entries to bytes, within the widths of the format (a block or index under 4 GiB, which the writer casts without checking).
- EngineDB.DB.Write: up to the wait on the condition variable; ResumeWrite is what comes after. The batch must be under 2^32 operations and leave sequence numbers.
- EngineDB.DB.FlushMemtable: requires a memtable the table format can hold, and is the call up to its first wait, without the flusher; HandOver is the call with it, ResumeFlush and AwaitFlush what comes after the waits. A failing table write leaves no file behind here; partial files are in EngineProtocol.
- EngineDB.OpenDB: the sequence numbers for the whole log must be there, bounded by the log's length in bytes.
- EngineQuietRuns.RepeatedReplayHarmless: the histories are those whose Opens found durable files, because the runs after them may lose power; runs without power loss are harmless after any history (EngineOrderlyRuns.OrderlyReplayHarmless), and for the rest RepeatedReplayIff has the exact condition.
- EngineRecovery.Reopen: which records and edits are cut is left open within what a stop allows; the goroutines Open starts are not part of the object.
- EngineObject.Write: the object has no goroutines of its own, so the caller, the waiter to be woken and the free lock are given, and a call is followed from one wait to the next; likewise for the other calls.
- EngineObject.Flush: as FlushMemtable, for a memtable the table format can hold; a manifest append that fails leaves no edit behind here, and may leave one in EngineProtocol.
- The memtables of the state machine are sorted lists; SkipLists proves that the skip list holds exactly such a list, and EngineDB uses the skip list itself.
- EngineObject.Close: takes a moment at which nobody builds a table, where the source waits for it. A Close that meets a fault is no step of the state machine; what it leaves of the log file is a prefix of what was appended.
- EngineCoordination.WaitersAreServed: an enabled step, and WaitIsBounded counts the moves of the goroutine doing the flush, but not fairness of the scheduler.
- Close racing a caller's own synchronous flush, context cancellation and option parsing.
- The locks inside Batch, SkipList and the log writers, and copying of user slices: values are immutable here.
- Random tower heights are any height between 1 and the maximum.
- Versions.SortFiles: the order that sorting leaves among files with equal smallest keys is not fixed.
- internal/manifest/reader.go and writer.go: the same framing as the log with another magic, covered by Records and Wal for any magic.
- cmd/, examples, crashhook, metrics accessors and the model's list of keys: they add no algorithm.
