# SkyVault: a verified model

SkyVault is a small log-structured key-value store. A **batcher** turns write requests into sorted
write-ahead-log (WAL) objects in a bucket and a row in Postgres for each. An **orchestrator** claims
rows that nobody has compacted yet and schedules a job for them; a **worker** merges a job's WALs
into one shared run and swaps it in. An **index** answers reads by searching WALs, then shared runs,
then partitions, newest first, asking **cache** pods to look into single objects.

One question ties this together: does a read agree with the plain map in which the last writer of a
key wins? This project models the code that decides it and proves when the answer is yes.
`dafny verify dfyconfig.toml` checks everything.

## Layout

| files | what they hold |
|---|---|
| `Types`, `Varint`, `SSTable` | byte strings and their order, Go's unsigned varints, the object format: writer, reader, round trip, truncation |
| `Layers` | what an object means (a layer of keys), searching, overlaying and replaying a stack of layers |
| `Schema`, `Database` | table rows, what each SQL statement does; the tables and the bucket as objects |
| `Scheduling`, `Protocol`, `Invariant` | what a single orchestrator keeps true of the tables; the step system of the whole store; its invariant over every run |
| `Views`, `InOrder`, `OutOfOrder`, `Retries`, `Provenance`, `RealTime`, `Snapshots` | what one commit does to readers; whole runs; runs that go wrong; repeated jobs; which request an answer comes from; real-time order and durability; lists refreshed at different times |
| `Orchestrator`, `CompactWals` | the claiming transaction; the merge, the upload and the commit |
| `Batcher`, `BatchHandler`, `Dedup` | the batching loop as a state machine and as code; in-place sort and deduplication; writing a batch |
| `Cache`, `CacheHandler`, `Lookup` | the byte-bounded LRU of objects; looking keys up in one object |
| `Ring`, `Sorting`, `Index`, `IndexHandler` | pods and clients, sort.Slice, the read specification, BatchGet and the list refreshers |
| `EndToEnd`, `Store` | from the tables to BatchGet's answer; the services' code against one database and bucket as runs of the step system |

Code that changes state is written as classes and loops and proved against functions on values;
the theorems are about those functions. Methods that model a service's code state their whole new
state. `Store` runs the code of batcher, orchestrator, worker and index together: each call is at
most two legal steps of the protocol and one event of the batcher's state machine, and the two stay
linked, so that the theorems over all runs speak about the code and a client is told of success
only when the batch with its own writes has a row.

## What holds, and under which conditions

* **Steps.** Each SQL statement or transaction, each upload and each local move is one atomic step,
  and steps of all services interleave freely. seq_nos grow with inserts and may skip numbers.
* **One orchestrator, one commit per job.** The code discards the answers of the mark and of the
  delete, and the SQL always returns a row, so the `ErrNoRows` branches never run. With one
  orchestrator both answers are known to be true, unless there is nothing to mark or delete: an
  empty list makes `array_length` NULL and the answer false, which a threshold of at least 1 rules
  out (`Invariant.IgnoredAnswers`). A claim keeps the tables well scheduled if and only if the rows
  read are still the first unclaimed ones (`Scheduling.ClaimKeepsExactly`), which a second
  orchestrator can undo (`Scheduling.SecondClaimGoesWrong`); a reader can then be given the older of
  two writes although every commit took the oldest job (`OutOfOrder.StalledOrchestratorHidesAWrite`).
* **Commit order.** If jobs commit in the order they were scheduled, every read that does not fail
  is right (`InOrder.ReadersSeeLastWriters`, `EndToEnd.ReadsAreLastWrites`). In any order a key is
  right if no commit has disturbed it since it was last inserted, and the answer is then the last
  writer's among all requests with a row (`RealTime.LastWriterWins`). In general a commit that finds a
  key right leaves it right exactly under a condition on the live WALs
  (`InOrder.CommitIsRightExactly`); the workers do not enforce it, and `OutOfOrder.NewerJobFirst` is
  a run in which a reader gets the older of two writes back.
* **Sorting a batch.** `writeBatch` sorts with `sort.Slice`, which promises nothing about equal keys,
  while the comment beside it wants the last occurrence. The WAL keeps the last write of every key
  under every such sort if and only if no key is written twice with different outcomes in one batch
  (`Dedup.LastWriteWinsExactlyWithoutConflicts`); under a stable sort it always does.
* **Partition runs.** BatchGet gives every run of a partition the same keys and lets later answers
  overwrite earlier ones, which is newest-first lookup if and only if the runs share no key
  (`Index.PartitionRunsExactlyWhenDisjoint`). Nothing in the repository writes partition runs.
* **Errors of BatchGet.** The shared-run loop goes on when no key is left, and a cache refuses an
  empty key set. Where of the two pods asked about each object one answers, BatchGet fails exactly
  when the keys run out before the runs do or a key left over sorts before every partition. The
  first does happen with everything in order and up to date: `OutOfOrder.KeysRunOut` is a run after
  which the read of an acknowledged key fails because a newer run than the last one answers it.
* **Snapshots.** The index refreshes its lists separately. A run list not older than the WAL list
  keeps every answer current (`Snapshots.MixedSnapshotIsCurrent`). The other way round it fails:
  `Snapshots.NewerWalListExactly` says for which keys, one commit apart, `Snapshots.NewerWalListLater`
  which keys are safe any number of steps apart, and `OutOfOrder.NewerWalListLosesAWrite` is a
  reachable state in which a write is not found.
* **Empty requests.** BatchWrite refuses a nil list of writes but not an empty one, which only a
  caller in the same process can pass. A batch that holds nothing but empty requests when its timer
  fires is left without one (`Batcher.TimerLostExactly`).
* **Batch limit.** `Batcher.BatchSizes` and `Store` assume MaxBatchBytes of at least 1. With less, a
  batch without records is handed on, and `writeBatch` indexes an empty slice, exactly when some
  request has no writes (`Batcher.LowLimitHandsOnNothing`, `Batcher.LowLimitInstance`).
* **Entry cap.** The LRU library drops an entry beyond 1024 without currentSize being told. The books
  then overstate by exactly the bytes dropped (`Cache.BooksAreOffByLost`). Those bytes are capacity
  gone for good, though never more than maxSize (`Cache.LostIsCapacityGone`): a miss on an object
  that fits into the cache, but not beside what is lost, empties it first
  (`Cache.LostCacheHoldsOne`). After maxSize objects of one byte that is every miss on an object of
  more than 1024 bytes (`Cache.LibraryDrops`, `Cache.LargeMissesEmpty`).
* **Partition objects.** The bucket may hold any readable objects before the first step; what they
  say, read through the partitions, is the plain map the WALs are applied to. Later uploads do not
  take a name the partitions list.
* **Sizes.** A Go slice or string has at most 2^63 - 1 bytes. The byte format is proved for every
  list of records whose file is at most that long, which is the only precondition there.

Clocks, randomness and failures are nondeterministic choices or parameters: timers are events that
may happen once armed, object names are parameters that must be fresh and not empty, any call to the
bucket, the database or a cache pod may fail, and map iteration visits keys in any order. Where the
database or the bucket is declared reliable, or enough pods are declared answering, the methods are
also proved to succeed. The hash of the ring is an arbitrary function. The LRU library is a list in
order of use with 1024 entries at most.

## Model

| member | source | states |
|---|---|---|
| Types.LessMeans | internal/batcher/handler.go:204-206 | Go's order on keys: a proper prefix comes first, and otherwise the first byte that differs decides |
| Varint.RoundTrip | internal/sstable/reader.go:37-44 | a varint below 2^64 is read back as written, whatever follows, and takes at most ten bytes |
| Varint.Truncated | internal/sstable/reader.go:39-43 | a varint cut short is reported as truncated, never as another number |
| Varint.EncodeIsLeb128 | internal/sstable/writer.go:28-36 | the bytes written are the one LEB128 encoding: seven bits each, least significant first, the top bit on all but the last, and no superfluous last byte |
| Varint.DecodeTerminated | internal/sstable/reader.go:37-44 | any bytes that end a varint, superfluous ones included, decode to the number their low seven bits make up, unless there are more than ten or they leave 64 bits |
| Varint.DecodeUnterminated | internal/sstable/reader.go:37-44 | bytes that do not are cut short or, from the eleventh on, too long |
| Varint.Uvarint | internal/sstable/reader.go:39-44 | the shift-and-or loop, with its 64-bit wrap, decodes LEB128 capped at ten bytes and 64 bits |
| Varint.PutUvarint | internal/sstable/writer.go:28-36 | writes exactly the varint's bytes into the buffer and answers how many |
| Varint.AppendUvarint | internal/sstable/writer.go:61-68 | appends exactly the varint's bytes |
| SSTable.ComputeSize | internal/sstable/writer.go:14-42 | the size answered is the length of the file that will be written |
| SSTable.WriteRecords | internal/sstable/writer.go:45-76 | the bytes written are the file format's encoding of the records, laid out byte by byte as `SSTable.Layout` says |
| SSTable.ReadNext | internal/sstable/reader.go:38-82 | one turn of the reader's loop on any bytes: a record, the silent end, or a slice out of range, as `SSTable.ReadMeans` says |
| SSTable.Records | internal/sstable/reader.go:16-84 | the cursor loop terminates on any bytes and yields what the recursive reading of the format yields, on a file of the format its records (`SSTable.ReadsLayout`) |
| SSTable.LayoutExactly | internal/sstable/writer.go:45-76 | a file is the encoding of the records if and only if it is a byte 1 and then for each record the varint of twice the key's length, plus one for a tombstone, the key, and a put's length and value |
| SSTable.FirstByteTells | internal/sstable/writer.go:10-11 | the first byte of a record is odd if and only if it is a tombstone |
| SSTable.ShortRecord | internal/sstable/writer.go:53-73 | the bytes of a record with a key below 64 and a value below 128 bytes, one by one |
| SSTable.ReadsLayout | internal/sstable/reader.go:16-84 | every file laid out so, whoever wrote it, reads back as its records |
| SSTable.ReadMeans | internal/sstable/reader.go:38-82 | on any bytes: a length past the data ends the reading silently, one past Go's int slices out of range, any other gives the record; the wrap-around changes nothing else |
| SSTable.LengthPastInt | internal/sstable/reader.go:47-53 | a key length of 2^63 - 1 does slice out of range |
| SSTable.OtherVersion | internal/sstable/reader.go:24-34 | a file whose first byte is another version yields nothing |
| SSTable.RoundTrip | internal/sstable/reader.go:16-84 | a written file reads back as its records in order, tombstones without a value, and no panic |
| SSTable.Truncation | internal/sstable/reader.go:37-82 | every prefix of a written file yields exactly the records that are wholly in it |
| SSTable.FitIsMaximal | internal/sstable/reader.go:51-75 | the records said to fit a prefix do, and one more would not |
| Layers.ContentOfEncoded | internal/sstable/writer.go:44-76 | a written file says about every key what the records say |
| Layers.ReplayIsNewest | internal/index/handler.go:406-444 | searching a stack newest first answers as replaying it oldest first onto a plain map, tombstones included |
| Layers.FirstWinsIsOverride | internal/background/compact_wals.go:73-82 | first-wins from the newest WAL down equals overriding from the oldest up |
| Layers.CanonicalUnique | internal/background/compact_wals.go:84-90 | sorted records for a layer are unique: neither map order nor sort algorithm can show |
| Schema.ValidMeans | internal/database/write_ahead_logs.sql.go:104-124 | counting matches against the array length accepts exactly non-empty lists of distinct rows all in the wanted state |
| Database.Database.MarkWriteAheadLogsAsCompacting | internal/database/write_ahead_logs.sql.go:104-132 | true exactly when every listed row exists and is NEW; then just those become COMPACTING, otherwise nothing changes |
| Database.Database.DeleteWriteAheadLogs | internal/database/write_ahead_logs.sql.go:24-51 | true exactly when every listed row exists and is COMPACTING; then just those are gone, otherwise nothing changes |
| Database.Database.AddWriteAheadLog | internal/database/write_ahead_logs.sql.go:14-22 | a new NEW row above every seq_no given out before, or nothing |
| Database.Database.GetWriteAheadLogsToCompact | internal/database/write_ahead_logs.sql.go:78-102 | exactly the NEW rows, in any order |
| Database.Database.GetWriteAheadLogs | internal/database/write_ahead_logs.sql.go:53-76 | every row, in any order |
| Database.Database.AddSharedRun | internal/database/shared_runs.sql.go:14-22 | a new run above every earlier one, or nothing |
| Scheduling.ClaimKeeps | internal/orchestrator/handler.go:69-103 | claiming rows read earlier, with inserts and commits in between: the mark succeeds and moves exactly those rows to a new job |
| Scheduling.CommitKeeps | internal/background/compact_wals.go:101-134 | committing any pending job: the delete succeeds and removes exactly the job's rows |
| Scheduling.CompactingRowsArePendingJobs | internal/orchestrator/handler.go:69-103 | COMPACTING rows are exactly the disjoint union of the pending jobs' rows, and later jobs hold larger seq_nos |
| Scheduling.ClaimKeepsExactly | internal/orchestrator/handler.go:86-99 | marking and scheduling NEW rows read at any earlier moment, whatever the mark answers, keeps the invariant if and only if they are, in some order, the first unclaimed rows |
| Scheduling.SecondClaimGoesWrong | internal/orchestrator/handler.go:86-99 | a second claim of the same rows gets the answer false, schedules a second job all the same and breaks the invariant |
| OutOfOrder.StalledOrchestratorHidesAWrite | internal/orchestrator/handler.go:86-99 | an orchestrator that stalls between its read and its claim makes a reader see the older of two writes, with both answers false and every commit in order |
| Orchestrator.Handler.MaybeCompactWAL | internal/orchestrator/handler.go:69-103 | below the threshold nothing, otherwise mark and schedule in one transaction, or nothing, and that only if the database failed |
| Orchestrator.Handler.Tick | internal/orchestrator/handler.go:111-120 | keeps the scheduling invariant; a claim puts every NEW row into one new job, and with a reliable database there is one exactly when enough rows are NEW |
| Invariant.RunKeeps | internal/background/compact_wals.go:49-135 | every reachable state of all services keeps the invariant: objects exist and decode, uploads match their jobs, rows are in the history, written requests have landed |
| Invariant.IgnoredAnswers | internal/orchestrator/handler.go:85-93 | in every reachable state the ignored answers of mark and delete are true unless the list is empty, and a threshold of at least 1 rules that out |
| Views.CommitEffect | internal/background/compact_wals.go:101-134 | a commit in any order changes no key unless its newest live WAL is in the job and another live WAL holds it; then exactly that WAL's entry takes over |
| InOrder.CommitIsRightExactly | internal/background/compact_wals.go:101-134 | a commit leaves a right key right if and only if it does not disturb it or the WAL left on top says the same |
| InOrder.UndisturbedKeysAreRight | internal/background/compact_wals.go:49-135 | over whole runs with commits in any order, a key no commit has disturbed since it was last inserted reads as the last-writer-wins map of every WAL ever added |
| InOrder.OldestDisturbsNothing | internal/background/compact_wals.go:101-134 | committing the oldest pending job disturbs no key |
| InOrder.ReadersSeeLastWriters | internal/background/compact_wals.go:49-135 | over every run with commits in scheduling order, lookup in WALs, runs and partitions is the last-writer-wins map of every WAL ever added, tombstones included |
| OutOfOrder.NewerJobFirst | internal/background/compact_wals.go:101-134 | a concrete run in which the newer job commits first: a write submitted after another was acknowledged, and acknowledged itself, is hidden by it |
| OutOfOrder.NewerWalListLosesAWrite | internal/index/handler.go:249-298 | a reachable commit around which a newer WAL list and an older run list find nothing for a key that has a value before and after |
| OutOfOrder.KeysRunOut | internal/index/handler.go:428-433 | a run with every commit in order after which, with refreshed lists, the only key asked for is answered by a run that is not the last: BatchGet fails on an acknowledged key |
| Retries.RetriesRebuildTheSameRun | internal/background/compact_wals.go:49-99 | two executions of one job at any two moments of a run upload the same bytes |
| Provenance.RunTraced | internal/batcher/handler.go:202-255 | in every reachable state every entry of every object flushed or inserted was written, under that key, by a request of that very flush or row |
| Provenance.ReadsWereWritten | internal/index/handler.go:394-489 | for any commit order a reader is shown what the partitions hold or what some request with a row wrote under that key |
| RealTime.AcknowledgedFirst | internal/batcher/handler.go:98-123 | a write acknowledged before another is submitted has its row and object and the smaller seq_no, and what the rows say was written by their own requests |
| RealTime.NeverTheOlderWrite | internal/batcher/handler.go:98-123 | once the later write has a row, a reader of a key undisturbed since its last insert is shown what a request of that row or a newer one wrote, and never the earlier write or any other acknowledged before the later was submitted |
| RealTime.AcknowledgedIsDurable | internal/batcher/handler.go:98-123 | a write with a row, so every acknowledged one, is what a reader of a key undisturbed since its last insert is given, unless a request of its row or a newer one wrote the key with another outcome |
| RealTime.LastWriterWins | internal/index/handler.go:406-484 | such a key reads as the partitions hold it if no request with a row wrote it, and otherwise as a request of the newest row of all that did wrote it |
| Snapshots.MixedSnapshotIsCurrent | internal/index/handler.go:406-444 | WAL list of one moment and run list of a later one: every key is answered as the store stood at some moment between, for any commit order |
| Snapshots.NewerWalListExactly | internal/index/handler.go:249-298 | with the lists the other way round, one commit apart, a reader is answered as before or after the commit exactly when the job did not hold the only live word on the key or the older runs and partitions give the same answer |
| EndToEnd.ExpectedIsLookup | internal/index/handler.go:406-484 | the read specification over refreshed lists is the protocol's lookup |
| EndToEnd.ReadsAreLastWrites | internal/index/handler.go:394-489 | with refreshed lists and commits in order, what BatchGet answers is the last-writer-wins map of what the partitions held at first and every WAL ever added, cut down to the requested keys |
| EndToEnd.StaleReadsAreRecent | internal/index/handler.go:394-489 | with lists and objects of different moments, and partition objects there from the start, every key is answered as the store stood at some moment between the refreshes |
| EndToEnd.BaseStays | internal/index/handler.go:447-484 | what the partitions hold after any run is what the bucket held for them before the first step |
| OutOfOrder.PartitionsHoldData | internal/index/handler.go:447-484 | a bucket whose partition object answers a key at the third level of a read |
| Store.System.Accept | internal/batcher/handler.go:83-163 | exactly the well-formed requests are accepted; an accepted one is the protocol's submit step and the batcher's write event, with a record for each write: its key, a tombstone if and only if it is a delete, and otherwise the bytes put |
| Store.System.Turn | internal/batcher/handler.go:165-191 | timer, delivery, shutdown and a worker's receive are events of the batcher and no steps of the protocol |
| Store.System.WriteHeld | internal/batcher/handler.go:190-255 | a worker's write of the batch it holds, whose requests are proved submitted and new, is a legal upload step followed by a legal insert step, or stops on the way; what it answers is the batch's outcome |
| Store.System.Notify | internal/batcher/handler.go:193-196 | the reply loop is the batcher's notify event, and telling success is a legal acknowledge step: the request has a row |
| Store.System.ToldIsStored | internal/batcher/handler.go:113-123 | a client told of success finds its writes under every key undisturbed since its last insert, unless a request of the same row or a newer one wrote the key with another outcome |
| Store.System.WriteIsStored | internal/batcher/handler.go:82-163 | from the request as it came in to the read: a told request's write, undisturbed and unopposed, reads as nothing if it was a delete and otherwise as the bytes it put |
| Store.System.ReadRows | internal/orchestrator/handler.go:112-116 | the SELECT is the protocol's read step |
| Store.System.Compact | internal/orchestrator/handler.go:69-103 | on rows read earlier, with anything in between, the transaction is the protocol's claim step or changes nothing |
| Store.System.MergeJob | internal/background/compact_wals.go:49-99 | merging and uploading any pending job, any number of times, is a legal upload step, or changes nothing |
| Store.System.CommitJob | internal/background/compact_wals.go:101-134 | the transaction for a finished upload is the protocol's commit step for that job, or fails leaving the tables alone |
| Store.System.Read | internal/index/handler.go:394-489 | after any calls in which jobs committed in scheduling order, BatchGet with refreshed lists answers with the last writers' values or fails, and where one of the two pods of each object answers fails exactly when keys run out early or a key is in no partition |
| Dedup.DedupedFlattens | internal/batcher/handler.go:202-225 | for any key-sorted permutation: strictly increasing keys, the same key set, records of the batch |
| Dedup.DedupedIsLastOfGroup | internal/batcher/handler.go:208-225 | of every group of equal keys the last record stays |
| Dedup.StableIsLastWriteWins | internal/batcher/handler.go:203-225 | under a stable sort the batch becomes its last-write-wins map |
| Dedup.LastWriteWinsExactlyWithoutConflicts | internal/batcher/handler.go:203-225 | under every sort the code may use, last write wins if and only if no key was written twice with different outcomes |
| Dedup.DedupInPlace | internal/batcher/handler.go:209-225 | the two-index loop leaves that deduplication at the front of the slice |
| Dedup.SortAndDedup | internal/batcher/handler.go:202-225 | sorting and deduplicating in place flattens the batch, and is last-write-wins without conflicts |
| BatchHandler.CheckRequest | internal/batcher/handler.go:87-96 | accepts exactly the requests with a list of writes and no empty key |
| BatchHandler.Handler.AddWrites | internal/batcher/handler.go:141-156 | a request's writes, callback and bytes are appended to the batch, each write as a record with its key, its delete flag and the bytes it put |
| BatchHandler.Handler.ReceiveWrite | internal/batcher/handler.go:132-163 | receiving a request is the state machine's write event, flush included |
| BatchHandler.Handler.TimerFires | internal/batcher/handler.go:165-170 | the timer case is the timer event: a non-empty batch is handed on |
| BatchHandler.Handler.Shutdown | internal/batcher/handler.go:172-181 | closing answers every request of the current batch with an error and drops its records |
| BatchHandler.Handler.Take | internal/batcher/handler.go:189-191 | a worker takes the oldest queued batch |
| BatchHandler.Handler.Notify | internal/batcher/handler.go:193-196 | the next waiting request of a written batch gets the batch's answer |
| BatchHandler.WriteBatch | internal/batcher/handler.go:202-255 | success: a new row, an object that flattens the batch and matches SizeBytes, MinKey and MaxKey; failure, only if the bucket or the database failed: no row and no object changed |
| Batcher.ExactlyOneReply | internal/batcher/handler.go:126-198 | in every reachable state each accepted callback is in exactly one place and none is answered twice, so no capacity-1 channel blocks |
| Batcher.NothingStuck | internal/batcher/handler.go:126-198 | with at least one worker, once no batch can move and no reply is due, every accepted request has its one reply or is in the batch being collected |
| Batcher.RestIsReached | internal/batcher/handler.go:158-198 | with at least one worker, from every reachable state, queueing, taking, writing and replying in any order come to rest after exactly as many of them as the batches handed over still need: queueing, taking and writing each, and one reply for each callback |
| Batcher.RepliesAreOutcomes | internal/batcher/handler.go:171-198 | a reply is what writing the one batch answered that holds the request's own records, or the refusal of the dropped batch that holds them |
| Batcher.RecordsInArrivalOrder | internal/batcher/handler.go:126-198 | every batch, wherever it is, is made of consecutive requests, records and callbacks alike, and the batches follow one another in arrival order |
| Batcher.NoSendAfterClose | internal/batcher/handler.go:158-181 | nothing is sent on the closed queue |
| Batcher.BatchSizes | internal/batcher/handler.go:130-170 | at each loop head a batch counts its bytes, is below the limit and has a timer; each flushed batch is non-empty and was below the limit before its last request |
| Batcher.WriteHandsOverExactly | internal/batcher/handler.go:132-163 | in every reachable state a request makes the loop hand the batch over if and only if the records collected, its own included, have as many bytes as the limit; otherwise the batch stays under its timer |
| Batcher.FullOrTimedOut | internal/batcher/handler.go:158-170 | over every run each batch that left the loop left it when its timer fired or by a request that brought it to the limit |
| Batcher.TimerLostExactly | internal/batcher/handler.go:133-170 | in every reachable state in which the timer fires for a batch, the batch is left without one exactly when none of its requests has any writes |
| Batcher.EmptyRequestAlone | internal/batcher/handler.go:132-170 | it happens: one empty request, then its timer |
| Batcher.LowLimitHandsOnNothing | internal/batcher/handler.go:158-162 | with a limit below one a batch without records is handed on if and only if some accepted request has no writes |
| Batcher.LowLimitInstance | internal/batcher/handler.go:158-162 | one empty request is enough |
| Batcher.SpentStaysSpent | internal/batcher/handler.go:130-170 | a timer that has fired does not fire again for its batch |
| CompactWals.Merge | internal/background/compact_wals.go:73-82 | the loop over WALs and records keeps the first record of every key |
| CompactWals.FirstOfScanned | internal/background/compact_wals.go:73-82 | on decodable objects that is first-wins on what the objects say |
| CompactWals.MergeObjects | internal/background/compact_wals.go:73-90 | the records of the one canonical file of the merge, however the map is walked and sorted |
| CompactWals.SortDescending | internal/background/compact_wals.go:51-53 | the job's rows newest first, in place, and none lost |
| CompactWals.Worker.MergeAndUpload | internal/background/compact_wals.go:49-99 | an uploaded run is the file of the overlay of the job's WALs in seq_no order; nothing else in the bucket changes |
| CompactWals.Worker.CommitRun | internal/background/compact_wals.go:101-134 | all or nothing, and nothing only if the database failed: the run is in, the job's rows and no others are out, the job is gone, and the invariant holds |
| Cache.MakeRoomDrops | internal/cache/handler.go:64-70 | the eviction loop drops the shortest oldest-first prefix that makes room, or everything |
| Cache.ByteBound | internal/cache/handler.go:49-76 | over every sequence of fetches the cached bytes stay within maxSize, library evictions included |
| Cache.AddIsExact | internal/cache/handler.go:49-76 | with books that overstate by any amount, add evicts the least number of oldest entries that makes room by the books, never the one it replaces, and the books go off further by exactly the entry the library drops |
| Cache.ReplacedTwice | internal/cache/handler.go:59-75 | the one other case: replacing when even an empty cache looks too full subtracts the old value twice |
| Cache.BooksAreOffByLost | internal/cache/handler.go:161-187 | over every sequence of fetches currentSize is the cached bytes plus what the library has dropped, so exact if and only if that is nothing |
| Cache.LostIsCapacityGone | internal/cache/handler.go:64-75 | over every sequence of fetches no more than maxSize is lost, and unless a single entry is cached, the cached and the lost bytes together fit into maxSize |
| Cache.LostCacheHoldsOne | internal/cache/handler.go:64-75 | a miss on an object that fits into the cache but not beside what has been lost leaves the new entry alone in it |
| Cache.LostForGood | internal/cache/handler.go:64-75 | from one entry on, as long as only such objects are fetched, there are never two entries again |
| Cache.LibraryDrops | internal/cache/handler.go:35-37 | n one-byte objects, from 1024 up to maxSize, lose n - 1024 bytes |
| Cache.LargeMissesEmpty | internal/cache/handler.go:64-75 | after maxSize of them the cache is emptied by a miss on any object of more than 1024 bytes that fits |
| Cache.LeastRecentlyUsedFirst | internal/cache/handler.go:79-81 | over every sequence of calls the entries stand in the order of their last calls, so that the eviction loop drops the least recently used |
| Cache.AlwaysTheStoresBytes | internal/cache/handler.go:161-187 | over every sequence of calls, with objects appearing in the store and downloads failing in between, what is cached and what is returned are the store's bytes |
| CacheHandler.SizeAwareCache.Add | internal/cache/handler.go:50-76 | the loop is the specified add; it refuses exactly what is larger than the whole cache |
| CacheHandler.SizeAwareCache.Get | internal/cache/handler.go:79-81 | a hit moves the entry past all others, which keep their order, a miss changes nothing; the entries, their total, the byte bound and faithfulness to any store stay |
| CacheHandler.Handler.GetObjectData | internal/cache/handler.go:161-187 | returns exactly the store's bytes, from the cache if they are there, and keeps the bound |
| CacheHandler.Handler.Get | internal/cache/handler.go:117-158 | refuses an empty path or key set; otherwise found and deleted are what the object says about the keys |
| Lookup.AnswerTells | internal/cache/handler.go:142-152 | the two maps filled by the loop are the object's values and tombstones among the keys, nothing else |
| Ring.AlwaysConsistent | internal/index/handler.go:212-240 | over every sequence of pod events the ring has no duplicates and exactly the client map's endpoints |
| Ring.ServedIsRunning | internal/index/handler.go:212-240 | an endpoint has a client exactly when its latest event says running |
| Ring.FirstComeFirst | internal/index/handler.go:91-104 | over every sequence of pod events the members stand in the order in which their present stays in the ring began |
| Ring.Services.HandleEvent | internal/index/handler.go:212-240 | the event switch on the ring and the client map is the specified one and keeps them consistent |
| Ring.Services.Remove | internal/index/handler.go:97-104 | removes the first occurrence of a member |
| Ring.Services.GetClients | internal/index/handler.go:107-120 | fails only on an empty ring; two different clients, the hashed one first, whenever there are two members |
| Sorting.SortSlice | internal/index/handler.go:257-259 | a sorted permutation |
| Sorting.SortedByUnique | internal/index/handler.go:257-259 | rows without ties have one sorted order, whatever the algorithm |
| IndexHandler.Handler.RefreshWals | internal/index/handler.go:250-263 | the WAL list becomes the table newest first, or stays |
| IndexHandler.Handler.RefreshSharedRuns | internal/index/handler.go:275-288 | the run list becomes the table newest first, or stays |
| IndexHandler.Handler.RefreshPartitions | internal/index/handler.go:300-313 | the partitions become the table's rows by strictly increasing start key, or stay |
| IndexHandler.Handler.AskPod | internal/cache/handler.go:117-158 | whatever is in a pod's cache, its answer is the object's word on the keys, and with a reliable bucket it refuses only what BatchGet's caches may refuse |
| IndexHandler.Handler.LookupSSTable | internal/index/handler.go:359-391 | an answer is the object's word on the keys; for a stored object and some keys there is one whenever the path's first or second pod answers |
| Index.Search | internal/index/handler.go:453-455 | binary search finds how many partitions start at or below the key |
| IndexHandler.Handler.GroupByPartition | internal/index/handler.go:450-463 | an error exactly when a key is below every partition; otherwise every key is in the group of the partition holding it |
| IndexHandler.Handler.SearchWals | internal/index/handler.go:406-425 | after the WALs, found values and remaining keys are those of newest-first lookup |
| IndexHandler.Handler.SearchRuns | internal/index/handler.go:428-444 | the same after the runs; where one of the two pods of each run answers it fails exactly when a run that is not the last answers the last key |
| IndexHandler.Handler.SearchPartitions | internal/index/handler.go:447-484 | the remaining keys get their partitions' values, groups and answers taken in any order |
| IndexHandler.Handler.BatchGet | internal/index/handler.go:394-489 | without an error exactly the requested keys whose lookup is a value, with that value, which is one newest-first search through WALs, runs and the holding partition's runs when those share no key; where one of the two pods of each object answers an error exactly when keys run out early or a key is in no partition |
| Index.LastValueMeans | internal/index/handler.go:468-482 | what a partition answers is the value of the last of its runs that has one |
| Index.PartitionRunsExactlyWhenDisjoint | internal/index/handler.go:468-482 | asking every run and keeping the last value is newest-first lookup if and only if no two runs share a key |
| Index.ExpectedIsNewestFirst | internal/index/handler.go:406-484 | with key-disjoint partition runs the read specification is one newest-first search |
| Index.SeededPartitionHoldsAll | internal/database/migrations/00001_init.up.sql:46-47 | the partition seeded at the empty key leaves no key without a partition |

## Left out

- InOrder.ReadersSeeLastWriters: only for commits in scheduling order, because without an order it is false; the exact per-commit condition and a failing run are given beside it.
- Snapshots.MixedSnapshotIsCurrent: a WAL list newer than the run list is not covered, because it is false there; `OutOfOrder.NewerWalListLosesAWrite` shows it. That WAL deletions notify no watcher, so that a WAL list may stay stale for long, is allowed by the statement.
- Snapshots.NewerWalListExactly: exact for lists one commit apart. For lists further apart `Snapshots.NewerWalListLater` names keys that are safe; whether another key's answer agrees with the store at some moment depends on values happening to coincide.
- Invariant.RunKeeps: a second orchestrator, and a job committed by two executions, are not steps of the protocol.
- Dedup.SortAndDedup: last write wins only without conflicting writes in a batch, because the sort in use promises no more.
- Cache.AddIsExact: replacing an entry when the lost bytes leave no room is stated in `Cache.ReplacedTwice`; getObjectData adds only what it has not found, so it never replaces.
- Store.System.WriteHeld: takes upload and insert of one batch as one call, and one batcher, orchestrator, worker and index, so calls interleave only as wholes there; the theorems over runs of the protocol let every single step of any number of batchers and workers interleave.
- IndexHandler.Handler.CallCache: the RPC answers from the bucket and does not keep a cache per pod; `IndexHandler.Handler.AskPod` proves that a pod's code, whatever is in its cache, answers as CallCache says.
- IndexHandler.Handler.BatchGet: takes the objects of the bucket as they stand at the call and requires them to decode, which the protocol's invariant shows of every object it uploads.
- BatchHandler.WriteBatch: the batch is non-empty, which `Batcher.BatchSizes` proves of every flushed batch and `Store.System.WriteHeld` uses; a file that would not fit a Go slice is excluded.
- Batcher.ExactlyOneReply: a client that gives up waiting is not an event; its channel has room for the one answer.
- Postgres: sequence numbers given out in one order and committed in another, 64-bit overflow of sequences, and lost or late notifications.
- River: retry limits and discarded jobs. A job that is never committed stays pending, which the protocol allows.
- RPC, HTTP, Kubernetes watch transport, connections, migrations, metrics, logging, generated code and the stress client.
- Real time: batch age and tick period, and waiting in `shutdown`, which returns once the workers have been started.
- ListWriteAheadLogs, DeleteSharedRuns and the jobs table: unused by the modelled protocol.
- How evenly the ring spreads paths.
