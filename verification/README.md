# Verified model of the launcher's core

Dafny models of the parts of the launcher whose correctness is hard to see from the code, with proofs of
what they promise. `dafny verify dfyconfig.toml` checks everything.

**Telemetry queue** (`cll-telemetry`). Events are newline-terminated records in files. The abstract value of
every batch is a sequence of records, read off the bytes on disk.

- `Records` splits bytes into records and says what the longest prefix within an upload's limits is.
- `Posix` is a disk with short reads, short writes and, if it is faulty, failing writes.
- `FileBatch`, `MultiFile`, `MemoryBatch` and `BufferedBatch` are the four batches, layered as in the program.
  `BufferedRuns` says over whole runs what the buffered one keeps.
- `FileQueue` is what `MultiFile` does to its files, file by file, whatever they hold.
- `Uploader` is the fetch, post and acknowledge protocol on one queue, `BufferedUpload` the same on the buffered one.
- `EventManager` interleaves adders, the main worker and the realtime worker, one mutex-protected operation per
  step, over the files of the critical queue. `CriticalQueue` and `RealtimeQueue` show that every interleaving of
  calls on a `MultiFile` and a `MemoryBatch` is a run of that machine. `EventRounds` says what whole rounds of its
  workers do, `EventQueues` which queue an event goes to.
- `DelayedTask` is the lock and condition-variable protocol that runs the workers, interleaved between every
  two mutex operations.

**Hooks** (`mcpelauncher-core`). `Hooks` models hook nodes as heap objects in a doubly linked list, and
`*orig` cells and relocation slots as words of a memory.

**Mods** (`mcpelauncher-core`). `ModLoader` is the depth-first loader over a shared, shrinking set.

**Text input** (`mcpelauncher-client`). `Utf8` is UTF-8 as in section 3 of RFC 3629. `TextInput` is the byte-level
editor and the editor over code points that it refines.

**Smaller pieces.** `Base64` follows section 4 of RFC 4648. `EpollState` is the kqueue-encoded state store and
`epoll_ctl`. `Joysticks` is the user-id allocator.

Where the code does not keep what it seems to promise, the model keeps the code as it is and the exact condition
is proved:

- A write that fails halfway leaves the descriptor beyond the end; the next append leaves a hole of that size, unless
  a fetch comes first (`FileBatch.FileEventBatch.AddEvent`, `FileBatch.FileEventBatch.GetEventsForUpload`). If the
  whole file was fetched before and is acknowledged after the failure, the hole is as long as the offset was
  (`FileBatch.FileEventBatch.OnEventsUploaded`).
- A compaction whose write fails goes on with the next buffer: the rest of the file is kept exactly if no write failed
  (`FileBatch.FileEventBatch.CompactFrom`).
- A record that fits no file leaves an empty file behind; if it was the only file, the batch is stuck and uploads
  nothing until it is reopened (`MultiFile.MultiFileEventBatch.AddEvent`, `Uploader.SendEvents`).
- With zero events allowed per post, the queue is dropped unsent up to the first record over 1 MiB; if there is none
  success is reported, and if there is one the drop path calls itself for ever (`Uploader.SendEvents`). An oversized
  first record is "uploaded" again and again as an empty body (`Uploader.ProgressIffFits`).
- A flush between fetch and acknowledge makes the buffered batch erase newer events than it uploaded, or erase past
  the end of its buffer (`BufferedBatch.FetchAddAck`, `BufferedRuns.ConservedIffSound`).
- An event added between an empty fetch and the second `hasEvents` is dropped unsent if an empty file and an empty
  newest one lie behind stored events that can all be posted (`EventManager.LossFreeIff`,
  `CriticalQueue.LeftoverLoses`).
- `sendEvents` on the buffered queue dereferences null when the fetch finds nothing, for example with an empty file
  left over and nothing stored (`BufferedUpload.SendEvents`, `BufferedUpload.LeftoverCrashes`).
- A realtime event that is too large for any post stays in front of its queue for ever: every round posts an empty
  body and reports success (`EventRounds.RealtimeDrainsIff`). A realtime post that fails moves the whole queue to
  disk, also what arrived during the post (`EventRounds.FailedRoundTransfers`).
- A symbol that is hooked again after its list has emptied gets no way to the original, until its oldest hook is
  deleted (`Hooks.Session`, `Hooks.RehookedCallsMiss`).
- `getLength` counts a four-byte character as four (`Utf8.LengthIffBmp`). Text and byte positions stay right, but the
  editor's count of code points drifts (`TextInput.CountIffBmp`), and a backspace at the start of the text then
  reads before it (`TextInput.DefinedIffClean`).
- Base64 input must not end in a line break (`Base64.TrailingBreaks`).
- An `epoll_ctl` call that the kernel refuses has changed the stored state all the same (`EpollState.EpollCtl`), so a
  descriptor counts as registered after an ADD that failed there (`EpollState.RegisteredIff`), and a DEL of a pipe or
  socket leaves its kind bit set (`EpollState.KindsIff`).

Conditions on callers appear as `requires`: events contain no newline (the JSON serializer escapes it), each queue
has one consumer, layers above `FileBatch` run on a disk whose writes do not fail, hook cells are distinct,
replacements are not null, and a hooked symbol's slots are not null when it is first patched. Statements about calls
through hooks are for replacements that differ from each other and from the original. Editor text is well-formed
UTF-8. Choices of the environment (chunk sizes of reads and writes, HTTP answers, the order of a
directory, time-outs, scheduling) are left open, so every statement holds for all of them.

## Model

| member | source | states |
|---|---|---|
| Records.RecoveredIsLongest | cll-telemetry/src/file_event_batch.cpp:34-59 | what recovery keeps ends in a newline and nothing after it holds one |
| Records.FlatLines | cll-telemetry/src/file_event_batch.cpp:34-59 | reading records back from any bytes loses exactly the torn tail |
| Records.LinesFlat | cll-telemetry/src/file_event_batch.cpp:98-100 | writing records and splitting the bytes is the identity |
| Records.LinesConcat | cll-telemetry/src/file_event_batch.cpp:68-96 | what is appended after a newline is split independently of what precedes it |
| Records.CutAt | cll-telemetry/src/file_event_batch.cpp:137-178 | cutting the bytes after k records cuts the record sequence at k |
| Records.LongestFitIsMaximal | cll-telemetry/src/memory_event_batch.cpp:18-39 | no whole-record prefix within both limits is longer than the fetched one |
| Posix.Disk.Read | cll-telemetry/src/file_event_batch.cpp:44-52 | a read returns some of the bytes at the offset, and none only at the end |
| Posix.Disk.Write | cll-telemetry/src/file_event_batch.cpp:81-92 | a write stores a non-empty prefix of the data at the offset, or fails and changes nothing |
| FileBatch.FileEventBatch.constructor | cll-telemetry/src/file_event_batch.cpp:13-19 | opening any file recovers exactly its complete records, with accurate cached size and count |
| FileBatch.FileEventBatch.CountEventsInFile | cll-telemetry/src/file_event_batch.cpp:34-59 | for every pattern of chunk sizes, the newline count is exact and the file is trimmed to its longest newline-terminated prefix |
| FileBatch.FileEventBatch.AddEvent | cll-telemetry/src/file_event_batch.cpp:68-96 | refused exactly when closed, finalized or over a limit; otherwise the record lands right after the last one; every failed write adds what it wrote to the gap, the next append leaves a hole of that size, and the cached size is right exactly if there was none |
| FileBatch.FileEventBatch.WriteAll | cll-telemetry/src/file_event_batch.cpp:80-92 | short writes add up to the whole record; a failing write restores the bytes but not the offset |
| FileBatch.FileEventBatch.GetEventsForUpload | cll-telemetry/src/file_event_batch.cpp:102-135 | null exactly for an empty batch or no events allowed; otherwise the longest whole-record prefix within both limits and 1 MiB, with an exact has-more flag; a fetch that reads heals an offset left wrong by a failed write |
| FileBatch.ScanRecords | cll-telemetry/src/file_event_batch.cpp:122-132 | the newline scan of the read buffer finds all whole records that the buffer and the count limit admit |
| FileBatch.FileEventBatch.OnEventsUploaded | cll-telemetry/src/file_event_batch.cpp:137-178 | the file loses exactly the acknowledged bytes and records, and a finalized file disappears with its last record; the gap that the next append leaves, also after an append that failed since the fetch; if a write failed, bytes behind the acknowledged ones are lost and the cached size is that of the file |
| FileBatch.FileEventBatch.CompactFrom | cll-telemetry/src/file_event_batch.cpp:153-177 | for every pattern of short reads, short writes and failing writes, overlapping in-place compaction leaves the old contents without the acknowledged prefix exactly if no write failed |
| FileBatch.UnreadStays | cll-telemetry/src/file_event_batch.cpp:162-172 | bytes not yet read by the compaction have not been overwritten |
| MultiFile.GetBatches | cll-telemetry/src/multi_file_event_batch.cpp:21-44 | whatever order the directory lists its files in, the ids come out ascending and complete |
| MultiFile.ListingUnique | cll-telemetry/src/multi_file_event_batch.cpp:21-44 | a set of ids has one ascending listing, so the order of the queue depends on the files alone |
| FileQueue.ExaminedQueue | cll-telemetry/src/multi_file_event_batch.cpp:60-77 | deleting empty files and opening the first other one leaves the queue unchanged; an empty queue that is not stuck keeps only its newest file |
| FileQueue.ExaminedTail | cll-telemetry/src/multi_file_event_batch.cpp:60-77 | an empty tail does not appear by the examination, and one survives it while there are events |
| FileQueue.ExaminedIsFirst | cll-telemetry/src/multi_file_event_batch.cpp:60-77 | unless the batch is stuck, a fetch reads the first file that holds anything |
| FileQueue.CutQueue | cll-telemetry/src/multi_file_event_batch.cpp:112-125 | acknowledging k entries of the file that is read takes the first k off the queue, and does not leave it stuck if that file had entries |
| FileQueue.HasEventsExact | cll-telemetry/src/multi_file_event_batch.cpp:127-130 | hasEvents is exact unless the last old file and the newest one are empty |
| MultiFile.MultiFileEventBatch.constructor | cll-telemetry/src/multi_file_event_batch.cpp:7-19 | opening a directory yields the records of its files in id order and never a stuck batch |
| MultiFile.MultiFileEventBatch.CheckOldestBatch | cll-telemetry/src/multi_file_event_batch.cpp:60-77 | opening and deleting old files leaves the queue unchanged; a newly opened oldest file has events |
| MultiFile.MultiFileEventBatch.Rollover | cll-telemetry/src/multi_file_event_batch.cpp:82-91 | rolling over keeps the queue and the pending fetch, uses a fresh id, and leaves an empty file behind exactly if the newest was empty |
| MultiFile.MultiFileEventBatch.AddEvent | cll-telemetry/src/multi_file_event_batch.cpp:79-93 | accepts exactly the records that fit an empty file and appends them at the end; which file they go to; exactly when an empty file is left and when the batch gets stuck |
| MultiFile.MultiFileEventBatch.GetEventsForUpload | cll-telemetry/src/multi_file_event_batch.cpp:95-110 | null exactly if no events are allowed, the batch is stuck or the queue is empty; otherwise the longest prefix of the first file within both limits, which is a prefix of the whole queue, empty only if the first record exceeds them; the has-more flag is set exactly if an old file was read or records of the newest remain; which files are deleted |
| MultiFile.MultiFileEventBatch.OnEventsUploaded | cll-telemetry/src/multi_file_event_batch.cpp:112-125 | removes exactly the records whose bytes were fetched, from the file they are in, whatever was added, rolled over or reconfigured since |
| MultiFile.MultiFileEventBatch.PendingIsFront | cll-telemetry/src/multi_file_event_batch.cpp:112-125 | the fetched bytes are still the first records of the queue when they are acknowledged |
| MultiFile.MultiFileEventBatch.HasEventsExact | cll-telemetry/src/multi_file_event_batch.cpp:127-130 | hasEvents also counts files without records; without such files it is exact |
| MultiFile.MultiFileEventBatch.HasEventsAfterFetch | cll-telemetry/src/multi_file_event_batch.cpp:127-130 | after a fetch hasEvents is exact unless the batch is stuck |
| MultiFile.MultiFileEventBatch.LayoutFacts | cll-telemetry/src/multi_file_event_batch.cpp:127-130 | the file-by-file view says what hasEvents answers, and its files joined are the queue |
| MultiFile.MultiFileEventBatch.SetFileLimits | cll-telemetry/src/multi_file_event_batch.cpp:132-139 | changing the limits changes neither the queue nor the pending fetch |
| MultiFile.Restart | cll-telemetry/src/multi_file_event_batch.cpp:7-19 | rebuilding the batch from the files that any completed operation left yields the same ids, the same queue and the same records file by file |
| MultiFile.Step | cll-telemetry/src/multi_file_event_batch.cpp:79-139 | each operation takes its records from the front, gives at most one record at the end, and lets no file exceed the limits |
| MultiFile.Run | cll-telemetry/src/multi_file_event_batch.cpp:60-139 | over every run of adds, fetches, acknowledgements, limit changes and restarts, uploaded ++ stored = initial ++ accepted, in order; while the limits stay the same no file ever holds more records or bytes than they allow |
| MultiFile.RoomIffWithin | cll-telemetry/include/cll/file_event_batch.h:24-26 | a record has room in a file exactly if the file respects both limits with it; it fits an empty file exactly if it alone does |
| MemoryBatch.MemoryEventBatch.AddEvent | cll-telemetry/src/memory_event_batch.cpp:5-11 | accepts exactly while below the limit |
| MemoryBatch.MemoryEventBatch.GetEventsForUpload | cll-telemetry/src/memory_event_batch.cpp:18-39 | the longest prefix of whole events within both limits, serialized |
| MemoryBatch.MemoryEventBatch.OnEventsUploaded | cll-telemetry/src/memory_event_batch.cpp:41-44 | erases as many events as the list counts, and says when that is more than there are |
| MemoryBatch.FileAndMemoryAgree | cll-telemetry/src/memory_event_batch.cpp:18-39 | on the same records and limits up to 1 MiB the file scan and the memory loop return the same bytes, count and flag |
| BufferedBatch.KeptIffFit | cll-telemetry/src/buffered_event_batch.cpp:61-67 | forwarding drops nothing exactly if every record fits an empty file |
| BufferedBatch.BufferedEventBatch.FlushInternal | cll-telemetry/src/buffered_event_batch.cpp:61-67 | a flush leaves the queue unchanged exactly if every buffered record fits an empty file |
| BufferedBatch.BufferedEventBatch.AddEvent | cll-telemetry/src/buffered_event_batch.cpp:7-14 | appends at the end, flushing exactly when the buffer is full |
| BufferedBatch.BufferedEventBatch.GetEventsForUpload | cll-telemetry/src/buffered_event_batch.cpp:16-33 | returns a prefix of disk ++ memory within both limits (the two unsigned subtractions do not wrap), empty only if the first record exceeds them, and says exactly when the list wraps a null pointer; with records on disk it takes the longest prefix of the first file that has any, and if that is the newest one and is taken whole, the longest prefix of file ++ memory, with an exact has-more flag; from memory alone, the longest prefix of memory |
| BufferedBatch.MergedPrefix | cll-telemetry/src/buffered_event_batch_private.h:49-80 | a merged list is one prefix of disk ++ memory |
| BufferedBatch.WrappedPrefix | cll-telemetry/src/buffered_event_batch_private.h:22-47 | a wrapped list is a prefix of disk ++ memory and reports buffered events as more |
| BufferedBatch.BufferedEventBatch.OnEventsUploaded | cll-telemetry/src/buffered_event_batch.cpp:35-49 | removes exactly the fetched prefix if no flush intervened or nothing came from memory; otherwise as many newer events are erased from memory, and it says when that goes past the end |
| BufferedBatch.FetchAddAck | cll-telemetry/src/buffered_event_batch.cpp:7-49 | fetch, any adds, acknowledge: with distinct events that fit a file, the acknowledgement is in bounds and uploaded ++ queue = old queue ++ accepted, exactly if the adds fit the free part of the buffer or nothing was fetched from memory |
| BufferedBatch.PutKeeps | cll-telemetry/src/buffered_event_batch.cpp:7-14 | adds keep every event in order if all of them fit a file, however often the buffer overflows |
| BufferedBatch.PutFlushes | cll-telemetry/src/buffered_event_batch.cpp:7-14 | once the buffer has overflowed, what it held at first is on disk |
| BufferedBatch.FlushedAckErasesNewer | cll-telemetry/src/buffered_event_batch.cpp:35-49 | a round with a buffer of one: the newer event is erased and the uploaded one stays |
| BufferedBatch.FlushedAckOutOfBounds | cll-telemetry/src/buffered_event_batch.cpp:35-67 | a round in which the acknowledgement after a flush erases past the end |
| BufferedRuns.ConservedIffSound | cll-telemetry/src/buffered_event_batch.cpp:7-67 | over every run of adds, flushes, fetches and acknowledgements of distinct events that fit a file: uploaded ++ stored = initial ++ accepted, in bounds, exactly if no flush comes between a fetch that takes from memory and its acknowledgement |
| BufferedRuns.Session | cll-telemetry/src/buffered_event_batch.cpp:7-67 | every sequence of calls on the batch is such a run, so the same holds of the batch |
| BufferedBatch.BufferedEventBatch.HasEventsExact | cll-telemetry/src/buffered_event_batch.cpp:51-54 | hasEvents is exact when the wrapped batch has no empty files |
| Uploader.SendList | cll-telemetry/src/event_uploader.cpp:11-58 | one post, and a second one of the same body exactly if the first was answered with 401, an upload step asks for a retry and one is allowed; success exactly if the last answer was a 200; a rate limit exactly if it was a 429 or 503 with a delay, which is passed on |
| Uploader.SendEvents | cll-telemetry/src/event_uploader.cpp:72-90 | with a positive count limit the longest prefix within the limits of the first file that has records is posted, compressed if it has several events, and removed exactly if the last answer was a 200; with a zero limit the queue is dropped unsent up to the first record over 1 MiB, and the call ends exactly if there is none; a stuck batch is left alone |
| Uploader.DropFirst | cll-telemetry/src/event_uploader.cpp:78-81 | fails exactly for a stuck or empty batch; otherwise removes the first event exactly if it is at most 1 MiB, and nothing if not |
| Uploader.ProgressIffFits | cll-telemetry/src/event_uploader.cpp:86-89 | a successful upload shortens the queue exactly if the first record fits the limits |
| BufferedUpload.SendEvents | cll-telemetry/src/event_uploader.cpp:72-90 | null is dereferenced exactly if the fetch finds nothing, a condition on the queue and the limits; otherwise exactly what a fetch takes is posted, and removed exactly if the last answer was a 200; if the files are stuck that comes from memory alone and the files stay as they are |
| BufferedUpload.LeftoverCrashes | cll-telemetry/src/event_uploader.cpp:86 | two empty files and an empty buffer: hasEvents is true and sendEvents dereferences null |
| EventManager.StepKeeps | cll-telemetry/src/event_manager.cpp:64-128 | every step of every thread keeps conservation, first-in first-out order and fetched lists in front |
| EventManager.RunKeeps | cll-telemetry/src/event_manager.cpp:64-128 | over every interleaving each accepted critical event is in exactly one queue, in transit, uploaded or lost |
| EventManager.NothingIsLost | cll-telemetry/src/event_manager.cpp:64-128 | with positive limits, fitting events and no empty file behind all events (or, under fixed limits, an event too large for any post before it), critical events leave their queue only in batches answered with 200, in order of arrival, and nothing is lost |
| EventManager.LossFreeIff | cll-telemetry/src/event_manager.cpp:64-128 | from any files: no run loses an event exactly if the upload limits are positive, every event fits a file, and there are not an empty old file and an empty newest one behind stored events that can all be posted |
| EventManager.LeftoverFileLoses | cll-telemetry/src/event_uploader.cpp:73-83 | from any such files, a run that uploads all stored events and then drops an accepted critical event unsent |
| EventManager.ZeroCountDrops | cll-telemetry/src/event_uploader.cpp:73-83 | with a zero count limit the first stored critical event is dropped unsent exactly if it is at most 1 MiB |
| EventManager.RealtimeDrops | cll-telemetry/src/event_uploader.cpp:73-83 | with a zero limit a realtime event is dropped unsent |
| EventManager.TransferLoses | cll-telemetry/src/event_manager.cpp:90-106 | a run in which a failed realtime upload loses an event that no file takes |
| EventRounds.FitCountIsLongest | cll-telemetry/src/memory_event_batch.cpp:18-39 | a fetch takes the longest prefix within both limits |
| EventRounds.RealtimeRound | cll-telemetry/src/event_manager.cpp:90-93 | a round of the realtime worker answered with 200, with anything else happening during the post: exactly the longest prefix of the queue within both limits moves to the uploaded events and nothing else changes |
| EventRounds.RealtimeDrainsIff | cll-telemetry/src/event_manager.cpp:90-93 | some number of such rounds, at most one per event, uploads the whole realtime queue in order, exactly if each event can be posted |
| EventRounds.FailedRoundTransfers | cll-telemetry/src/event_manager.cpp:93-102 | a failed post, with anything else happening during it: the critical events of the whole realtime queue that fit a file are appended to the critical queue in order, those that fit none are lost, and the realtime queue is empty |
| EventRounds.MainRound | cll-telemetry/src/event_manager.cpp:68-80 | a round of the main worker answered with 200, with anything else happening during the post: exactly the longest prefix within both limits of the first file that holds events moves from the front of the critical queue to the uploaded events |
| EventRounds.DropsAll | cll-telemetry/src/event_uploader.cpp:73-83 | with a limit of no events, turn by turn of the recursion, the drop path takes the front of the critical queue away unsent in order, for as long as it holds no event over 1 MiB |
| EventRounds.RealtimeDropRound | cll-telemetry/src/event_uploader.cpp:73-83 | with a zero limit a round of the realtime worker drops exactly the first event |
| EventRounds.LimitsAreLatest | cll-telemetry/src/event_manager.cpp:55-62 | over every run the workers go by the limits of the latest configuration change |
| CriticalQueue.CheckFollows | cll-telemetry/src/multi_file_event_batch.cpp:127-130 | hasEvents of the batch is what the machine says |
| CriticalQueue.Add | cll-telemetry/src/multi_file_event_batch.cpp:79-93 | addEvent changes the files as the machine does and accepts the same events |
| CriticalQueue.Fetch | cll-telemetry/src/multi_file_event_batch.cpp:95-110 | getEventsForUpload changes the files as the machine does and returns as many events, or null when it does |
| CriticalQueue.Ack | cll-telemetry/src/multi_file_event_batch.cpp:112-125 | onEventsUploaded changes the files as the machine does |
| CriticalQueue.SameFit | cll-telemetry/src/file_event_batch.cpp:122-132 | the longest prefix of records within the limits is as long as the machine computes from their sizes |
| CriticalQueue.Session | cll-telemetry/src/event_manager.cpp:64-128 | every sequence of adds, changes of limits and steps of the main worker on a batch, failed answers and the drop path included, is a run of the machine |
| CriticalQueue.LeftoverLoses | cll-telemetry/src/event_uploader.cpp:73-83 | on a real batch with two empty files: the fetch is null, a record is accepted, hasEvents is true and the record is dropped unposted |
| RealtimeQueue.FetchRealtime | cll-telemetry/src/event_uploader.cpp:72-86 | the fetch from memory, or the drop path with a zero limit, takes as many events as the machine does |
| RealtimeQueue.DoAnswer | cll-telemetry/src/event_manager.cpp:93-97 | acknowledging a posted list, or taking everything out after a failure, leaves in memory and in hand what the machine says |
| RealtimeQueue.DoMove | cll-telemetry/src/event_manager.cpp:96-102 | moving one event to disk changes the files as the machine does |
| RealtimeQueue.Session | cll-telemetry/src/event_manager.cpp:64-128 | every interleaving of adders, main worker, realtime worker and configuration changes on a real memory batch and a real file batch is a run of the machine: files, memory, limits and both workers end up where it does |
| EventQueues.Add | cll-telemetry/src/event_manager.cpp:108-128 | an event goes to the end of exactly one queue and the other two stay: a realtime event to memory while that has room, another critical one to disk, the rest to the buffer; exactly when it is dropped; which worker is asked to run, at once exactly if a realtime event found no room |
| DelayedTask.StepKeeps | cll-telemetry/src/task_with_delay_thread.cpp:9-57 | every step of requesters, workers and terminator keeps mutual exclusion, one live worker, the pending-request and the owed-notify invariants |
| DelayedTask.ReachableIsSafe | cll-telemetry/src/task_with_delay_thread.cpp:9-57 | in every reachable state at most one thread runs the function, a pending request has a thread that will test the flag again, and a request that is not pending has been followed by the start of a run |
| DelayedTask.NoLostWakeupNoDeadlock | cll-telemetry/src/task_with_delay_thread.cpp:14-56 | a worker that waits although it need not is owed a notify; a join under the mutex never blocks; after terminate has notified, the worker does not wait |
| DelayedTask.SomethingMoves | cll-telemetry/src/task_with_delay_thread.cpp:9-57 | with a request pending, the serving thread can move, or it waits for the mutex and the holder can release it |
| DelayedTask.ServedWithinSevenMoves | cll-telemetry/src/task_with_delay_thread.cpp:9-57 | whatever other threads do, a run begins after a request within seven moves of the serving thread |
| DelayedTask.EveryRequestIsServed | cll-telemetry/src/task_with_delay_thread.cpp:9-57 | in every infinite run, with or without further calls, in which a thread that can go on does so in the end and a worker that keeps finding the mutex free gets it, every request is followed by a run that begins after it |
| DelayedTask.RestIsComplete | cll-telemetry/src/task_with_delay_thread.cpp:9-57 | no deadlock: a run after which only new calls are possible has served every request, returned from every call and ended every thread |
| DelayedTask.RestIsFair | cll-telemetry/src/task_with_delay_thread.cpp:9-57 | every run that comes to rest, whether terminate was called or not, is one of the runs of the previous theorem |
| DelayedTask.TerminateReturns | cll-telemetry/src/task_with_delay_thread.cpp:33-41 | once terminate is called at most fourteen steps of all threads remain, after which it has returned and every request has been served |
| DelayedTask.ImmediateDoesNotWait | cll-telemetry/src/task_with_delay_thread.cpp:43-57 | from the body of requestRun(true) until a run begins after it, in every run, a waiting worker is owed a notify and a worker that tests the flag does not wait |
| DelayedTask.FlagsAreHistory | cll-telemetry/src/task_with_delay_thread.cpp:9-57 | in every run the pending flag is set exactly if a request came since the latest run began, the immediate flag exactly if requestRun(true) or terminate did, the stop flag exactly if terminate was called |
| DelayedTask.EveryRunHasAReason | cll-telemetry/src/task_with_delay_thread.cpp:14-25 | whenever the function runs, a whole delay has passed or a notify was sent since the worker last tested the flag, or requestRun(true) or terminate was called since the run before |
| DelayedTask.EveryRunIsDelayed | cll-telemetry/src/task_with_delay_thread.cpp:14-25 | while nobody asks for an immediate run or terminates, the function never runs before a whole delay has passed since the worker last tested the flag |
| DelayedTask.CountersCount | cll-telemetry/src/task_with_delay_thread.cpp:43-57 | the number of requests in the other rows is the number of calls whose body has run, the number served that before the latest run began |
| Hooks.CreateHook | mcpelauncher-core/src/hook.cpp:177-192 | the new hook is the newest of a well-formed list and goes on to the one before; the chain still ends at the original exactly unless the list was empty, the original known and the caller's cell does not hold it already |
| Hooks.DeleteHook | mcpelauncher-core/src/hook.cpp:204-219 | the list loses exactly that hook and its child goes on where it went on; deleting the oldest hook restores the way to the original |
| Hooks.ApplyHooks | mcpelauncher-core/src/hook.cpp:74-122 | for any symbol, every slot ends up at the newest hook, or at the original if there is none; the original becomes known exactly if there is a hook and a slot; no address changes but slots and first cells |
| Hooks.CallsMeetEveryHook | mcpelauncher-core/src/hook.cpp:74-117 | after applyHooks a call through a slot meets every live hook once, newest to oldest, and ends at the original, exactly if the oldest hook knows the original |
| Hooks.RehookedCallsMiss | mcpelauncher-core/src/hook.cpp:74-219 | hooking, patching, unhooking and hooking again: calls through the slots do not reach the original |
| Hooks.Session | mcpelauncher-core/src/hook.cpp:74-219 | over every sequence of creations, deletions and patchings the live hooks are those of the sequence, and their chain ends at the original exactly if the sequence says so: a hook created on an empty list with a known original breaks it, deleting the oldest hook mends it |
| Hooks.PatchedSession | mcpelauncher-core/src/hook.cpp:74-219 | after such a session and applyHooks, a call through any slot meets all live hooks newest to oldest and then the original, exactly under that condition |
| Utf8.DecodeEncoded | mcpelauncher-client/src/utf8_util.h:5-26 | the encoding of section 3 of RFC 3629 is undone by its decoding |
| Utf8.EncodeInjective | mcpelauncher-client/src/utf8_util.h:5-26 | the bytes determine the code points |
| Utf8.EncodeShape | mcpelauncher-client/src/utf8_util.h:8-14 | a character is a lead byte and continuation bytes; getCharByteSize is its length for up to three bytes, and 1 for every byte of a four-byte character |
| Utf8.GetLength | mcpelauncher-client/src/utf8_util.h:16-24 | the loop computes the count that the next two rows are about |
| Utf8.CountedText | mcpelauncher-client/src/utf8_util.h:16-24 | on well-formed text the count is the number of code points plus three for each four-byte one |
| Utf8.LengthIffBmp | mcpelauncher-client/src/utf8_util.h:16-24 | it is the number of code points exactly if none takes four bytes |
| TextInput.CharStart | mcpelauncher-client/src/text_input_handler.cpp:34-36 | scanning left from a character boundary finds the previous one |
| TextInput.CharEnd | mcpelauncher-client/src/text_input_handler.cpp:42-44 | scanning right from a character boundary finds the next one |
| TextInput.TextInputHandler.Enable | mcpelauncher-client/src/text_input_handler.cpp:4-8 | shows the text with the cursor at its end |
| TextInput.TextInputHandler.Update | mcpelauncher-client/src/text_input_handler.cpp:10-15 | shows the text with cursor and anchor at its end |
| TextInput.TextInputHandler.Disable | mcpelauncher-client/src/text_input_handler.cpp:17-23 | clears the editor |
| TextInput.TextInputHandler.OnTextInput | mcpelauncher-client/src/text_input_handler.cpp:25-53 | refines typing into the code-point editor, for all text; backspace and delete remove one code point; the callback gets the new text whenever the text changes and never another one; while disabled it gets the input; by how much the handler's own count is off; exactly which backspace reads before the text |
| TextInput.TextInputHandler.OnKeyPressed | mcpelauncher-client/src/text_input_handler.cpp:55-85 | refines cursor movement by code points and the selection anchor; Home and End reset how much the count is off |
| TextInput.TextInputHandler.GetCopyText | mcpelauncher-client/src/text_input_handler.cpp:87-95 | the copied bytes encode the selected code points, or everything if nothing is selected |
| TextInput.Session | mcpelauncher-client/src/text_input_handler.cpp:4-95 | every session on bytes is a session of the code-point editor, up to a backspace that reads before the text; without four-byte characters that never comes and the UTF position is the number of code points before the cursor |
| TextInput.ShiftSelects | mcpelauncher-client/src/text_input_handler.cpp:55-95 | with shift held, every sequence of other keys walks the cursor within the text and leaves text and anchor alone, and what is copied lies between the anchor and where the walk ends |
| TextInput.MovesCollapse | mcpelauncher-client/src/text_input_handler.cpp:55-85 | without shift the same keys walk the same way, and once one has taken effect nothing is selected |
| TextInput.LeftUndoesRight | mcpelauncher-client/src/text_input_handler.cpp:61-76 | Right then Left and Left then Right come back wherever the first one moves |
| TextInput.TypingCollapses | mcpelauncher-client/src/text_input_handler.cpp:25-53 | once any typing has taken effect nothing is selected |
| TextInput.BackspaceUndoesTyping | mcpelauncher-client/src/text_input_handler.cpp:30-53 | typing and then as many backspaces restores text and cursor; the handler's own count is restored exactly if no four-byte character was typed |
| TextInput.DeleteUndoesTyping | mcpelauncher-client/src/text_input_handler.cpp:39-76 | typing, walking back over it and deleting it forwards restores text and cursor |
| TextInput.TypingConcatenates | mcpelauncher-client/src/text_input_handler.cpp:47-50 | typing in pieces is typing the whole |
| TextInput.TypingExtendsShown | mcpelauncher-client/src/text_input_handler.cpp:4-53 | what is shown is extended by what is typed next |
| TextInput.EnabledStays | mcpelauncher-client/src/text_input_handler.cpp:25-29 | keys and typing neither enable nor disable; while disabled they do not change the text |
| TextInput.SelectAndCopy | mcpelauncher-client/src/text_input_handler.cpp:55-95 | on the bytes: shift down, any other keys, shift up and copy yields the encoding of the code points between the old anchor and where the keys walk to |
| TextInput.TypeAndErase | mcpelauncher-client/src/text_input_handler.cpp:25-53 | on the bytes: after typing and as many backspaces text and byte position are back, and the UTF position is too high by three for every four-byte character |
| TextInput.CountIffBmp | mcpelauncher-client/src/text_input_handler.cpp:10-85 | after every session without further four-byte characters the UTF position is the number of code points before the cursor, exactly if it is so now and the text has no four-byte character |
| TextInput.DefinedIffClean | mcpelauncher-client/src/text_input_handler.cpp:30-38 | no session without further four-byte characters reads before the start of the text, exactly if the handler is disabled, or its count is right and its text has no four-byte character |
| TextInput.DriftedFails | mcpelauncher-client/src/text_input_handler.cpp:31-36 | with a count that is off, walking to the start and pressing backspace reads before the text |
| ModLoader.Loader.LoadModMulti | mcpelauncher-core/src/mod_loader.cpp:28-43 | terminates; keeps every mod attempted, in progress or waiting and only one of these; every dependency of an attempted mod precedes it or needs it |
| ModLoader.Loader.LoadMods | mcpelauncher-core/src/mod_loader.cpp:63-69 | every mod is attempted exactly once for any dependency graph, and a mod precedes one of its dependencies only if that dependency needs it; exactly the loadable ones are kept, each once, in the order of the attempts |
| ModLoader.AcyclicIsTopological | mcpelauncher-core/src/mod_loader.cpp:28-43 | without cycles the order is topological |
| ModLoader.OutOfOrderIsCyclic | mcpelauncher-core/src/mod_loader.cpp:28-43 | a mod and a dependency out of order lie on a common cycle |
| Base64.Encode | base64/src/base64.cpp:18-37 | the block loop computes the encoding that the round-trip rows are about |
| Base64.InitReverseTable | base64/src/base64.cpp:9-16 | the table inverts the alphabet, marks padding with 64 and everything else with 255 |
| Base64.TableIsAlphabet | base64/src/base64.cpp:5 | the table holds the 64 characters in order |
| Base64.EncodedBits | base64/src/base64.cpp:18-37 | the six bits of each character, in order, are the bits of the input with zeroes up to the next multiple of six, and the length is four for every three bytes begun |
| Base64.Decode | base64/src/base64.cpp:39-68 | the nested loops compute the decoding that the round-trip rows are about, errors included |
| Base64.RoundTrip | base64/src/base64.cpp:18-68 | decode(encode(x)) = x and decode(encode(x) + encode(y)) = x + y, for all bytes |
| Base64.DecodesSpaced | base64/src/base64.cpp:46-60 | line breaks before any characters of an encoding do not change what it decodes to, whatever follows it |
| Base64.TrailingBreaks | base64/src/base64.cpp:57-58 | decoding succeeds exactly if no line breaks follow the last character; otherwise it reports an unexpected end |
| Base64.DecodesIff | base64/src/base64.cpp:46-66 | an input decodes exactly if it has only the alphabet, padding and skipped characters, the former in groups of four with padding in the last two places only, and does not end in a skipped one |
| EpollState.IdentInjective | epoll-shim/src/epoll.c:45-54 | different keys or bits never share a user event |
| EpollState.Kqueue.SaveState | epoll-shim/src/epoll.c:32-65 | refused exactly for keys over 20 bits or values over 12 bits; otherwise the key holds the value and no other key changes |
| EpollState.Kqueue.LoadState | epoll-shim/src/epoll.c:67-108 | returns the value that the registered events spell |
| EpollState.SavesThenLoad | epoll-shim/src/epoll.c:32-108 | after any saves, loading a key yields what was last saved under it |
| EpollState.FlagsRoundTrip | epoll-shim/src/epoll.c:110-117 | the state word determines its flags |
| EpollState.EpollCtl | epoll-shim/src/epoll.c:119-283 | which calls succeed, which take effect (also when they fail late), and the flags of every descriptor afterwards |
| EpollState.CtlRun | epoll-shim/src/epoll.c:119-283 | over every run of calls each descriptor's flags follow its own calls alone |
| EpollState.LastCallDecides | epoll-shim/src/epoll.c:148-223 | the registered bit and the event bits are those of the last ADD, MOD or DEL that took effect |
| EpollState.RegisteredIff | epoll-shim/src/epoll.c:148-223 | after every run a descriptor is registered exactly if its last well-formed ADD or DEL was an ADD |
| EpollState.KindsIff | epoll-shim/src/epoll.c:263-281 | after every run the pipe and socket bits tell what fstat said of the calls since the last ADD or DEL that took effect; the remaining bit is never set |
| EpollState.CtlAfterRun | epoll-shim/src/epoll.c:119-283 | after any calls on a fresh queue a further call succeeds exactly if it is well formed, the kernel and fstat accept it, and it is an ADD or its descriptor was last added rather than deleted |
| Joysticks.JoystickManager.NextUnassignedUserId | game-window/src/joystick_manager_glfw.cpp:34-39 | the unbounded search ends within one more step than there are ids, at the least free id |
| Joysticks.JoystickManager.OnConnected | game-window/src/joystick_manager_glfw.cpp:93-136 | a new gamepad gets the least free id; the taken ids stay those of the connected joysticks with none shared |
| Joysticks.JoystickManager.OnDisconnected | game-window/src/joystick_manager_glfw.cpp:126-136 | exactly the joystick's own id is freed |
| Joysticks.Run | game-window/src/joystick_manager_glfw.cpp:93-136 | over every run exactly the recognized joysticks that were not unplugged since are connected, each keeps an id of its own for as long as it stays plugged in, and every id is below the largest number ever connected at once |

## Left out

- Batch file names: files are identified by their numeric id; prefix, suffix and the parsing of foreign file names are not modelled.
- Read errors and open errors; a crash in the middle of compaction; writes that fail above `FileBatch`.
- The normal (non-critical) queue inside `EventManager`: its behaviour is that of `BufferedBatch`; only critical events are followed across threads.
- HTTP, compression, JSON and clocks: the server's answer is arbitrary, an event is its newline-free text, and a compressed body is only marked as such.
- The limits that a call of `sendEvents` started with: the source keeps them through the recursion of the drop path, the `EventManager` machine reads the current ones at each turn.
- Back-off times in `uploadTasks`, and `TaskWithDelayThread::sleep`.
- Calls of `requestRun` that race with `terminate`, which the interface forbids.
- ELF parsing, symbol lookup by name, and adding or removing libraries in `HookManager`: relocations and hooked symbols are given.
- Hooks.ApplyHooks: does not cover a slot that holds null when its symbol is first patched, nor null replacements.
- TextInput.TextInputHandler.OnTextInput: does not cover ill-formed UTF-8, nor what happens after the backspace that reads before the text.
- TextInput.TextInputHandler.Enable: takes well-formed UTF-8 only.
- TextInput.TextInputHandler.Update: takes well-formed UTF-8 only.
- Base64 input with non-ASCII bytes or missing characters reads out of bounds in the code; the model reports it as undefined and proves nothing more about it.
- The Base64 reverse table and alphabet are functions of a byte instead of arrays, so their element updates are not modelled in place.
- `epoll_wait`, signalfd, and the kernel's kqueue beyond the set of registered user events.
- Button and axis maps, window focus, and the joystick mapping database: finite tables and UI.
- The remaining libraries (libc-shim, EGL, JNI, web view, file picker and so on): tables, UI and foreign calls.
