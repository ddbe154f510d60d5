# Verified model of the telemetry gateway

A Dafny model of the gateway's storage, network, HTTP, rate-limiting and JSON code, with proofs about it.
`dafny verify dfyconfig.toml` checks everything.

**Storage** (`Bytes`, `Crc32`, `RecordFormat`, `SegmentScan`, `LogModel`, `LogDamage`, `TornAppend`,
`TornAppendWitness`, `LogCorruption`, `LogRuns`, `LogAcceptance`, `LogBytes`, `MemoryMappedLog`, `CircularBuffer`,
`SegmentNames`).
Segment files are byte sequences. `LogModel` gives the log as a value: `Recover` is what an open rebuilds from a
directory, `Append` what one append does, and `Represents(image, parts)` says that the files hold exactly the records
of `parts`, that the index, the offsets and the write position agree with them, and that nothing but zeros follows.
The class in `MemoryMappedLog.dfy` has the source's fields and loops and is proved to be exactly those functions.
An append is also a list of single byte stores, payload first, header last; a crash keeps a prefix of them.

**Event loop and pool** (`ThreadPool`, `EventLoop`, `LoopAnswers`, `LoopOutput`, `LoopDrain`, `PooledLoop`,
`LoopHandlers`).
Step machines in which every interleaving of the loop thread, the pool workers, the condition variable and shutdown is
a run, and descriptors are reused freely after a close. `LoopAnswers` is about what becomes of every request,
`LoopOutput` tells a connection's output from the events alone, `LoopDrain` is about the end of a draining loop, and
`PooledLoop` moves loop and pool in step. The classes update the source's fields in the source's order; every method is
proved to be a step or a run of the machine, and what it does is said of the fields and the kernel's answers.

**HTTP parser** (`HttpText`, `HttpModel`, `HttpParser`, `HttpRoundTrip`, `HttpLanguage`, `HttpErrors`).
`OneShot` parses a whole stream at once; `Feed` and the class `HTTPParser` are the incremental parser. `HttpLanguage`
says exactly which streams are accepted, `HttpErrors` which error text the others get.

**Rate limiter** (`TokenBucket`, `RateLimiter`).
The bucket over reals, against a sliding-window limiter that has no tokens; the map of buckets under every
interleaving of lookup, insertion and consumption.

**JSON** (`Json`, `RecentMessages`).
The writer, and a reader that follows RFC 8259 and knows nothing of the writer.

Some properties one might expect are false of the code, and are stated with their exact condition instead:

* An append is not always atomic under a crash. If the header copy is cut before byte 28 and the cut header, with zeros
  in place of the rest, has the CRC 0 for the payload length it shows, recovery takes it for a record that was never
  appended. `TornAppend.TornAppendIsAtomic` says that this is the only way; `TornAppendWitness.TornAppendCanFail` gives
  a timestamp in November 2023 for which it happens in a new log of every segment size.
* The incremental parser can report "request exceeds configured size limit" on a stream that the specification parser
  accepts: `HttpRoundTrip.OversizedChunk` for every good request with enough bytes behind it in the same chunk, and
  `HttpRoundTrip.OversizedChunkExists` for one of 23 bytes. `HttpModel.ChunkingInvariance` says that the two agree on a
  stream if and only if every chunk fits where it arrives, which chunks no larger than either limit always do.
* Not every request is answered. Nothing keeps a connection from dispatching while another of its requests is in
  flight: a flush that would block re-arms reading, and a completed parser answers Complete again. The first completion
  then clears the flag that the second one needs. `LoopAnswers.AnsweredButForOverlaps` gives the exact count: of the
  accepted requests of an open connection all are answered but the one it waits for and one for every such overlap.
  `LoopAnswers.OverlapReachably` reaches an overlap, and `LoopAnswers.EveryRequestAnswered` says what happens to every
  single request without one.
* The task counter does rise while draining, in the middle of a dispatch that is then refused: some step raises it if
  and only if a dispatch has marked its connection (`EventLoop.CounterCanRise`), which a run of four steps reaches
  (`EventLoop.CounterRisesReachably`). Outside a dispatch it does not rise, over any run (`EventLoop.DrainOnlyShrinks`).
* A `ThreadPool` object of no workers joins at once and leaves its accepted tasks in the queue
  (`ThreadPool.JoinedMeansDone`, with `ThreadPool.JoinedWithoutWorkers`), and a loop that submitted to it can then never
  exit (`PooledLoop.DrainNeedsWorker`, with `PooledLoop.StuckReachably`). The server does not construct such a pool: its
  configuration requires 1 to 256 workers (src/core/config.cpp:124).

Whether a log opens again after every crash depends on the segment size. `LogRuns.ServerRunsEndOpen` proves it, for
runs of any length, for the sizes the server accepts, 73 bytes to 1 GiB (src/core/config.cpp:137); `LogRuns.RunKeeps`
proves it for every size below 2^64 / 10^8, because segment ids end at 99999999. The `MemoryMappedLog` class also takes
larger sizes. For those `LogRuns.CrashKeeps` gives the exact condition of a refused open: the bytes left behind read on
past the 64-bit offset space.

## Model

| member | source | states |
|---|---|---|
| Bytes.GetPut | src/storage/mmap_log.cpp:24-50 | decoding a little-endian field gives back every value that fits its width |
| Bytes.PutGet | src/storage/mmap_log.cpp:24-50 | encoding a decoded field gives back its bytes: a field has one spelling |
| Bytes.Put | src/storage/mmap_log.cpp:24-34 | the shift-and-mask loop spells the field at its place and moves no other byte |
| Bytes.Get | src/storage/mmap_log.cpp:36-50 | the shift-and-or loop reads the little-endian value |
| Crc32.MixByte | src/storage/mmap_log.cpp:55-59 | the eight mask-and-shift rounds are the byte step of the register |
| Crc32.Crc32Update | src/storage/mmap_log.cpp:52-62 | the byte loop is the register update over the whole string |
| Crc32.WidenValue | src/storage/mmap_log.cpp:55-55 | the byte mixed into the register is the byte's value |
| Crc32.UpdateInjective | src/storage/mmap_log.cpp:52-62 | equal bytes never reconcile two different registers |
| Crc32.FourBytesInjective | src/storage/mmap_log.cpp:52-62 | from a given register, four bytes are determined by the register after them |
| Crc32.BurstDetected | src/storage/mmap_log.cpp:52-73 | two strings that differ only inside four consecutive bytes never share a checksum |
| RecordFormat.DecodeEncode | src/storage/mmap_log.cpp:196-213 | a written record decodes to its message, whatever follows it |
| RecordFormat.EncodeDecode | src/storage/mmap_log.cpp:489-514 | whatever passes the record test is byte for byte the encoding of what it decodes to |
| LogBytes.RecordChecksum | src/storage/mmap_log.cpp:64-69 | header then payload through the register is the checksum of their concatenation |
| LogBytes.SegmentChecksum | src/storage/mmap_log.cpp:71-73 | the checksum of the first 32 header bytes |
| LogBytes.BuildRecordHeader | src/storage/mmap_log.cpp:196-202 | the six puts build the encoded header of the message |
| LogBytes.BuildSegmentHeader | src/storage/mmap_log.cpp:335-341 | the puts of a new segment build the specified segment header |
| LogBytes.ReadRecord | src/storage/mmap_log.cpp:489-514 | the field tests in the source's order accept exactly the records that decode |
| LogBytes.ZeroTail | src/storage/mmap_log.cpp:114-135 | the chunked scan is true exactly when all remaining bytes are zero |
| LogBytes.CopyIn | src/storage/mmap_log.cpp:209-211 | a copy is its byte stores in address order |
| SegmentScan.CreatedHeaderOk | src/storage/mmap_log.cpp:305-370 | a created segment header passes the header test of every later open and carries its base offset |
| SegmentScan.ScanWritten | src/storage/mmap_log.cpp:466-532 | the scan passes over written records and goes on with what follows them |
| SegmentScan.ScanSound | src/storage/mmap_log.cpp:466-532 | what the scan returns is on disk, offset-contiguous and in range, and a clean verdict means only zeros follow |
| SegmentScan.ScanLongest | src/storage/mmap_log.cpp:466-532 | a run of records is readable exactly when it is a prefix of the run returned: the scan finds the longest |
| SegmentScan.ScanHeld | src/storage/mmap_log.cpp:421-563 | a segment that holds messages scans to exactly them and its file is left alone |
| SegmentScan.ScanNormalises | src/storage/mmap_log.cpp:466-562 | whatever bytes follow a valid header, a successful scan leaves a prefix of the file that holds exactly the returned records and zeros |
| SegmentScan.HoldsAppend | src/storage/mmap_log.cpp:209-217 | writing the next record where the zeros begin extends what the segment holds by exactly that record |
| SegmentScan.FreshHolds | src/storage/mmap_log.cpp:305-370 | a created segment holds nothing and is valid |
| LogModel.CreatedRepresents | src/storage/mmap_log.cpp:296-297 | an empty directory opens to a represented log with one empty segment, so the premise of the theorems below is met by every new log |
| LogModel.RecoverSound | src/storage/mmap_log.cpp:268-303 | whatever the directory held, an image that recovery returns represents a log and no older file was changed |
| LogModel.ReopenRestores | src/storage/mmap_log.cpp:268-303 | recovery of a represented image rebuilds that very image: files, index, offsets, write position, messages |
| LogModel.AdmitRepresents | src/storage/mmap_log.cpp:170-191 | the checks and the rollover keep the log and its messages, and leave room for the record |
| LogModel.AppendRepresents | src/storage/mmap_log.cpp:167-219 | an accepted append adds exactly its message at the next offset and keeps the representation |
| LogAcceptance.AppendRefusedExactly | src/storage/mmap_log.cpp:170-183 | append fails if and only if the payload reaches 2^32 bytes, 72 + its length exceeds the segment size, the offsets would reach 2^64, or it needs a segment after number 99999999; each with its error |
| LogAcceptance.AppendRollsExactly | src/storage/mmap_log.cpp:180-217 | an accepted append adds a segment if and only if write position + 32 + length exceeds the segment size; older files stay, the new record ends at the write position |
| LogAcceptance.NewLogAccepts | src/storage/mmap_log.cpp:167-219 | a new log of any supported size accepts every list of fewer than 99999999 payloads that fit its segments and the offset space, and then holds exactly their messages |
| LogAcceptance.SupportedExactly | src/storage/mmap_log.cpp:152-156 | the supported segment sizes are 73 to 2^63 - 1 |
| LogDamage.ScanDamaged | src/storage/mmap_log.cpp:421-563 | damage after a record boundary leaves the earlier records readable and the rest is judged on its own |
| LogDamage.RecoverLatest | src/storage/mmap_log.cpp:466-562 | damage in the newest segment: recovery keeps the undamaged records plus what the rest reads as, and zeroes what follows |
| LogDamage.RecoverSealed | src/storage/mmap_log.cpp:480-526 | damage in a sealed segment: recovery refuses, with the error of the scan's verdict, whatever the verdict other than clean |
| TornAppend.CrashInPayload | src/storage/mmap_log.cpp:209-217 | a crash before the header copy begins recovers exactly the old log, with no assumption on checksums |
| TornAppend.CutHeaderDecodes | src/storage/mmap_log.cpp:489-514 | a cut header is taken for a record exactly when it passes its own check, and never for the record being written |
| TornAppend.CrashAccident | src/storage/mmap_log.cpp:469-532 | if a cut header passes its own check, recovery yields neither the old log nor the new one |
| TornAppend.TornAppendIsAtomic | src/storage/mmap_log.cpp:209-217 | after any prefix of the stores, recovery is exactly the old or exactly the new log if and only if the cut header does not pass its own check |
| TornAppendWitness.TornAppendCanFail | src/storage/mmap_log.cpp:192-217 | a concrete record and cut for which, in a new log of every segment size, recovery is neither |
| LogCorruption.BurstStopsScan | src/storage/mmap_log.cpp:489-521 | a change inside four bytes of a record outside its length field stops the scan at that record |
| LogCorruption.CorruptionInNewest | src/storage/mmap_log.cpp:497-521 | such damage in the newest segment: recovery keeps exactly the earlier records |
| LogCorruption.CorruptionInSealed | src/storage/mmap_log.cpp:497-521 | such damage in a sealed segment: recovery refuses to open |
| LogCorruption.HeaderBurst | src/storage/mmap_log.cpp:446-454 | a segment header changed inside four bytes, among its words or from its stored checksum on, passes the test if and only if only reserved bytes differ |
| LogCorruption.CorruptionInHeader | src/storage/mmap_log.cpp:446-454 | such a change in the first 36 bytes of any segment, newest or sealed: recovery refuses to open |
| LogAcceptance.HeaderRefusedExactly | src/storage/mmap_log.cpp:446-454 | a file of at least 40 bytes is refused as invalid if and only if it does not begin with "IOTLOG01", the words at 8, 12 and 24 are not 1, the id and the segment size, or the word at 32 is not the checksum of the first 32 bytes |
| LogAcceptance.OtherSizeRefused | src/storage/mmap_log.cpp:449-449 | a log is refused under every other segment size |
| LogAcceptance.WrongSegmentRefused | src/storage/mmap_log.cpp:448-448 | a segment file in the place of another is refused |
| LogAcceptance.CutHeaderRefused | src/storage/mmap_log.cpp:434-437 | a segment cut inside its header is refused |
| LogAcceptance.LongSegmentRefused | src/storage/mmap_log.cpp:461-465 | a segment longer than the segment size is refused |
| LogAcceptance.MissingSegmentRefused | src/storage/mmap_log.cpp:284-286 | a directory without one of the segments before the newest is refused |
| LogAcceptance.LostRecordsRefused | src/storage/mmap_log.cpp:456-460 | records lost from the end of a sealed segment without a trace are noticed by the segment after it |
| LogAcceptance.BadTailRefused | src/storage/mmap_log.cpp:479-550 | a sealed segment whose records are followed by other than zeros is refused, with the error of what was found there |
| LogRuns.CrashKeeps | src/storage/mmap_log.cpp:167-219 | whatever prefix of its stores survives, a crashed append loses nothing appended before it; the next open fails exactly when the bytes left behind read past the offset space, and then a cut header passed its own check and the segment reaches past the last offset |
| LogRuns.StepKeeps | src/storage/mmap_log.cpp:167-303 | every append, reopen and crash leaves an open, represented log that extends the one before, or is such a crash |
| LogRuns.NextBound | src/storage/mmap_log.cpp:173-191 | the next offset of every log is at most 99999999 times the segment size |
| LogRuns.RunKeeps | src/storage/mmap_log.cpp:167-303 | every run of appends, reopens and crashes keeps the representation and only extends the messages, or meets such a crash; with a segment size below 2^64 / 10^8 no run of any length meets one, nor does one with room in the offset space |
| LogRuns.RunExists | src/storage/mmap_log.cpp:167-303 | every list of appends, reopens and crashes has a run |
| LogRuns.ReopenAfterAnyRun | src/storage/mmap_log.cpp:167-303 | from any directory that opens, after any run, a reopen rebuilds the very log that was open and nothing recovered earlier is lost; a run fails only at such a crash, and never with a segment size below 2^64 / 10^8 or with room in the offset space |
| LogRuns.ServerRunsEndOpen | src/core/config.cpp:137-139 | for every segment size the server accepts, every list of appends, reopens and crashes, however long, ends in an open log that a reopen restores, and loses nothing |
| LogRuns.RecoverTwice | src/storage/mmap_log.cpp:268-303 | a second recovery changes nothing, on every directory |
| LogRuns.SegmentsTile | src/storage/mmap_log.cpp:283-302 | each segment begins at its predecessor's end offset, valid_bytes - 40 = end - first, and the last one ends at the next offset and the write position |
| LogRuns.AcceptedRun | src/storage/mmap_log.cpp:193-218 | the offsets of accepted payloads are the prefix sums of 32 + payload length |
| LogRuns.OffsetsIgnoreSegmentSize | src/storage/mmap_log.cpp:173-218 | two segment sizes that accept the same payloads give them the same offsets and messages |
| StorageLog.ScanRecords | src/storage/mmap_log.cpp:466-558 | the record loop finds the specified records and verdict, and pushes exactly those records into the recent cache |
| StorageLog.ScanFile | src/storage/mmap_log.cpp:421-563 | the header tests, the loop and the truncation are the specified segment scan, with its error cases; LogAcceptance says of bytes when which |
| StorageLog.ScanListing | src/storage/mmap_log.cpp:280-294 | the loop over the files is the specified scan of the directory, gaps included |
| StorageLog.MemoryMappedLog.Open | src/storage/mmap_log.cpp:148-165 | open yields exactly the recovered image or the specified error, and stays closed on failure |
| StorageLog.MemoryMappedLog.RecoverOrCreate | src/storage/mmap_log.cpp:268-303 | the fields become those of the recovered image |
| StorageLog.MemoryMappedLog.MapActiveSegment | src/storage/mmap_log.cpp:372-399 | the newest file stretched with zeros becomes the mapped segment |
| StorageLog.MemoryMappedLog.CreateSegment | src/storage/mmap_log.cpp:305-370 | the mapped segment is a fresh file and the index gains its entry |
| StorageLog.MemoryMappedLog.RollOverSegment | src/storage/mmap_log.cpp:182-191 | the mapped segment is sealed as it is and a fresh one follows |
| StorageLog.MemoryMappedLog.StoreMessage | src/storage/mmap_log.cpp:204-217 | cache push, payload copy, header copy and field updates together store exactly the record |
| StorageLog.MemoryMappedLog.Append | src/storage/mmap_log.cpp:167-219 | append is refused without a trace, or yields the specified image and the offset the message was given; LogAcceptance says of sizes when which |
| StorageLog.MemoryMappedLog.Close | src/storage/mmap_log.cpp:228-233 | the directory that close leaves reopens to the very log that was open |
| StorageLog.MemoryMappedLog.GetRecent | src/storage/mmap_log.cpp:235-238 | after any appends and recoveries the recent messages are the tail of the whole log |
| Ring.CircularBuffer.Make | src/storage/circular_buffer.h:13-15 | a zero capacity is refused, any other gives an empty ring |
| Ring.CircularBuffer.Push | src/storage/circular_buffer.h:17-21 | a push extends the history by the value and keeps the ring's slots its newest part |
| Ring.CircularBuffer.GetRecent | src/storage/circular_buffer.h:23-32 | the result is the last min(wanted, capacity, pushes) values in order |
| SegmentNames.ParseSegmentId | src/storage/mmap_log.cpp:96-108 | the digit loop parses as specified |
| SegmentNames.NamesAreUnique | src/storage/mmap_log.cpp:89-108 | a name parses to an id exactly when it is the name of that id |
| SegmentNames.ParsedIdsFit | src/storage/mmap_log.cpp:96-108 | every parsed id is one that the format can spell |
| ThreadPool.StepInv | src/network/thread_pool.h:44-93 | every step keeps: tasks started or queued in order, finished or in progress once, a waker for queued tasks while someone sleeps |
| ThreadPool.PoolSafety | src/network/thread_pool.h:44-93 | in every reachable state tasks start in submission order, the queue respects its capacity, and a nonempty queue with all workers asleep has a notify to come |
| ThreadPool.QueuedTaskStarts | src/network/thread_pool.h:76-93 | from every state with a worker, stopping or not, the first queued task can be started by the pool's own turns: no wakeup is lost |
| ThreadPool.HighWaterIsLongest | src/network/thread_pool.h:47-49 | over every run the high-water mark is the longest the queue has been |
| ThreadPool.JoinedMeansDone | src/network/thread_pool.h:55-67 | after shutdown and join every accepted task ran exactly once, in order, if and only if there is a worker or nothing was accepted |
| ThreadPool.JoinedWithoutWorkers | src/network/thread_pool.h:44-67 | a reachable pool of no workers that has joined with an accepted task never started |
| ThreadPool.StoppingStepDecreases | src/network/thread_pool.h:76-93 | once stopping, every pool step uses up a bounded amount of work |
| ThreadPool.StoppingNeverStuck | src/network/thread_pool.h:76-93 | once stopping, some step is enabled until every worker has exited |
| ThreadPool.ShutdownTerminates | src/network/thread_pool.h:55-93 | every run after shutdown is bounded and can only end with all workers exited: join returns |
| ThreadPool.Monitor.Submit | src/network/thread_pool.h:44-53 | accepted if and only if not stopping and fewer tasks are queued than the capacity; then the task is last in the queue and the push step was taken |
| ThreadPool.Monitor.BeginShutdown | src/network/thread_pool.h:55-61 | the shutdown step |
| ThreadPool.Monitor.WorkerTurn | src/network/thread_pool.h:76-93 | the locked section takes the oldest task if there is one, else exits if stopping, else sleeps, as the machine's check step does |
| EventLoop.StepInv | src/network/tcp_server.cpp:279-587 | every step of every thread keeps conservation, stream fidelity and the no-stranding invariant |
| EventLoop.TasksConserved | src/network/tcp_server.cpp:428-466 | the counter is this loop's queued, running and posted-unprocessed tasks and never underflows; every accepted task is open or processed, exactly once |
| EventLoop.NoStrandedRequest | src/network/tcp_server.cpp:417-466 | between loop steps a connection in flight has an open task with its own descriptor and generation |
| EventLoop.OutputBelongs | src/network/tcp_server.cpp:491-577 | for every connection instance, bytes sent plus pending equal everything queued; its responses answer its own requests, each once; unsent bytes at a close mean an error or a limit breach |
| LoopAnswers.AnswersStep | src/network/tcp_server.cpp:417-509 | every step keeps: instances are distinct and none is lost, completions carry what was posted, and connections without overlap have answered what was processed |
| LoopAnswers.EveryRequestAnswered | src/network/tcp_server.cpp:491-509 | in every reachable state, for every completion posted and processed, the instance that sent the request, open or closed, has the response as posted in its output, unless a dispatch overlapped another there, it was closed while it waited, or pending bytes + response exceeded 1048576 and closed it |
| LoopAnswers.AnsweredButForOverlaps | src/network/tcp_server.cpp:417-509 | in every reachable state, accepted requests of an open connection = its responses + the one it waits for + its overlaps, so all are answered if and only if none overlapped |
| LoopAnswers.OverlapReachably | src/network/tcp_server.cpp:541-549 | a reachable state with an overlap |
| LoopOutput.EveryStepAsTold | src/network/tcp_server.cpp:305-587 | what every event says to every connection, which events close it, and which make its peer count as closed |
| LoopOutput.OutputIsWhatWasSaid | src/network/tcp_server.cpp:404-506 | in every run an open connection has been sent exactly the 400s, 503s and responses that the events said to it, in order, and its peer counts as closed exactly if one of them made it so |
| LoopOutput.ClosedForCause | src/network/tcp_server.cpp:522-577 | in every reachable state, whoever was closed as finished had a closed peer and everything sent, and whoever was drained waited for nothing and had everything sent while the loop drains |
| EventLoop.SafeExit | src/network/tcp_server.cpp:265-268 | when the exit test holds, every accepted task was processed exactly once and nothing is queued, running or posted |
| EventLoop.CounterRises | src/network/tcp_server.cpp:428-457 | once draining, a step raises the counter if and only if it is the increment of a dispatch |
| EventLoop.CounterCanRise | src/network/tcp_server.cpp:417-457 | once draining, some step raises the counter if and only if a dispatch has marked its connection and not yet counted its task |
| EventLoop.CounterRisesReachably | src/network/tcp_server.cpp:417-457 | a reachable draining state in which it does |
| EventLoop.DrainOnlyShrinks | src/network/tcp_server.cpp:511-528 | over every run of a draining loop no connection or task is added, the count outside dispatches never rises, and between points without a dispatch the counter never rises |
| LoopDrain.EveryStepWorks | src/network/tcp_server.cpp:480-578 | once draining, every step other than new input of a peer, an empty swap or one that changes nothing uses up a weight of tasks left and bytes left to send |
| LoopDrain.DrainProgress | src/network/tcp_server.cpp:248-269 | while draining short of the exit, whatever the tasks answer, some such step is enabled |
| LoopDrain.EveryDrainEnds | src/network/tcp_server.cpp:248-269 | every schedule drains: a run of such steps is no longer than the weight it uses up, and where it cannot be continued the loop may exit |
| LoopDrain.DrainCanFinish | src/network/tcp_server.cpp:248-269 | from every draining state, whatever the tasks answer and the refusal says, the exit can be reached by pool steps, completions, sends and closes, each close with nothing pending or for a response over the limit |
| PooledLoop.MoveInv | src/network/tcp_server.cpp:428-457 | every move of loop and pool together keeps both invariants and that the pool's queue and workers hold exactly the loop's queued and running tasks |
| PooledLoop.RunProjects | src/network/tcp_server.cpp:248-269 | a joint run is a run of the loop and a run of the pool |
| PooledLoop.DispatchNeverStuck | src/network/tcp_server.cpp:428-466 | a counted dispatch is submitted if and only if the pool has room and is not stopping, and refused otherwise |
| PooledLoop.EveryShutdownEnds | src/network/tcp_server.cpp:157-164 | with a worker, every schedule of worker turns, notifications, spurious wakeups, completions, sends, flushes and closes without new input is bounded, and where it cannot be continued the loop may exit and every worker has returned |
| PooledLoop.DrainCompletes | src/network/tcp_server.cpp:157-164 | with a worker, from every draining state, whatever the tasks answer, the loop can be brought to its exit and every worker to its return by worker turns, notifications and loop steps |
| PooledLoop.DrainNeedsWorker | src/network/tcp_server.cpp:157-164 | once draining, the loop can exit and the pool be joined if and only if the pool has a worker or none of the loop's tasks is queued |
| PooledLoop.StuckForever | src/network/thread_pool.h:76-93 | without a worker a queued task of the loop keeps every run from the exit |
| PooledLoop.StuckReachably | src/network/thread_pool.h:44-53 | a reachable draining state with a queued task of the loop and no worker |
| PooledLoop.FinishedMeansDone | src/network/tcp_server.cpp:157-164 | when loop and pool have finished, every accepted task ran and its completion was processed, exactly once |
| LoopHandlers.LoopThread.FlushClient | src/network/tcp_server.cpp:530-578 | the send loop is a run of machine steps on that connection alone; if the kernel fails nothing, the connection has been sent exactly what the kernel took, and is closed if and only if that was everything and its peer is closed |
| LoopHandlers.LoopThread.HandleClient | src/network/tcp_server.cpp:369-478 | the first decisive answer of `read` decides: closed, half-closed, answered with 400, dispatched or refused; then what is pending is flushed, and half a request leaves the connection as it was |
| LoopHandlers.LoopThread.HandleEvent | src/network/tcp_server.cpp:305-335 | a hard error closes; otherwise read, note the peer's close, flush; whoever is left waits for a completion, has something to send or an open peer |
| LoopHandlers.LoopThread.constructor | src/network/tcp_server.cpp:211-247 | a new loop thread is the machine's start |
| LoopHandlers.LoopThread.Release | src/network/tcp_server.cpp:560-572 | the buffer is reset, and the connection is closed as finished if and only if its peer is closed |
| LoopHandlers.LoopThread.CloseClient | src/network/tcp_server.cpp:580-587 | the connection leaves the map and the history records why |
| LoopHandlers.LoopThread.DeliverResponse | src/network/tcp_server.cpp:495-506 | the response is appended for the connection of its descriptor and generation that waits for it, if that keeps it within the limit; over the limit it is closed; nobody else changes |
| LoopHandlers.LoopThread.ProcessCompletions | src/network/tcp_server.cpp:480-509 | all posted completions are applied once, in order, and counted off; no connection is added; a kernel that fails nothing leads to graceful closes alone, and one that takes everything leaves nobody answered open |
| LoopHandlers.LoopThread.DrainSweep | src/network/tcp_server.cpp:256-264 | of the listed connections, who waits for a completion is left alone and who has nothing to send is closed |
| LoopHandlers.LoopThread.BeginDraining | src/network/tcp_server.cpp:511-528 | the pool is stopped first, whoever waits for a completion is left alone, and who has nothing to send is closed |
| LoopHandlers.LoopThread.IdleStep | src/network/tcp_server.cpp:251-268 | completions are processed, a requested shutdown drains, a draining loop is swept, and the exit test is the machine's |
| LoopHandlers.LoopThread.DispatchRequest | src/network/tcp_server.cpp:417-466 | mark, count, submit, in this order: accepted exactly when the pool has room and is not stopping, else uncounted, answered and flushed |
| HttpText.Trim | src/http/http_parser.cpp:152-163 | the two index loops remove exactly the blanks at both ends |
| HttpText.Lowercase | src/http/http_parser.cpp:165-172 | every character is lowered in place |
| HttpText.FromChars | src/http/http_parser.cpp:138-141 | the digit loop, its range test and the test for leftover text give the number of an all-digit text below 2^64 and nothing else |
| HttpText.FindFirst | src/http/http_parser.cpp:8-50 | the search returns the first match |
| HttpModel.OneShotStable | src/http/http_parser.cpp:8-50 | a decided stream stays decided the same way whatever follows |
| HttpModel.FeedTracks | src/http/http_parser.cpp:8-50 | one feed keeps the parser in step with the specification parser if and only if the first size check does not fire |
| HttpModel.OverfillsIs | src/http/http_parser.cpp:14-18 | the first size check, said of the stream alone: undecided, and what is left of it in the buffer plus the chunk exceeds both limits together |
| HttpModel.SmallChunksFit | src/http/http_parser.cpp:14-18 | chunks no larger than either limit never make the first size check fire |
| HttpModel.ChunkingInvariance | src/http/http_parser.cpp:8-50 | for every list of chunks, status, error text and request are those of the specification parser on the whole stream if and only if every chunk fits where it arrives, and otherwise the status is the size limit |
| HttpModel.SmallChunksAgree | src/http/http_parser.cpp:8-50 | however a stream is split into chunks no larger than either limit, the result is the specification parser's |
| HttpParser.HTTPParser.Feed | src/http/http_parser.cpp:8-50 | the method is the specified feed and reports its status |
| HttpParser.HTTPParser.ParseHeaders | src/http/http_parser.cpp:61-149 | the method parses the head as specified, with every error text |
| HttpParser.HTTPParser.ReadRequestLine | src/http/http_parser.cpp:67-92 | the searches and tests in the source's order parse the request line as specified |
| HttpParser.HTTPParser.ReadLength | src/http/http_parser.cpp:127-148 | the framing tests give the specified body length or error |
| HttpParser.HTTPParser.ReadHeaderLines | src/http/http_parser.cpp:93-126 | the line loop over the buffer adds exactly the lines between the request line and the blank line |
| HttpParser.HTTPParser.AddHeaderLine | src/http/http_parser.cpp:97-124 | one line is added, joined or refused as specified |
| HttpRoundTrip.HeadersCombine | src/http/http_parser.cpp:93-126 | header lines parse to the comma join of each name's trimmed values in order, with identical Content-Length values kept once |
| HttpRoundTrip.RenderParse | src/http/http_parser.cpp:61-149 | any well-formed request with a header line, followed by anything, parses back to its method, path, query, headers and body |
| HttpRoundTrip.RequestLineOnly | src/http/http_parser.cpp:67-92 | whatever parses as a request line is the rendered line of a method, path, query and version without blanks, and parses to them |
| HttpLanguage.JoinSplit | src/http/http_parser.cpp:93-126 | splitting at line ends gives lines without one inside, and joining them gives the text back |
| HttpLanguage.FieldsOnly | src/http/http_parser.cpp:93-126 | header lines that are all accepted are the lines of good fields whose lengths agree |
| HttpLanguage.AcceptedExactly | src/http/http_parser.cpp:8-149 | a stream is complete if and only if it begins with the rendering of a well-formed request, and the request reported is then that one |
| HttpErrors.NoHead | src/http/http_parser.cpp:22-29 | without a blank line the parser waits up to the header limit and then reports it |
| HttpErrors.LongHead | src/http/http_parser.cpp:30-32 | a head over the header limit is reported |
| HttpErrors.OneLineOnly | src/http/http_parser.cpp:62-65 | a head of one line gets "missing request line" |
| HttpErrors.RequestLineErrors | src/http/http_parser.cpp:67-92 | a first line that is not word, blank, word, blank, rest gets "malformed request line", one with another version "unsupported HTTP version", one with an empty path "request target path is empty" |
| HttpErrors.HeaderLineErrors | src/http/http_parser.cpp:95-125 | after a good request line and good fields, the first bad header line decides: no name before a colon, a line break in the value, or a second length that differs, each with its text |
| HttpErrors.FramingErrors | src/http/http_parser.cpp:127-148 | with good lines the framing decides: transfer coding, invalid length, length over the limit, each with its text; otherwise incomplete or complete by the bytes that follow |
| HttpRoundTrip.RenderFeed | src/http/http_parser.cpp:8-149 | the same through the incremental parser if and only if every chunk fits where it arrives |
| HttpRoundTrip.OversizedChunk | src/http/http_parser.cpp:14-18 | every good request in one chunk with more than both limits together hold is complete to the specification parser and too large to the incremental one |
| HttpRoundTrip.OversizedChunkExists | src/http/http_parser.cpp:14-18 | such a request of 23 bytes |
| TokenBuckets.TokensInRange | src/security/rate_limiter.cpp:13-25 | after any calls of a monotone clock the tokens are in [0, capacity] |
| TokenBuckets.BucketIsWindowLimiter | src/security/rate_limiter.cpp:6-25 | a call passes exactly when no window ending at it would exceed capacity + rate * length, whenever the bucket was made |
| TokenBuckets.WindowBound | src/security/rate_limiter.cpp:13-25 | the calls passed in any window of time [s, t] are at most capacity + rate * (t - s) |
| TokenBuckets.RejectedCallsLeaveNoTrace | src/security/rate_limiter.cpp:13-25 | deleting any of the rejected calls from a history changes no decision about the others |
| TokenBuckets.TokenBucket.TryConsume | src/security/rate_limiter.cpp:13-25 | the in-place update is the specified consume |
| RateLimiting.StepKeeps | src/security/rate_limiter.cpp:30-50 | every critical section of every thread keeps: one entry per IP, threads hold the mapped one, each entry is what a private bucket would be |
| RateLimiting.DecisionsAreIsolated | src/security/rate_limiter.cpp:30-50 | under every interleaving an IP is told what a bucket of its own, fed only its calls and made at any earlier time, would say |
| RateLimiting.PerIpBound | src/security/rate_limiter.cpp:30-50 | the window bound holds for every IP of the shared limiter |
| RateLimiting.OneEntryForLife | src/security/rate_limiter.cpp:30-50 | once mapped an IP keeps its entry, no two share one, and late inserters get the first one's |
| RateLimiting.RateLimiter.FindEntry | src/security/rate_limiter.cpp:32-36 | the shared lookup returns the mapped entry or none |
| RateLimiting.RateLimiter.FindOrEmplace | src/security/rate_limiter.cpp:38-46 | the second look inserts a full bucket only if the IP is still missing |
| RateLimiting.RateLimiter.Check | src/security/rate_limiter.cpp:30-50 | an undisturbed call consumes from the IP's entry, made full if it was missing, and touches no other |
| Json.JsonEscape | src/network/tcp_server.cpp:7-30 | the loop's output unescapes, by section 7 of RFC 8259, to the value |
| Json.EscapedScans | src/network/tcp_server.cpp:7-30 | wherever an escaped string stands, a section 7 scanner restores it and stops exactly at its closing quote |
| Json.RenderParses | src/network/tcp_server.cpp:170-184 | reading written text gives the value back and leaves what follows it, for all nested values |
| RecentMessages.ObjectJson | src/network/tcp_server.cpp:178-181 | the concatenation is the JSON object of the message |
| RecentMessages.MessagesJson | src/network/tcp_server.cpp:170-184 | the loop's array decodes to exactly the messages it was given |
| RecentMessages.RecentMessagesJson | src/network/tcp_server.cpp:170-184 | the body decodes to the log's newest messages, oldest first |

## Left out

- System calls, mmap, msync, fsync, sockets, epoll, eventfd and errno paths: files are byte sequences and kernel answers are parameters.
- Page write-back order and power loss: a crash keeps a prefix of the stores in program order.
- Crashes inside segment creation: creation is one step; a short or zero header makes the next open refuse.
- Reserved bytes 36-39 of the segment header: the source does not check them, so no canonical segment header is claimed.
- Directory iteration and sorting: the listing is given in ascending id order, which the source obtains with std::sort.
- Message.payload_length: it is always the payload's size and is derived.
- LogCorruption.CorruptionInNewest: changes that touch the length field, or the stored CRC together with bytes beside it, are not covered: the checksum then covers a different string or is itself replaced, and no burst length is guaranteed to be noticed.
- LogCorruption.CorruptionInSealed: the same restriction.
- LogCorruption.CorruptionInHeader: changes across byte 32, where the words and their stored checksum meet, are not covered.
- StorageLog.MemoryMappedLog.Append: the clock reading is a parameter, and a failing rollover (an I/O error) is not modelled.
- StorageLog.MemoryMappedLog.Open: directory creation is not modelled.
- ThreadPool: `busy_threads` and the task bodies; a task is a number.
- EventLoop: ids, generations and instances are unbounded; the other loops appear as foreign tasks and foreign shutdowns; a task ends when its completion is pushed; listener handling and abnormal loop exit are not modelled.
- LoopDrain.EveryDrainEnds: a peer that keeps sending requests, or never reads, can keep a schedule from ending; such steps are not among those bounded, and a step that is enabled is not forced to happen.
- PooledLoop.EveryShutdownEnds: the same; one loop with the shared pool, the other loops appear as foreign tasks.
- LoopHandlers.LoopThread.ProcessCompletions: the counter is decremented before the connection is flushed, in the source after; both are private to the loop thread between two points where others interfere.
- LoopHandlers.LoopThread.Release: buffer capacities are not modelled.
- LoopHandlers.LoopThread.HandleEvent: the connection branch; the drain at its head, the completion descriptor and the listener are separate calls.
- LoopHandlers.LoopThread.HandleClient: the parser's answers are parameters; HttpParser says what they are.
- HttpParser.HTTPParser.ParseHeaders: on an error the half-filled request is not tracked, because the source never hands it out; C locale for `tolower`.
- HttpModel: the sum of the two limits is unbounded instead of wrapping at 64 bits; the branch for "malformed header line" is absent because `HttpParser.NextLine` proves that a line end is always found in time.
- HttpRoundTrip.RenderParse: requests without a header line, which the parser refuses.
- TokenBuckets.WindowBound: reals instead of doubles; rounding is outside the model.
- RateLimiting: growth of the map is unbounded, as in the source.
- Json: whitespace, signed and fractional numbers and the literals, which the writer never produces, are refused by the reader.
- Config parsing, logger, metrics, Prometheus text, router hash, HttpResponse::to_string, the recent-count query, main, scripts and Docker files.
