# A verified model of CockroachDB's CLI and blob-service cores

This project models, in Dafny, the parts of the command-line tools and of the
blob service that carry real state, and proves what they promise. One module
stands for one component.

| module | component |
|---|---|
| `LogEntry`, `LogFile`, `FileStream`, `BufferedStream`, `HeapMerge`, `LogMerge`, `LiveMerge`, `LogPipeline`, `MergeLogs` | `debug merge-logs`: binary search in a file, a stream per file, the lazy producers over one context, the heap of streams, the chain from files to heap, the heap over live streams, the read / buffer / write goroutines, and all of it together |
| `BlobStream`, `BlobPut` | cutting and rejoining byte streams; receiving a file into a temporary file and publishing it |
| `CopyEscape` | the reader that escapes a file for COPY |
| `Startup` | start-up against shutdown of a server process |
| `RaftCheck` | the check of a store's Raft state |
| `Decommission`, `DrainNode` | the two drivers that poll a cluster |
| `RecoveryDiff` | the verdict on a loss-of-quorum recovery |
| `PebbleOptions`, `WalFailover`, `RaftDefaults`, `Latin1` | option text, flags, defaults, and the undoing of a UTF-8 encoding |

How things are represented:

- Goroutines are state machines: each atomic action is a `Step`, and a run is any
  sequence of enabled steps, so a lemma about runs speaks of every interleaving. In
  `BufferedStream` the state after any sequence of actions is a function of it.
- Objects that the source updates in place are classes. Their methods are proved
  against functions of the old state.
- What the outside world does (server replies, file contents, failures, scheduling,
  cancellation) is an input, so a contract covers every environment.
- Integer widths are written out where they matter: 64-bit wrap-around in
  `RaftCheck`, `Decommission` and `RaftDefaults`.
- The sift loops of `HeapMerge` are those of Go's `container/heap`, the search of
  `LogFile` is `sort.Search`, and `Latin1.DecodeRune` is `utf8.DecodeRune`; the
  source calls all three.

Where a promise does not hold of the code, the model keeps the code and states the
exact condition:

- Closing and reopening a log file is invisible if and only if the first entry read
  is neither before the epoch nor the zero entry (or nothing is delivered, or the
  zero entry is followed by one delivered as the zero entry):
  `FileStream.DeliversExactlyOnce`, with `FileStream.ReopenRepeatsEarlyEntry` as an
  input that fails.
- A sorted, readable file is filtered exactly if and only if the entries from the
  seek point are safe to read in two passes: `FileStream.SortedFileIsFiltered`.
- `pop` on the merged stream returns what `peek` returned if and only if the entry was
  not the last one before its stream failed: `HeapMerge.Merged.Pop`, with
  `LogMerge.PeekedEntryIsDenied`. The comment on the interface promises it always.
- A file's entries are all read in every run if and only if it has fewer than two, or no
  other file fails after yielding something: `BufferedStream.SeenWholeIff`, with
  `BufferedStream.OtherStreamIsCut`. An error is reported whenever entries are lost:
  `LiveMerge.LiveReadIsMerge`.
- A file received by `PutStream` replaces the old one atomically if and only if the
  move does not copy across devices, or the stream is empty, or the old file was empty
  and the copy stops at once or is done in one step: `BlobPut.PutStream`, with
  `BlobPut.CopyLeavesPart`.
- `streamContent` reports a failing read as success if and only if every failing read
  made brings data and a send that ended the loop gave io.EOF:
  `BlobStream.FailureIsLostIff`, with `BlobStream.FailureWithDataIsLost`.
- "No replicas left" means that every count is zero if and only if a target is active
  or the counts do not sum to a positive multiple of 2^64:
  `Decommission.FinishedMeansEmpty`, with `Decommission.OverflowLooksEmpty`.
- The WAL failover flag survives printing and parsing if and only if it is not
  `among-stores` set over an earlier path: `WalFailover.PrintThenParse`, with
  `WalFailover.SetTwiceKeepsStalePath`.
- The pebble-options loop ends if and only if every bracket it reaches is closed and it
  reaches no multibyte whitespace, any of which must stand in brackets or in a run that
  starts with one-byte whitespace (`PebbleOptions.LoopEndsIffBalanced`, with
  `PebbleOptions.UnclosedBracketSpins` and `PebbleOptions.WideSpaceSpins`). Printing and
  parsing again is the identity if and only if no bracket holds a newline
  (`PebbleOptions.PrintThenParse`, with `PebbleOptions.NewlineInStanzaIsLost`).
- `SetDefaults` panics if and only if the quota exceeds the uncommitted size converted to
  64 bits, spelled out as ranges of the two in `RaftDefaults.PanicsIff`, with
  `RaftDefaults.NegativeThresholdPanics` and `RaftDefaults.LargestSizePanics`.

## Model

| member | source | states |
|---|---|---|
| LogPipeline.AppendEntry | pkg/cli/debug_merge_logs.go:103-143 | Receiving an entry leaves the buffer alone when its tenant is not wanted or its rendering does not match the filter; it appends the captured groups and a newline when the filter has groups, and the rendering otherwise; a failing rendering appends what was rendered and ends with an error. |
| LogPipeline.ShownAllIsKept | pkg/cli/debug_merge_logs.go:103-143 | What a sequence of entries shows is the texts of those that pass tenant filter, rendering and regular-expression filter, one after the other, and nothing else. |
| LogPipeline.Conservation | pkg/cli/debug_merge_logs.go:73-164 | In every interleaving, received entries, entries in the channel and entries not yet sent make up the input in order; bytes written, bytes the writer holds and pending bytes make up what the received entries show; the output is always a prefix of what the input shows. |
| LogPipeline.NoSharedBuffer | pkg/cli/debug_merge_logs.go:144-146 | The buffer being reset, and the buffer being appended to, is never the one the writer holds. |
| LogPipeline.CompleteOutput | pkg/cli/debug_merge_logs.go:73-164 | When all three goroutines have returned without an error, the stream had none and the output is everything the input shows; with an error it is a prefix. |
| LogPipeline.ErrorHasCause | pkg/cli/debug_merge_logs.go:73-164 | Without a stream error, a failed rendering or a failed write, the group reports no error. |
| LogPipeline.ErrorIsCause | pkg/cli/debug_merge_logs.go:73-164 | Whatever error the group reports is that of the stream, of a rendering or of a write that failed. |
| LogPipeline.NoDeadlock | pkg/cli/debug_merge_logs.go:76-159 | Every reachable state has all goroutines returned or one that can move without a write failing: full channel, full buffer and cancellation never leave all three blocked. |
| LogPipeline.RunsAreFinite | pkg/cli/debug_merge_logs.go:76-159 | Every run has at most a number of steps known from the input. |
| LogPipeline.BuffersBounded | pkg/cli/debug_merge_logs.go:74-104 | In every state of every run the channel holds at most 65536 entries, and a buffer at most 262144 bytes and what one more entry adds. |
| LogPipeline.RunKeepsInv | pkg/cli/debug_merge_logs.go:73-164 | The invariant behind these (ownership of the two buffers, closing of channels, conservation) holds in every state of every run. |
| BufferedStream.DeliversSource | pkg/cli/debug_merge_logs.go:384-451 | Any number of streams over one context: in every interleaving of consumer, lazy producers and cancellation, what was popped and is peeked of a stream is a prefix of its source, each entry once and in order; once the consumer sees the end the producer no longer uses the wrapped stream; unless the context was cancelled it then has the whole source, and the error it reads is the source's. |
| BufferedStream.LazyProducer | pkg/cli/debug_merge_logs.go:380-398 | No producer of a stream exists before its first pop. |
| BufferedStream.NoDeadlock | pkg/cli/debug_merge_logs.go:411-445 | A consumer that waits for a stream is never stuck: a step of that stream can happen. |
| BufferedStream.ChannelBounded | pkg/cli/debug_merge_logs.go:412-413 | A stream's channel never holds more than 512 entries. |
| BufferedStream.StepsAreBounded | pkg/cli/debug_merge_logs.go:404-445 | In every run a stream makes at most three steps other than pops for each of its entries, so a waiting consumer, whose stream can always make one, gets its answer. |
| BufferedStream.ObserveIsFair | pkg/cli/debug_merge_logs.go:237-243 | The context is cancelled only by a producer that returned an error; in every run each stream is seen whole with its own failure, or cut short after a proper, non-empty prefix without one, and the latter only when another stream fails and is seen whole. |
| BufferedStream.SeenWholeIff | pkg/cli/debug_merge_logs.go:400-431 | A stream is seen whole in every run if and only if it has fewer than two entries or no other stream fails after yielding something. |
| BufferedStream.LooksFixed | pkg/cli/debug_merge_logs.go:411-451 | At every moment of every run, peek, pop and error on a stream answer as on the fixed stream that is observed in the end, less the entries popped so far. |
| BufferedStream.OtherStreamIsCut | pkg/cli/debug_merge_logs.go:424-428 | A run in which one file fails and the second entry of another is never seen. |
| LogFile.SeekToFirstAfterFrom | pkg/cli/debug_merge_logs.go:573-619 | The search loop computes `SeekResult`, including the error of a probe that fails. |
| LogFile.SeekStartsAtBoundary | pkg/cli/debug_merge_logs.go:589-618 | On any file, sorted or not, the first entry decoded from the offset is at or after `from` and the entry before it is before `from`; nothing is found only when decoding fails or the last entry is before `from`. |
| LogFile.SeekRefinesFilter | pkg/cli/debug_merge_logs.go:571-619 | On a readable file with ordered times, the entries decodable from the offset are exactly those at or after `from`. |
| FileStream.FileLogStream.Open | pkg/cli/debug_merge_logs.go:500-520 | Opening gives the error of the file, of its format detection or of its decoder; or it seeks again: the decoder stands at the seek point, or the stream holds the error of the search. |
| FileStream.FileLogStream.DecodeNext | pkg/cli/debug_merge_logs.go:531-555 | One decode consumes one entry: it skips the held entry after an open, raises the time, and keeps, skips or ends, such that what is still to be delivered is what one pass over the rest delivers. |
| FileStream.FileLogStream.Peek | pkg/cli/debug_merge_logs.go:522-558 | Peeking changes neither what is still to come nor how the stream ends; it yields the first entry to come, or the final error when there is none. |
| FileStream.FileLogStream.Pop | pkg/cli/debug_merge_logs.go:560-566 | Popping yields the first entry to come and leaves the others; peek and pop agree. |
| FileStream.NewFileLogStream | pkg/cli/debug_merge_logs.go:468-492 | A stream is returned exactly when the file opens and something is in range; it is closed, will deliver what the second opening lets it and end as `StreamEnd` says; otherwise the error of the first peek is returned unless it is io.EOF. |
| FileStream.StreamEndIsTail | pkg/cli/debug_merge_logs.go:500-566 | For every file and range, a stream ends with the error of the opening that failed, or else with io.EOF if an entry's raised time is after `to`, or else with the error its file ends with. |
| FileStream.Drain | pkg/cli/debug_merge_logs.go:414-423 | A consumer that pops until the end receives exactly what was to come, and then the final error. |
| FileStream.DeliverIsRunningMax | pkg/cli/debug_merge_logs.go:541-555 | Each entry delivered is the decoded entry of the same position with its time raised to the running maximum, and delivery stops exactly at the first raised time after `to`. |
| FileStream.DeliverIsSorted | pkg/cli/debug_merge_logs.go:542-555 | Delivered times never decrease and are in range, on any file. |
| FileStream.YieldIsSorted | pkg/cli/debug_merge_logs.go:522-566 | What a stream yields over its two openings is in time order and in range, on any file. |
| FileStream.DeliversExactlyOnce | pkg/cli/debug_merge_logs.go:468-566 | Peeking, closing, reopening and reading on delivers each entry exactly once if and only if reopening is safe for the first entry. |
| FileStream.ReopenRepeatsEarlyEntry | pkg/cli/debug_merge_logs.go:537-546 | The stream of a file that starts before the epoch delivers its first entry twice. |
| FileStream.SortedFileIsFiltered | pkg/cli/debug_merge_logs.go:468-619 | For a readable file with ordered times, search, two openings, ratchet and cut together are a filter on [from, to] if and only if nothing from the seek point is in range, or its first entry is neither before the epoch nor the zero entry, or is the zero entry followed by another. |
| FileStream.WithinIs | pkg/cli/debug_merge_logs.go:547-555 | The entries in range are those whose time is neither below `from` nor above `to`, as often as given. |
| HeapMerge.RootIsLeast | pkg/cli/debug_merge_logs.go:252-259 | In heap order no stream precedes the root. |
| HeapMerge.Merged.Init | pkg/cli/debug_merge_logs.go:246 | Heap initialisation gives heap order and keeps the streams. |
| HeapMerge.Merged.HeapPush | pkg/cli/debug_merge_logs.go:261-263 | Push keeps heap order and adds exactly the stream. |
| HeapMerge.Merged.HeapPop | pkg/cli/debug_merge_logs.go:265-270 | Pop removes exactly the old root and gives heap order, even when the caller changed the root before. |
| HeapMerge.Merged.Restore | pkg/cli/debug_merge_logs.go:285-293 | After an entry was taken from the root the heap order is restored: the root is sifted, left in place when it failed, dropped exactly when it ended. |
| HeapMerge.Merged.Pop | pkg/cli/debug_merge_logs.go:279-294 | Taking an entry advances the root's stream, or removes it at its end, restores heap order, and returns what peek gave if and only if the entry was not the last before a failure. |
| HeapMerge.Merged.ReadAll | pkg/cli/debug_merge_logs.go:78-86 | Reading to the end yields each file's entries in order, all of them when no error is reported; an error is reported if and only if some stream fails, it is that stream's error, and that stream was read completely; the result is in time order when each stream is. |
| HeapMerge.ProjectionsGivePermutation | pkg/cli/debug_merge_logs.go:279-294 | A result that holds each file's entries in order and nothing else is a permutation of all the entries. |
| LogMerge.OpenStream | pkg/cli/debug_merge_logs.go:220-230 | A file takes part exactly when it yields something, with what it yields and how it fails; a file that yields nothing gives its error, if any. |
| LogMerge.OpenAll | pkg/cli/debug_merge_logs.go:213-236 | All files' streams, or, if and only if some file fails before it yields anything, such a file's error. |
| LogMerge.NewHeap | pkg/cli/debug_merge_logs.go:237-248 | The heap holds, in heap order, exactly the streams that yield something. |
| LogMerge.LessLooksFixed | pkg/cli/debug_merge_logs.go:252-259 | At every moment of every run, Less on two live streams gives what it gives on the rest of the streams observed in the end. |
| LogMerge.FairMerge | pkg/cli/debug_merge_logs.go:237-294 | A merge of what is seen of the streams is a merge of the streams themselves: when some are cut short an error is reported, and it is that of a stream read to its end. |
| LogMerge.OrderlyYields | pkg/cli/debug_merge_logs.go:474-619 | Over readable files with ordered times no stream fails, and the streams yield exactly the entries in [from, to] if and only if each file is safe to read in two passes. |
| LogMerge.MergeFiles | pkg/cli/debug_merge_logs.go:208-294 | The whole chain over any files and under any schedule of consumer, producers and cancellation, with the heap's own sift loops: the entries read are in time order and hold of each file, in order, a prefix of what it yields; an error is reported if and only if some file's stream ends with one, and is that of a stream read to its end; without it the entries are a permutation of all that the files yield. |
| LogMerge.PeekedEntryIsDenied | pkg/cli/debug_merge_logs.go:286-290 | For a file with one entry that then fails to decode, peek shows the entry and pop denies it. |
| LiveMerge.TurnPops | pkg/cli/debug_merge_logs.go:279-294 | One turn of reading the heap over live streams, whatever producers and scheduler do meanwhile, does to what is left of the observed streams exactly what one pop does. |
| LiveMerge.LiveReadIsMerge | pkg/cli/debug_merge_logs.go:237-308 | Every run in which the pops are those a heap over live streams asks for: when nothing is left to show, what was handed on and the error given are a merge of the sources. |
| MergeLogs.InfosKeepPrefixes | pkg/cli/debug_merge_logs.go:78-80 | Each merged entry goes on with the prefix of the file it came from. |
| MergeLogs.WritesTheMerge | pkg/cli/debug_merge_logs.go:73-308 | For any files, any interleaving of producers and heap, and any interleaving of the goroutines that write: when these return without an error, no stream failed and what was written is the texts of those of the files' entries, in time order, that pass the filters. |
| MergeLogs.WritesSortedFilter | pkg/cli/debug_merge_logs.go:73-619 | For readable, ordered files that are safe to read in two passes: without a failing rendering or write nothing fails, and what is written is the texts of those that pass the filters of a time-ordered permutation of the entries in [from, to]. |
| BlobStream.Reader.TakeTail | pkg/blobs/stream.go:84-95 | The cached tail goes to the front of the caller's buffer; delivered bytes and bytes ahead make up what was ahead. |
| BlobStream.Reader.CutChunk | pkg/blobs/stream.go:105-113 | The part of a received chunk that fits followed by bytes ahead is what was ahead; something is cached only when the room is used up. |
| BlobStream.Reader.TakeChunk | pkg/blobs/stream.go:105-115 | A received chunk goes to the buffer and, as far as it does not fit, to the cache, with no byte lost. |
| BlobStream.Reader.Read | pkg/blobs/stream.go:79-118 | Delivered bytes followed by bytes ahead are what was ahead before; without an error the buffer is full or, exactly when it is not, the end was met; io.EOF comes if and only if the end was met before, with nothing left; only chunks and the item behind a reported error are consumed; the rest of the buffer is untouched. |
| BlobStream.Writer.Write | pkg/blobs/client.go:83-97 | The chunks accepted so far grow by exactly the first n bytes of the input, n falls short if and only if a send failed, every chunk has between one and chunkSize bytes and all but the last are full. |
| BlobStream.SendAll | pkg/blobs/client.go:83-97 | Any sequence of writes sends chunks that concatenate to the writes. |
| BlobStream.ReceiveAll | pkg/blobs/stream.go:79-118 | Reads of any sizes deliver a prefix of the stream; on a stream without failures exactly as much as they have room for, and the last one reports io.EOF exactly when those before it had room for more than all of it. |
| BlobStream.Transfer | pkg/blobs/client.go:83-112 | Writes of any sizes on one side and reads of any sizes on the other, for any chunk size: the reads deliver the written bytes in order up to the room they have; the last one reports io.EOF exactly when those before it had room for more. |
| BlobStream.StreamContent | pkg/blobs/stream.go:131-147 | For any reads and send outcomes: the chunks sent are exactly the non-empty reads before the last one made, and the result is the error seen after that one, a send's when it brought data, with io.EOF counting as success. |
| BlobStream.FailureWithDataIsLost | pkg/blobs/stream.go:135-145 | A read failure that comes with data, followed by io.EOF, is reported as success. |
| BlobStream.FailureIsLostIff | pkg/blobs/stream.go:131-147 | A failing read is reported as success if and only if every failing read made brings data, some does, and a send that ended the loop gave io.EOF. |
| BlobPut.Disk.Write | pkg/blobs/local_storage.go:78-80 | A write appends to the temporary file and leaves the destination alone. |
| BlobPut.Disk.Copy | pkg/util/fileutil/copy.go:39-54 | Every content the destination takes on: empty, then growing step by step up to the end or the failure; success exactly when nothing fails. |
| BlobPut.Disk.MoveOver | pkg/util/fileutil/move.go:24-35 | Every content the destination takes on by a rename, a failed rename or a copy across devices, and whether the temporary file is gone. |
| BlobPut.Disk.Close | pkg/blobs/local_storage.go:82-100 | A cancelled context, a failed sync or a failed close leaves the destination alone, and cancellation removes the temporary file; otherwise the file is moved; the contents the destination takes on are exactly those of the move. |
| BlobPut.AtomicIff | pkg/util/fileutil/move.go:20-35 | The destination only ever holds its old content or the new one if and only if the move does not copy, or there is nothing to copy, or the destination was empty and the copy stops at once or is done in one step. |
| BlobPut.CopyToTemp | pkg/blobs/service.go:85-88 | Copying succeeds exactly when the stream has no error and the data fits; then the temporary file holds all payloads. |
| BlobPut.PutStream | pkg/blobs/service.go:65-92 | For every combination of failures and cancellation: the destination is touched only after the context check, sync and close passed, and takes on exactly the contents of the move; these are only the old content and the whole stream if and only if the move is not reached or is atomic; success means the destination holds the whole stream and the temporary file is gone, and comes exactly when nothing failed; when the stream, the disk or the context fails the temporary file is removed unless removing fails, and it stays behind when sync, close or move fails. |
| BlobPut.CopyLeavesPart | pkg/util/fileutil/copy.go:38-52 | A copy across devices that fails half way leaves a destination that is neither the old nor the new content. |
| CopyEscape.AppendEscapedText | pkg/cli/nodelocal.go:129-165 | Both the path without special bytes and the escaping loop append the per-byte escape of the text. |
| CopyEscape.EscapesAre | pkg/cli/nodelocal.go:149-163 | Backslash, newline, carriage return and tab become a backslash and a letter; every other byte stays. |
| CopyEscape.EscapingReader.CopyBufferTo | pkg/cli/nodelocal.go:87-95 | The front of the buffer goes to the caller, the rest stays. |
| CopyEscape.EscapingReader.Gather | pkg/cli/nodelocal.go:106-118 | Reading ahead keeps what is to be delivered, stays within max(want, chunkSize) + chunkSize bytes, and leaves something to deliver unless the source ended. |
| CopyEscape.EscapingReader.Read | pkg/cli/nodelocal.go:97-123 | Delivered bytes followed by bytes ahead never change; io.EOF comes only when nothing is left; a non-empty buffer gets at least one byte; the bytes held are bounded; an error is a read that failed without data. |
| CopyEscape.EscapeStream | pkg/cli/nodelocal.go:97-165 | For any buffer sizes and any chunking, every read into a non-empty buffer brings something, the output is a prefix of the escape of the whole input, at io.EOF it is all of it and COPY reads it back as the input; any other error is that of a read without data. |
| CopyEscape.RoundTrip | pkg/cli/nodelocal.go:149-163 | COPY's reading of the escaped text is the text. |
| CopyEscape.NoRawSeparators | pkg/cli/nodelocal.go:149-163 | Escaped text has no raw newline, carriage return or tab. |
| Startup.ServerStatus.SetStarted | pkg/cli/start.go:929-940 | The server is handed over if and only if no shutdown was requested; otherwise what was stored stays. |
| Startup.ServerStatus.StartShutdown | pkg/cli/start.go:954-959 | Shutdown is recorded, and the server handed over before, if any, stays and is returned. |
| Startup.ExactlyOneStop | pkg/cli/start.go:820-849 | Once setStarted and startShutdown have both happened, exactly one call to Stop has been made or is owed by exactly one side; when both sides are through it has been made. |
| Startup.OneStopOneDrainPhase | pkg/cli/start.go:1147-1175 | In every interleaving Stop is called at most once, fatal errors included, and there is at most one drain phase, which makes all the calls to Drain, at least one when it ends. |
| Startup.DrainsIffGraceful | pkg/cli/start.go:1138-1175 | Once the shutdown side owes Stop, or is through with a server handed over in time, the server is being or was drained if and only if a signal or the server's request for a graceful shutdown started it. |
| Startup.StartupCompletes | pkg/cli/start.go:820-889 | Start-up that ended without reporting a failure has made all four serving steps or gave way to a shutdown that came first, and watches for the server's requests. |
| Startup.PublishesOnlyPrepared | pkg/cli/start.go:812-877 | Only a server that was created and pre-started is handed over; a failure is reported only after a step that failed. |
| Startup.DrainOnlyAfterHandOver | pkg/server/drain.go:547-589 | Every call to Drain, repeated or not, is on a server that was handed over, after shutdown was announced and before Stop. |
| Startup.ServesOnlyAfterHandOver | pkg/cli/start.go:850-874 | Clients are let in only on a server that was handed over. |
| Startup.SendsDoNotBlock | pkg/cli/start.go:875-889 | Neither the start-up goroutine nor the watcher ever has to wait to report a shutdown reason. |
| Startup.MainCanReturn | pkg/cli/start.go:1077-1128 | When the shutdown goroutine is through, the main goroutine can return. |
| Startup.MainWaitsForShutdown | pkg/cli/start.go:1077-1128 | During a shutdown the main goroutine returns only when the server was stopped, it was too early to drain, or a request came that is not graceful; another signal to terminate or a graceful request lets it go on. |
| Startup.RunKeepsInv | pkg/cli/start.go:820-1175 | The ownership, hand-over and request invariants hold in every state of every run. |
| RaftCheck.Scan | pkg/cli/debug_check_store.go:235-292 | The scan stops at a key that does not decode; otherwise it holds, for exactly the ranges seen, the first and last log index and the latest applied, committed and truncated index, and has printed an anomaly if and only if some range has a gap. |
| RaftCheck.Check | pkg/cli/debug_check_store.go:212-321 | A key that does not decode is an error; otherwise no problem is reported if and only if every range seen is healthy: consecutive positive log indices, truncated index zero or one before the first, first <= applied <= last, applied <= committed <= last. |
| RaftCheck.SoundMeans | pkg/cli/debug_check_store.go:235-320 | For a range with records and at most 2^64 log entries, a sound verdict means: the log is an interval without a hole, the truncated index, if set and there is a log, is the one right before it, and first <= applied <= committed <= last. |
| RaftCheck.InterleavingIrrelevant | pkg/cli/debug_check_store.go:244-289 | Two scans that both decode or both do not, and in which every range has the same values of each kind of key in the same order, give the same verdict, however the keys of ranges and kinds interleave. |
| Decommission.Tally | pkg/cli/node.go:588-593 | The loop computes whether any target is active and the 64-bit sum of the replica counts. |
| Decommission.FinishedMeansEmpty | pkg/cli/node.go:588-595 | With non-negative counts, "finished" means that no target is active and none has a replica if and only if some target is active or the counts do not sum to a positive multiple of 2^64. |
| Decommission.OverflowLooksEmpty | pkg/cli/node.go:589-595 | Counts that wrap around together look like zero replicas. |
| Decommission.PreCheckReady | pkg/cli/node.go:790-804 | Ready if and only if the checks are off or every node is ready or already decommissioned. |
| Decommission.StreakIsLongest | pkg/cli/node.go:554-586 | The streak is the longest run of replies, up to the last, that each equalled their predecessor. |
| Decommission.ReportIs | pkg/cli/node.go:554-586 | A request asks for 5 replicas if and only if the 16 replies before it each equalled their predecessor, and for none otherwise. |
| Decommission.RefreshesIs | pkg/cli/node.go:571-583 | The pre-check is repeated exactly at the 16th reply in a row that equals its predecessor, when checks are on. |
| Decommission.Compare | pkg/cli/node.go:554-586 | A round fails exactly when a new reply cannot be printed or the 16th equal one cannot refresh the pre-check; the counters follow the streak. |
| Decommission.Poll | pkg/cli/node.go:537-647 | Request k asks for 5 replicas if the last 16 or more replies each equalled their predecessor, and for 0 otherwise; polling goes on to draining if and only if it gets to a reply with no active target and zero replicas with nothing failing up to it (a print only of a new reply, a repeated pre-check only on the 16th equal one); without waiting there is at most one request. |
| Decommission.FinishNodes | pkg/cli/node.go:599-632 | Every target but the serving node is drained in order up to the first failure; DECOMMISSIONED follows if and only if none failed. |
| Decommission.MarkDoneIsLast | pkg/cli/node.go:599-628 | DECOMMISSIONED is asked for once, last, if and only if no drain failed, after draining every target other than the serving node. |
| Decommission.FinalRequestsAre | pkg/cli/node.go:599-632 | The final requests drain exactly the targets other than the serving node, each in its place, and then mark all; or they stop at the first that fails. |
| Decommission.TargetsAre | pkg/cli/node.go:599-607 | Each given target is among those drained as often as it is given, the serving node never. |
| Decommission.TargetsInOrder | pkg/cli/node.go:599-607 | The targets to drain keep the order they were given in. |
| Decommission.DecommissionedAtMostOnce | pkg/cli/node.go:538-632 | Over a whole run, DECOMMISSIONED is asked for at most once, as the last request. |
| Decommission.RunChecks | pkg/cli/node.go:500-535 | The requests of the checks; the driver proceeds if and only if it is no dry run and the pre-check passes. |
| Decommission.ChecksAre | pkg/cli/node.go:500-522 | Which requests the checks make: with checks off only the status, and only on a dry run; otherwise a pre-check, strict or not, and, unless it failed, the status on a dry run or a bad reply. |
| Decommission.Run | pkg/cli/node.go:460-648 | A dry run or a failed pre-check makes no Decommission request; draining follows if and only if neither is the case and polling gets to a finished reply without a failure; success means everything was drained and marked, or one request was made without waiting. |
| DrainNode.DoDrain | pkg/cli/rpc_node_shutdown.go:127-209 | Request k is verbose if and only if an earlier round failed to bring the remaining work strictly down, and quiet ones are bounded by the first report; rounds go on exactly while they complete with work left; the three results are what the last round says; success comes if and only if the last round completes and its last message says zero remaining or not draining. |
| DrainNode.ZeroMeansDrained | pkg/cli/rpc_node_shutdown.go:163-197 | After rounds that completed with work left, the work is zero if and only if the last message of the last round says zero remaining or not draining. |
| DrainNode.ReadMessages | pkg/cli/rpc_node_shutdown.go:151-191 | After a round the remaining work is what its last message says, zero when the server is not draining, and unchanged without a message. |
| DrainNode.QuietRequestsBounded | pkg/cli/rpc_node_shutdown.go:199-203 | At most first reported remaining + 1 requests are not verbose. |
| RecoveryDiff.ReportStatus | pkg/cli/debug_recover_loss_of_quorum.go:1074-1096 | A status adds the line its case calls for; it counts as pending if and only if a named node has this plan staged and not applied, and as an error if and only if a named node failed to apply it or has it neither applied nor staged, or another node has a plan staged. |
| RecoveryDiff.LinesAre | pkg/cli/debug_recover_loss_of_quorum.go:1074-1096 | Which line, if any, each case of a status gives: seven kinds, and none for a node that is not named and has nothing staged. |
| RecoveryDiff.ReportMissing | pkg/cli/debug_recover_loss_of_quorum.go:1098-1107 | Every named node without a status adds one error line. |
| RecoveryDiff.DiffPlanWithNodeStatus | pkg/cli/debug_recover_loss_of_quorum.go:1052-1130 | With one status per node, something is pending, or there is an error, exactly when some status, or for errors a named node without one, says so. When the plan also names a node, both counts are zero if and only if every named node applied this plan without an error and no other node has a plan staged, and each named node has exactly one line. |
| RecoveryDiff.NamedIs | pkg/cli/debug_recover_loss_of_quorum.go:1057-1063 | The plan names the nodes it updates and those with stale leases. |
| RecoveryDiff.Verify | pkg/cli/debug_recover_loss_of_quorum.go:1016-1029 | "Recovery is complete" is concluded if and only if there are updates, dead nodes are decommissioned, ranges are available and the plan is through; "not finished" if and only if there are updates and a dead node is not decommissioned or some named node has the plan only staged; the other verdicts by errors and unavailable ranges. |
| PebbleOptions.TurnIsNormal | pkg/base/store_spec.go:418-435 | One turn of the loop keeps whether the text can be scanned, makes progress when it can, and writes what the normal form starts with. |
| PebbleOptions.TurnInText | pkg/base/store_spec.go:418-435 | For trimmed text with every bracket closed, one turn in terms of the text alone: all of it when it has neither bracket nor whitespace; up to the first closing bracket after an opening one; or up to the first whitespace with a newline for the whole run. |
| PebbleOptions.SpacesAre | pkg/base/store_spec.go:419-432 | Which characters are whitespace, and which of them take one byte. |
| PebbleOptions.LoopEndsIffBalanced | pkg/base/store_spec.go:415-436 | The loop ends if and only if every bracket it reaches is closed later and it reaches no multibyte whitespace outside brackets and outside a run that starts with one-byte whitespace. |
| PebbleOptions.UnclosedBracketSpins | pkg/base/store_spec.go:418-425 | On an unclosed bracket the loop never moves on. |
| PebbleOptions.WideSpaceSpins | pkg/base/store_spec.go:418-435 | On multibyte whitespace no case applies and the loop never moves on. |
| PebbleOptions.Normalize | pkg/base/store_spec.go:415-436 | The loop computes the normal form: bracketed text verbatim, each whitespace run outside brackets one newline. |
| PebbleOptions.PrintThenParse | pkg/base/store_spec.go:267-272 | Printing options and parsing them again ends, and is the identity if and only if no bracket holds a newline. |
| PebbleOptions.PrintIs | pkg/base/store_spec.go:268 | Printing replaces every newline by a space and nothing else. |
| PebbleOptions.NewlineInStanzaIsLost | pkg/base/store_spec.go:267-272 | A bracket with a newline does not survive printing and parsing. |
| Latin1.ConvertFromUTF8 | pkg/cli/decode.go:195-210 | The loop computes `Decode`, with no output on failure. |
| Latin1.DecodeEncode | pkg/cli/decode.go:195-210 | Converting the encoding of any bytes gives the bytes. |
| Latin1.EncodeDecode | pkg/cli/decode.go:195-210 | Only the encoding of the result converts to it. |
| Latin1.SucceedsExactlyOnEncodings | pkg/cli/decode.go:195-210 | Conversion succeeds exactly on UTF-8 encodings (section 3 of RFC 3629) of code points up to 0xff. |
| WalFailover.WALFailoverConfig.Set | pkg/base/config.go:934-959 | The fields and the verdict after setting the flag, including fields set before the text is rejected. |
| WalFailover.AcceptedIff | pkg/base/config.go:934-981 | The texts accepted: `among-stores`; a non-empty path without a comma; `disabled`; the latter two with or without a previous path; and `disabled` followed by an empty path, which the documented form does not have. |
| WalFailover.AcceptedIsProper | pkg/base/config.go:934-981 | On any configuration, an accepted text leaves an explicit path without a comma, no path when disabled, and the paths set before with `among-stores`. |
| WalFailover.PrintThenParse | pkg/base/config.go:909-981 | On any configuration, an accepted text leaves a configuration that prints to a text parsing back to the same mode, path and previous path, if and only if the text is not `among-stores` or no path was set before. |
| WalFailover.SetTwiceKeepsStalePath | pkg/base/config.go:944-945 | On a configuration set before, a stale path survives and is not printed. |
| RaftDefaults.MaxInflightBytesFrom | pkg/base/config.go:784-793 | The product saturates at 2^64 - 1; a negative product counts as too large. |
| RaftDefaults.RaftConfig.SetDefaults | pkg/base/config.go:631-707 | Every field after the call, and whether it panics. |
| RaftDefaults.TimingDefaultsAre | pkg/base/config.go:631-701 | Each unset timing field takes its own default; each set one stays. |
| RaftDefaults.SizeDefaultsAre | pkg/base/config.go:659-666 | The quota, unless set, is half the truncation threshold, rounded toward zero. |
| RaftDefaults.UncommittedDefaultIs | pkg/base/config.go:667-673 | A set uncommitted size stays; unset, it is twice a non-negative quota below 2^62. |
| RaftDefaults.InflightDefaultsAre | pkg/base/config.go:674-692 | Message and ready sizes and the number of messages take their own defaults; the bytes in flight are the larger of their default and what the messages need. |
| RaftDefaults.DefaultsAre | pkg/base/config.go:631-707 | Each field of the result is the one defaulted from the field of the same name, and quorum checks are on when set or on by default. |
| RaftDefaults.Idempotent | pkg/base/config.go:650-654 | A second call changes nothing. |
| RaftDefaults.InflightBytesSuffice | pkg/base/config.go:684-692 | For a non-negative number of messages, the bytes in flight are at least messages times size, or 2^64 - 1. |
| RaftDefaults.PanicsIff | pkg/base/config.go:667-706 | With the uncommitted size unset the call panics if and only if the quota is in [-2^62, 0) or at least 2^62; with a size below 2^63 if and only if the quota exceeds it; with a larger one if and only if the quota exceeds it less 2^64. |
| RaftDefaults.LargestSizePanics | pkg/base/config.go:702-706 | A quota of 1 panics with an uncommitted size of 2^64 - 1. |
| RaftDefaults.DerivedNeverPanics | pkg/base/config.go:659-706 | Deriving quota and uncommitted size from a non-negative truncation threshold never panics. |
| RaftDefaults.NegativeThresholdPanics | pkg/base/config.go:659-706 | A negative truncation threshold panics. |

## Left out

- RaftCheck.SoundMeans: is stated for logs of at most 2^64 entries, because a longer one would repeat a 64-bit index; the verdict itself (`RaftCheck.Check`) has no such bound.
- HeapMerge.Merged.ReadAll: the sift loops work on fixed streams; over live ones (`LiveMerge`) the heap may be put in order in any way.
- LogMerge.OpenAll: files are opened one after the other instead of at most 256 at a time; the contract leaves open which failing file's error is returned.
- FileStream.FileLogStream.Open: the content of a file does not change between the two openings, though either opening can fail.
- LogFile.SeekToFirstAfterFrom: a decoding error occurs only past the last entry, not between entries.
- PebbleOptions.Normalize: text is a sequence of runes, so bytes that are no UTF-8 are not modelled; the pebble parser that validates the result, and the splitting of the flag at commas and equal signs, are not modelled.
- Startup: the verbosity of repeated Drain calls is not modelled; exits by signal and fatal errors are terminal steps, and the time a drain takes is not modelled.
- Decommission.Run: the back-off between requests and what is printed are not modelled.
- RecoveryDiff.DiffPlanWithNodeStatus: lines are a kind and a node, in the order statuses arrive; sorting them for the reader is left out, and so are the texts of the lines listed without a plan.
- RaftDefaults.RaftConfig.SetDefaults: the renewal fraction is a real number, and the defaults, which come from the environment, are a parameter.
- DrainNode.DoDrain: the rewording of the error of an uninitialised node is not modelled.
- GetStream, listing, deleting and inspecting blobs, and path containment: they would only add easy members.
- The size fields of a store specification: they print through a library that loses precision.
- Range statistics in the store check, recommissioning, and the remaining commands: flag handling, terminal output and remote calls with no state of their own.
- Certificates, authentication, SQL connections and release scripts.
