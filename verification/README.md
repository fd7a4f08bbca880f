# A verified model of ijkplayer's native core

The Android player ijkplayer carries its own C sources for reading ahead, caching
to disk, queueing packets and frames, and passing requests between threads. This
project models those parts in Dafny and proves what they are for. Abbreviating
`ijkplayer-armv7a/src/main/jni/ijkmedia/ijkplayer/` to nothing:

| source | model |
|---|---|
| `ijkavutil/ijktree.c` | `AvlTree.dfy` (the algorithm on tree values and its theory), `AvlHeap.dfy` (the same on linked nodes, rewritten in place) |
| `ijkavutil/ijkfifo.c` | `Fifo.dfy`: an array with read and write index; the indices are 32 and 64 bits wide as in the source |
| `ijkavformat/ijkasync.c` | `Ring.dfy` (the ring that keeps what was read), `AsyncProtocol.dfy` (reader and filler as atomic steps), `AsyncProof.dfy`, `AsyncAnswers.dfy` (what calls are answered) |
| `ijkavformat/ijkiocache.c` | `CacheIndex.dfy`, `CacheStorage.dfy`, `SyncTrace.dfy`, `SyncCache.dfy` and `SyncCacheWitness.dfy` (read-through cache), `PrefetchProtocol.dfy`, `PrefetchProof.dfy`, `PrefetchRuns.dfy`, `PrefetchLimits.dfy`, `PrefetchAnswers.dfy`, `PrefetchProgress.dfy`, `PrefetchWitness.dfy` (cache with a prefetching task) |
| `ijkavformat/ijkiomanager.c` | `IndexText.dfy`, `IndexFile.dfy`, `IndexRoundTrip.dfy`: saving and parsing the index |
| `ff_ffplay.c` | `PacketQueue.dfy`, `Decoder.dfy`, `DecoderRuns.dfy`, `FrameQueue.dfy`, `AccurateSeek.dfy` |
| `ijkavutil/ijkthreadpool.c` | `ThreadPool.dfy` |
| `ff_ffmsg_queue.h`, `ijkplayer.c` | `NodeList.dfy` (the linked list with recycled nodes that packet and message queue share), `MessageQueue.dfy`, `Player.dfy`, `Coalescing.dfy` |
| `ijkavformat/ijkurlhook.c` | `UrlHook.dfy` |

`Common.dfy` and `Source.dfy` hold what several of them share: `Matches(src, pos,
data)` says that some data is what the source holds at a position, and `Url` is an
inner source with a position whose short reads and failures are arbitrary.

## How it is modelled

Objects that the source updates in place are classes, and their methods are proved
against functions on sequences, maps and tree values. Code that two threads run
together is a state machine: one step is what a thread does between two points
where the other can interfere, that is a locked section, a sleep, a wake-up
(spurious ones included), or an access without the mutex; accesses without it share
a step only if at most one of them can make a difference to the other thread or
depend on it. A run is a sequence of
states and steps from the initial state with what the caller sees of each step, so
a theorem about `states[k]` and `events[k]` of any run holds in every interleaving.
`PlainStep`, `PlainCall` and `Answered` say which events a plain source with a
position allows, and the `Answers` modules which call an event answers and what the
environment did to cause it.

The functions `AsyncProtocol.RunReader` and `RunFiller` are `async_read_internal`,
`async_seek`, `async_close` and `async_buffer_task`. `PrefetchProtocol.RunReader` and
`RunFiller` are `ijkio_cache_read`, `ijkio_cache_seek`, `ijkio_cache_close` and
`ijkio_cache_task` with `ijkio_cache_write_file` and `add_entry`.
`Decoder.RunReceive`, `RunFetch` and `RunUse` are the parts of
`decoder_decode_frame`. `AccurateSeek.Next` holds the sections of `queue_picture`,
`audio_thread` and `read_thread` that touch the request flags.

## Main results

- Read-ahead: `AsyncProof.RunRefinesPlainSource`, `NoLostWakeUp`, `FillerServesSleepingReader`; `AsyncAnswers.RunAnswersCalls`, `EveryCallIsAnsweredOnce`.
- Index tree: `AvlTree.InsertElems`, `InsertReturns`, `InsertBalanced`, `HeightLogarithmic`, `FindSpec`, refined in place by `AvlHeap.InsertNode`.
- FIFO: `Fifo.IndicesExact`, and the methods of `FifoBuffer` on its `Contents()`.
- Disk cache: `SyncCache.Cache.Session` with `SyncTrace.TraceIsPlain`; `PrefetchRuns.RunRefinesPlainSource`, `BetweenIsCached`, `AccountsAgree`, `CapacityKept`, `NoLostWakeUp`; `PrefetchAnswers.RunAnswersCalls`; `PrefetchProgress.FetchedIsKept`; and in `PrefetchLimits` the exact conditions under which it falls short.
- Index file: `IndexRoundTrip.RoundTripExactly`, `RestoredCoherent`, `ParsedSavable`.
- Decoding: `Decoder.FramesOfTheEpoch`, `SubtitlesExactly`; `DecoderRuns.NothingIsLost`, `CodecIsAnswered`; `AccurateSeek.ReportedExactlyOnce`; `FrameQueues.FrameQueue.Session`.
- Requests: `Coalescing.RequestsAreCoalesced`; tasks: `ThreadPools.ThreadPool.Session`, `Add`; what the user sees: `Player.SeekIsShown`, `LastOneDecides`, `StartsFromTheBeginning`.
- Reconnecting: `UrlHooks.HttpHook.Session` with `ReadsAreConsecutive`.

## Where the code does less than it promises

Most of these have a concrete run or input in the model, and the exact condition
beside it.

- A subtitle decoded while a seek comes is returned as one of the new epoch, because `ret` survives the change of the serial (`ff_ffplay.c:634-644`, then 606-612): `SubtitleMayBeStale`, `SubtitlesExactly`, `CarriedExactly`. Audio and video are not affected.
- The prefetching cache reports the end of the source when a seek of the inner source fails (`ijkiocache.c:440-447`), and when a read fails and the caller looks between the assignments of the end flag and the error (463-464): `EndMayComeEarly`, `FailureMayLookLikeAnEnd`, `EndsEarlyExactly`.
- When the failing seek goes to the front, the inner position is recorded as 0 (442-444) and the next bytes are taken from elsewhere, unless a seek that works comes first: `WrongByteMayBeRead`, `AstrayExactly`, `DesyncExactly`.
- A seek that is interrupted returns AVERROR_EXIT, and the position may still move to its target afterwards, because the filler takes the mutex without looking at the request again (497-508): `PositionMayMoveLate`, `MovesUnseenExactly`.
- The code of a full or broken cache file, -100, is also the code of a network that is down; then the filler leaves, and a seek waits for ever (522-524): `TaskMayLeave`, `LeftForEver`.
- The filler tests whether to sleep without the mutex (510), so a close that comes in between waits for ever (1086-1093): `CloseMayHang`, `NoLostWakeUp`.
- When the rewind of a flush fails, the recorded offset is 0 and the real one is not (215-222). Nothing is wrong yet, since the index is empty; the next write that takes a byte makes the index wrong, and emptying the index at the next flush or wipe mends it: `WrongByteAfterFailedRewind`, `SyncAddEntry`, `MisplacedWrite`. `Session` is a run of the plain source as long as no such rewind fails, whatever else does; after one that fails, every call is answered as by the plain source but a read of a position that is wrongly indexed.
- The thread pool's ring survives its growth only if the first task is at the front (`ijkthreadpool.c:159-168`): `Add`, `GrowthExactly`, `GrowthLosesATask`.
- The completion of an accurate seek is reported early when a thread finds its good frame for a position that was superseded (`ff_ffplay.c:1570-1575`): `ReportMayBeEarly`, `ReportedExactlyOnce`, `ReportsExactly`.
- A failing seek of the HTTP hook returns 0 when the application does not handle it, and its read then returns 0 and clears the error (`ijkurlhook.c:316-332`, 384-411): `SeekMayReturnZero`, and the exact results of `Read` and `Seek`. A retried opening ignores the offset option (`Open`).
- An index with negative values or keys beyond an int does not come back from its file: `RoundTripExactly`.
- A forward seek inside the read-ahead ring may stop early at an end, error or interruption and returns where it stopped; `PlainStep` says so.
- `ijkasync.c:153` asserts that the offset is at most minus the ring size; the model takes the evident intent, at most the ring size (`Ring.RingBuffer.Move`).

The environment (inner sources, files, the application, the codec, clocks and
interrupt callbacks) is a list of replies or a parameter of a step and may do
anything its interface allows; the exceptions are listed at the end.

## Model

| member | source | states |
|---|---|---|
| `AvlTree.InsertElems` | ijkplayer-armv7a/src/main/jni/ijkmedia/ijkplayer/ijkavutil/ijktree.c:60-145 | Insertion adds exactly the given entry unless its position is taken; deletion removes exactly the entry with that position; the order stays strict; the spare node is left over, or one is released, exactly when the position was present |
| `AvlTree.InsertReturns` | ijkplayer-armv7a/src/main/jni/ijkmedia/ijkplayer/ijkavutil/ijktree.c:60-145 | What a call returns if not NULL: insertion, the element that has the position already or else the inserted one; deletion, the given element if none has the position, else that one or the neighbour that was moved |
| `AvlTree.InsertBalanced` | ijkplayer-armv7a/src/main/jni/ijkmedia/ijkplayer/ijkavutil/ijktree.c:82-135 | Insertion and deletion keep every `state` equal to right minus left height and within -1..1; NULL is returned exactly when the height changed |
| `AvlTree.HeightLogarithmic` | ijkplayer-armv7a/src/main/jni/ijkmedia/ijkplayer/ijkavutil/ijktree.c:60-145 | A balanced tree of height h has at least 2^(h/2) - 1 elements |
| `AvlTree.FindSpec` | ijkplayer-armv7a/src/main/jni/ijkmedia/ijkplayer/ijkavutil/ijktree.c:40-58 | The search returns the element with the key if there is one; the slots hold the greatest smaller and the least greater element, and keep their value where there is none |
| `AvlTree.EnumerateSpec` | ijkplayer-armv7a/src/main/jni/ijkmedia/ijkplayer/ijkavutil/ijktree.c:156-169 | Exactly the elements in the range are visited, in order and each once |
| `AvlTree.RotateBalanced0` | ijkplayer-armv7a/src/main/jni/ijkmedia/ijkplayer/ijkavutil/ijktree.c:110-129 | A single or double rotation of a node whose left child is two levels deeper makes it balanced and tells whether the height shrank |
| `AvlTree.RotateBalanced1` | ijkplayer-armv7a/src/main/jni/ijkmedia/ijkplayer/ijkavutil/ijktree.c:110-129 | The mirror image: the right child is two levels deeper |
| `AvlTree.RotateElems0` | ijkplayer-armv7a/src/main/jni/ijkmedia/ijkplayer/ijkavutil/ijktree.c:110-129 | The rotation of a left-heavy node keeps the elements and their order |
| `AvlTree.RotateElems1` | ijkplayer-armv7a/src/main/jni/ijkmedia/ijkplayer/ijkavutil/ijktree.c:110-129 | The rotation of a right-heavy node keeps the elements and their order |
| `AvlTree.UnwindBalanced` | ijkplayer-armv7a/src/main/jni/ijkmedia/ijkplayer/ijkavutil/ijktree.c:83-135 | The state arithmetic after the recursive call restores balance, and passes on whether the height of the whole node changed |
| `AvlTree.UnwindElems` | ijkplayer-armv7a/src/main/jni/ijkmedia/ijkplayer/ijkavutil/ijktree.c:83-135 | The work after the recursive call keeps elements and order |
| `AvlTree.UnwindCanRotate` | ijkplayer-armv7a/src/main/jni/ijkmedia/ijkplayer/ijkavutil/ijktree.c:110-129 | A rotation never follows a null child pointer |
| `AvlTree.FoundElems` | ijkplayer-armv7a/src/main/jni/ijkmedia/ijkplayer/ijkavutil/ijktree.c:67-81 | Deletion of an inner element by its neighbour removes exactly that element |
| `AvlHeap.FindNode` | ijkplayer-armv7a/src/main/jni/ijkmedia/ijkplayer/ijkavutil/ijktree.c:40-58 | The search over linked nodes fills `next` and returns what the search over the tree value does |
| `AvlHeap.EnumerateNodes` | ijkplayer-armv7a/src/main/jni/ijkmedia/ijkplayer/ijkavutil/ijktree.c:156-169 | The callback gets the enumeration of the tree value, in order |
| `AvlHeap.InsertNode` | ijkplayer-armv7a/src/main/jni/ijkmedia/ijkplayer/ijkavutil/ijktree.c:60-145 | Rewriting the pointers in place yields a proper tree of pairwise different nodes whose value, result and spare node are those of the specification; no node is lost or shared |
| `AvlHeap.UnwindNodes` | ijkplayer-armv7a/src/main/jni/ijkmedia/ijkplayer/ijkavutil/ijktree.c:83-135 | The in-place work after the recursive call refines the one on values |
| `AvlHeap.ReplaceNode0` | ijkplayer-armv7a/src/main/jni/ijkmedia/ijkplayer/ijkavutil/ijktree.c:70-82 | In-place deletion by the left neighbour refines deletion on values |
| `AvlHeap.ReplaceNode1` | ijkplayer-armv7a/src/main/jni/ijkmedia/ijkplayer/ijkavutil/ijktree.c:70-82 | In-place deletion by the right neighbour refines deletion on values |
| `Fifo.IndicesExact` | ijkplayer-armv7a/src/main/jni/ijkmedia/ijkplayer/ijkavutil/ijkfifo.c:79-82 | After any history of writes and drains that never held more than the capacity, the difference of the truncated write index and the 64-bit read index is the number of bytes held |
| `Fifo.FifoBuffer.Size` | ijkplayer-armv7a/src/main/jni/ijkmedia/ijkplayer/ijkavutil/ijkfifo.c:79-82 | The size equals the number of bytes held |
| `Fifo.FifoBuffer.Space` | ijkplayer-armv7a/src/main/jni/ijkmedia/ijkplayer/ijkavutil/ijkfifo.c:84-87 | Space and contents make up the buffer |
| `Fifo.FifoBuffer.Reset` | ijkplayer-armv7a/src/main/jni/ijkmedia/ijkplayer/ijkavutil/ijkfifo.c:73-77 | The queue is empty |
| `Fifo.FifoBuffer.Write` | ijkplayer-armv7a/src/main/jni/ijkmedia/ijkplayer/ijkavutil/ijkfifo.c:124-151 | A write appends its bytes |
| `Fifo.FifoBuffer.WriteFrom` | ijkplayer-armv7a/src/main/jni/ijkmedia/ijkplayer/ijkavutil/ijkfifo.c:124-151 | A write through a callback appends the prefix that the callback delivered, which is what the source holds at its position; it is short only if the last call gave nothing |
| `Fifo.FifoBuffer.PeekAt` | ijkplayer-armv7a/src/main/jni/ijkmedia/ijkplayer/ijkavutil/ijkfifo.c:153-189 | The result is the slice at the offset and nothing changes |
| `Fifo.FifoBuffer.Peek` | ijkplayer-armv7a/src/main/jni/ijkmedia/ijkplayer/ijkavutil/ijkfifo.c:191-213 | The result is the prefix and nothing changes |
| `Fifo.FifoBuffer.Read` | ijkplayer-armv7a/src/main/jni/ijkmedia/ijkplayer/ijkavutil/ijkfifo.c:215-232 | The prefix is returned and removed |
| `Fifo.FifoBuffer.Drain` | ijkplayer-armv7a/src/main/jni/ijkmedia/ijkplayer/ijkavutil/ijkfifo.c:235-242 | The prefix is removed |
| `Fifo.FifoBuffer.Realloc2` | ijkplayer-armv7a/src/main/jni/ijkmedia/ijkplayer/ijkavutil/ijkfifo.c:89-107 | Contents are kept; it succeeds exactly if the size suffices already or memory can be had, and otherwise changes nothing |
| `Fifo.FifoBuffer.Grow` | ijkplayer-armv7a/src/main/jni/ijkmedia/ijkplayer/ijkavutil/ijkfifo.c:109-120 | Contents are kept, success means there is room for the size, and overflow of the 32-bit sum fails without a change |
| `Ring.RingBuffer.Reset` | ijkplayer-armv7a/src/main/jni/ijkmedia/ijkplayer/ijkavformat/ijkasync.c:107-111 | The ring is empty |
| `Ring.RingBuffer.GenericRead` | ijkplayer-armv7a/src/main/jni/ijkmedia/ijkplayer/ijkavformat/ijkasync.c:123-137 | The bytes after the read position are returned; what is behind it is trimmed to the read-back capacity |
| `Ring.RingBuffer.GenericWrite` | ijkplayer-armv7a/src/main/jni/ijkmedia/ijkplayer/ijkavformat/ijkasync.c:139-143 | What the source delivers is appended; the read position stays |
| `Ring.RingBuffer.Move` | ijkplayer-armv7a/src/main/jni/ijkmedia/ijkplayer/ijkavformat/ijkasync.c:150-156 | Any move between the oldest byte kept and the end changes the read position only |
| `Ring.View.AfterRead` | ijkplayer-armv7a/src/main/jni/ijkmedia/ijkplayer/ijkavformat/ijkasync.c:123-137 | A read leaves a valid ring that is no longer than before |
| `Ring.ReadKeeps` | ijkplayer-armv7a/src/main/jni/ijkmedia/ijkplayer/ijkavformat/ijkasync.c:123-137 | After a read exactly the unread bytes are to be read, and of the others exactly as many are kept as fit the capacity for going back |
| `AsyncProof.RunRefinesPlainSource` | ijkplayer-armv7a/src/main/jni/ijkmedia/ijkplayer/ijkavformat/ijkasync.c:213-296 | In every run of the two threads every event the caller sees is one of a plain source: bytes are those at its position, a seek result that is not negative is the position of the next byte, an end is reported only at the end |
| `AsyncAnswers.RunAnswersCalls` | ijkplayer-armv7a/src/main/jni/ijkmedia/ijkplayer/ijkavformat/ijkasync.c:388-522 | In every run what the caller sees answers its last call, with the size and the target of that call, and nothing was seen in between; a read gives what the ring held when it looked; a call fails only at the end, after an interruption, with a code with which the inner source failed, or as a refused call |
| `AsyncAnswers.EveryCallIsAnsweredOnce` | ijkplayer-armv7a/src/main/jni/ijkmedia/ijkplayer/ijkavformat/ijkasync.c:388-522 | In every state the last call still runs and is about what was asked, or was answered by exactly one event |
| `AsyncAnswers.RefusedExactly` | ijkplayer-armv7a/src/main/jni/ijkmedia/ijkplayer/ijkavformat/ijkasync.c:466-493 | A seek is refused exactly if its target is negative, or neither near nor within the claimed size; it returns at once exactly if refused or if its target is kept, and then loses nothing that is kept |
| `AsyncAnswers.StepReasons` | ijkplayer-armv7a/src/main/jni/ijkmedia/ijkplayer/ijkavformat/ijkasync.c:213-522 | Every step keeps the account of why a call may fail |
| `AsyncProof.StepOk` | ijkplayer-armv7a/src/main/jni/ijkmedia/ijkplayer/ijkavformat/ijkasync.c:388-434 | Every atomic step of either thread keeps the invariant on window, rebase, mutex and reservation, and moves the caller as the plain source moves |
| `AsyncProof.NoLostWakeUp` | ijkplayer-armv7a/src/main/jni/ijkmedia/ijkplayer/ijkavformat/ijkasync.c:224-293 | The threads are never both asleep; a reader asleep on an empty ring before the end leaves room of the forward capacity and a running filler; a pending seek finds the filler running; close does not wait for a sleeping filler |
| `AsyncProof.FillerServesSleepingReader` | ijkplayer-armv7a/src/main/jni/ijkmedia/ijkplayer/ijkavformat/ijkasync.c:227-267 | The filler a blocked reader waits for fills, serves the seek or wakes the reader in its next locked section |
| `AsyncProof.ReaderOk` | ijkplayer-armv7a/src/main/jni/ijkmedia/ijkplayer/ijkavformat/ijkasync.c:398-434 | Every step of a read or seek that is under way, with its sleeps, keeps the invariant |
| `AsyncProof.FillerOk` | ijkplayer-armv7a/src/main/jni/ijkmedia/ijkplayer/ijkavformat/ijkasync.c:222-293 | Every step of the background task, with its unlocked write, keeps the invariant |
| `AsyncProof.CallSeekOk` | ijkplayer-armv7a/src/main/jni/ijkmedia/ijkplayer/ijkavformat/ijkasync.c:445-499 | A seek into the ring, backwards or forwards, leaves the position and the ring agreed; others hand the target over |
| `AsyncProof.RunInv` | ijkplayer-armv7a/src/main/jni/ijkmedia/ijkplayer/ijkavformat/ijkasync.c:213-296 | The invariant holds in every state of every run |
| `CacheIndex.IndexOk` | ijkplayer-armv7a/src/main/jni/ijkmedia/ijkplayer/ijkavformat/ijkiocache.c:282-309 | Indexing data appended to the file keeps the tree ordered, balanced, logically and physically disjoint, and every range equal to the source |
| `CacheIndex.CoherentAdded` | ijkplayer-armv7a/src/main/jni/ijkmedia/ijkplayer/ijkavformat/ijkiocache.c:809-846 | The same across all trees of the index, and the used length stays the sum of the tree sizes |
| `CacheIndex.IndexCovers` | ijkplayer-armv7a/src/main/jni/ijkmedia/ijkplayer/ijkavformat/ijkiocache.c:282-309 | Every added byte is found again unless an entry with the same position was in the way |
| `CacheIndex.IndexKeeps` | ijkplayer-armv7a/src/main/jni/ijkmedia/ijkplayer/ijkavformat/ijkiocache.c:282-309 | Every byte found before is still found |
| `CacheIndex.CoveringSpec` | ijkplayer-armv7a/src/main/jni/ijkmedia/ijkplayer/ijkavformat/ijkiocache.c:869-878 | The nearest entry is the only one that can hold a position |
| `CacheIndex.GapAt` | ijkplayer-armv7a/src/main/jni/ijkmedia/ijkplayer/ijkavformat/ijkiocache.c:936-941 | Between an uncovered position and the successor nothing is indexed |
| `CacheIndex.CachedBytes` | ijkplayer-armv7a/src/main/jni/ijkmedia/ijkplayer/ijkavformat/ijkiocache.c:876-889 | What the file holds at the recorded offset are the source bytes of the position |
| `CacheIndex.GrowEntryElems` | ijkplayer-armv7a/src/main/jni/ijkmedia/ijkplayer/ijkavformat/ijkiocache.c:306-307 | Growing an entry in place replaces exactly that entry |
| `CacheIndex.InsertOk` | ijkplayer-armv7a/src/main/jni/ijkmedia/ijkplayer/ijkavformat/ijkiocache.c:290-300 | A new entry for appended data keeps the tree right |
| `CacheIndex.GrowOk` | ijkplayer-armv7a/src/main/jni/ijkmedia/ijkplayer/ijkavformat/ijkiocache.c:306-307 | An entry that continues in stream and file can be grown |
| `CacheIndex.NearestSpec` | ijkplayer-armv7a/src/main/jni/ijkmedia/ijkplayer/ijkavformat/ijkiocache.c:282-285 | The search ends at the last entry at or before the position, and the successor slot at the first behind it |
| `CacheIndex.ClashExactly` | ijkplayer-armv7a/src/main/jni/ijkmedia/ijkplayer/ijkavformat/ijkiocache.c:282-304 | Adding fails exactly if the range does not continue the nearest entry and an entry begins at the same position |
| `CacheStorage.MisplacedWrite` | ijkplayer-armv7a/src/main/jni/ijkmedia/ijkplayer/ijkavformat/ijkiocache.c:809-816 | Bytes that went to another offset while the entry says the front are right exactly when the file began like them and the rest of them repeats with that offset as its period |
| `SyncCache.Cache.Session` | ijkplayer-armv7a/src/main/jni/ijkmedia/ijkplayer/ijkavformat/ijkiocache.c:855-954 | From a synced cache (as it is when new) any sequence of reads and seeks is a run of the plain source, synced to the end and within the capacity, whatever operations on the file are short or fail, unless a flush fails to rewind the file; none does if the first six operations per call work. A read fails exactly if opening, moving or reading the inner source failed meanwhile, with that code. In every case the states between the calls are linked one by one: a seek, and a read that is not of a wrongly indexed position, is answered as by the plain source |
| `SyncCache.Cache.Read` | ijkplayer-armv7a/src/main/jni/ijkmedia/ijkplayer/ijkavformat/ijkiocache.c:956-977 | One read is a read of the plain source at the position, unless bytes were misplaced before and the index has some for it, and it fails exactly with the code with which the inner source failed in it; bytes are misplaced only by a read that finds the file not rewound; a synced cache stays synced exactly if no rewind of a flush failed; what is read is in the index afterwards if the file does what it is asked and has room |
| `SyncCache.Cache.OneCall` | ijkplayer-armv7a/src/main/jni/ijkmedia/ijkplayer/ijkavformat/ijkiocache.c:956-1054 | One call links the states it lies between; the size is the one that the inner source claimed last |
| `SyncCache.Cache.SyncRead` | ijkplayer-armv7a/src/main/jni/ijkmedia/ijkplayer/ijkavformat/ijkiocache.c:855-954 | The read without the move of the position |
| `SyncCache.Cache.MoveInner` | ijkplayer-armv7a/src/main/jni/ijkmedia/ijkplayer/ijkavformat/ijkiocache.c:928-935 | The inner source is moved exactly if it stands elsewhere, and its failure is passed on |
| `SyncCache.Cache.Seek` | ijkplayer-armv7a/src/main/jni/ijkmedia/ijkplayer/ijkavformat/ijkiocache.c:1028-1054 | The result and the new position are those of the plain source |
| `Source.SeekLaws` | ijkplayer-armv7a/src/main/jni/ijkmedia/ijkplayer/ijkavformat/ijkiocache.c:1028-1054 | An absolute seek reaches its target from anywhere, a relative one is the absolute one from the position, the size is told, and the rest is refused |
| `SyncCache.Cache.ReadCached` | ijkplayer-armv7a/src/main/jni/ijkmedia/ijkplayer/ijkavformat/ijkiocache.c:869-913 | A hit delivers source bytes unless bytes were misplaced, and a position in the index is a hit if the file works; without a hit the noted room ends where an entry begins, and is free in the index even if the index was wiped meanwhile |
| `SyncCache.Cache.ReadEntry` | ijkplayer-armv7a/src/main/jni/ijkmedia/ijkplayer/ijkavformat/ijkiocache.c:876-894 | What is read through an entry are the bytes at its place in the file, and source bytes unless bytes were misplaced; it succeeds if the next two operations on the file do |
| `SyncCache.Cache.Recreate` | ijkplayer-armv7a/src/main/jni/ijkmedia/ijkplayer/ijkavformat/ijkiocache.c:896-911 | A file that cannot be read is replaced by an empty one with an empty index, and nothing is misplaced any more |
| `SyncCache.Cache.ReadThrough` | ijkplayer-armv7a/src/main/jni/ijkmedia/ijkplayer/ijkavformat/ijkiocache.c:915-953 | A miss delivers what the inner source delivers, whatever happens to the copy that is kept |
| `SyncCache.Cache.ReadInner` | ijkplayer-armv7a/src/main/jni/ijkmedia/ijkplayer/ijkavformat/ijkiocache.c:915-947 | The inner source is opened and moved if need be, and gives what it holds at the position: as much as its reply says if it delivers, and its code if it fails |
| `SyncCache.Cache.SyncAddEntry` | ijkplayer-armv7a/src/main/jni/ijkmedia/ijkplayer/ijkavformat/ijkiocache.c:778-853 | The index turns wrong exactly when the file was not rewound before and takes at least one byte; where bytes and entry go then, and that the entry is right exactly when the front of the file repeats; otherwise the index describes the file and the capacity is kept |
| `SyncCache.Cache.Store` | ijkplayer-armv7a/src/main/jni/ijkmedia/ijkplayer/ijkavformat/ijkiocache.c:809-846 | The write and the indexing: the bytes go to the real offset, the entry to the recorded one |
| `SyncCache.Cache.AddToIndex` | ijkplayer-armv7a/src/main/jni/ijkmedia/ijkplayer/ijkavformat/ijkiocache.c:814-852 | The index gets exactly the written range; -1 exactly on a clash of positions |
| `SyncCache.Cache.Place` | ijkplayer-armv7a/src/main/jni/ijkmedia/ijkplayer/ijkavformat/ijkiocache.c:788-807 | The next write goes to the end of the used part and fits the capacity, and is given up only if the file fails or cannot hold it; a flush that cannot rewind the file forgets everything and writes nothing |
| `SyncCache.Cache.Overrang` | ijkplayer-armv7a/src/main/jni/ijkmedia/ijkplayer/ijkavformat/ijkiocache.c:203-233 | Everything is forgotten, what was misplaced too; the file is at its front exactly if moving it worked |
| `SyncCache.Cache.OpenInner` | ijkplayer-armv7a/src/main/jni/ijkmedia/ijkplayer/ijkavformat/ijkiocache.c:359-374 | A deferred opening may change the size but not what is cached |
| `SyncTrace.PlainRunExtend` | ijkplayer-armv7a/src/main/jni/ijkmedia/ijkplayer/ijkavformat/ijkiocache.c:956-977 | Runs of the plain source can be continued by one call |
| `SyncTrace.TraceIsPlain` | ijkplayer-armv7a/src/main/jni/ijkmedia/ijkplayer/ijkavformat/ijkiocache.c:203-222 | Linked states that begin synced and lose no rewind are synced throughout, answer every call as the plain source does and keep the capacity |
| `SyncTrace.TraceLosesNothing` | ijkplayer-armv7a/src/main/jni/ijkmedia/ijkplayer/ijkavformat/ijkiocache.c:855-954 | If as many operations on the file work as the calls can make, no rewind is lost |
| `SyncCacheWitness.WrongByteAfterFailedRewind` | ijkplayer-armv7a/src/main/jni/ijkmedia/ijkplayer/ijkavformat/ijkiocache.c:215-222 | A cache with room for two bytes is driven through a flush whose rewind fails, and then reads the second byte as the first |
| `PrefetchRuns.RunRefinesPlainSource` | ijkplayer-armv7a/src/main/jni/ijkmedia/ijkplayer/ijkavformat/ijkiocache.c:979-1026 | In every run of reader and filler every event is one of a plain source, and a read that ends early has one of five reasons, each true; an interrupted seek has moved the source or leaves its target behind |
| `PrefetchRuns.BetweenIsCached` | ijkplayer-armv7a/src/main/jni/ijkmedia/ijkplayer/ijkavformat/ijkiocache.c:388-412 | In every state every position between the reader and the filler, whichever is ahead, is in the file with the right byte |
| `PrefetchRuns.AccountsAgree` | ijkplayer-armv7a/src/main/jni/ijkmedia/ijkplayer/ijkavformat/ijkiocache.c:245-309 | In every state the used length of the file is the sum of the tree sizes and no two entries of any trees share a byte of it |
| `PrefetchRuns.CapacityKept` | ijkplayer-armv7a/src/main/jni/ijkmedia/ijkplayer/ijkavformat/ijkiocache.c:256-268 | The file never grows past its capacity, unless it was larger before |
| `PrefetchRuns.NoLostWakeUp` | ijkplayer-armv7a/src/main/jni/ijkmedia/ijkplayer/ijkavformat/ijkiocache.c:482-534 | Reader and filler are never both asleep; a reader waits for a filler that left only if it left over an error code of the inner source; a close waits for ever exactly if it came between the test and the sleep of the filler |
| `PrefetchRuns.HandoverOk` | ijkplayer-armv7a/src/main/jni/ijkmedia/ijkplayer/ijkavformat/ijkiocache.c:497-508 | The hand-over, which does not look at the request again, keeps the invariant whether or not the caller still waits |
| `PrefetchLimits.MovesUnseenExactly` | ijkplayer-armv7a/src/main/jni/ijkmedia/ijkplayer/ijkavformat/ijkiocache.c:497-508 | The position moves without an event exactly when the filler hands over a seek whose caller was interrupted and has returned; it is then the target of that seek |
| `PrefetchLimits.EndsEarlyExactly` | ijkplayer-armv7a/src/main/jni/ijkmedia/ijkplayer/ijkavformat/ijkiocache.c:1008-1016 | Without a late change of the claimed size, an end or a short read comes before that size exactly when the inner source failed to seek or to read or the read was interrupted, the end of the source aside |
| `PrefetchLimits.LeftForEver` | ijkplayer-armv7a/src/main/jni/ijkmedia/ijkplayer/ijkavformat/ijkiocache.c:522-533 | The converse: a filler that left never comes back, and every seek it had not served, waiting or later, returns only when it is interrupted |
| `PrefetchAnswers.RunAnswersCalls` | ijkplayer-armv7a/src/main/jni/ijkmedia/ijkplayer/ijkavformat/ijkiocache.c:956-1083 | In every run what the caller sees answers its last call, with the size and the target of that call, and nothing was seen in between; every code and every reason given for an early end did happen, and the size told is the one last claimed |
| `PrefetchAnswers.EveryCallIsAnsweredOnce` | ijkplayer-armv7a/src/main/jni/ijkmedia/ijkplayer/ijkavformat/ijkiocache.c:956-1083 | In every state the last call still runs and is about what was asked, or was answered by exactly one event |
| `PrefetchProgress.MissingIsFetched` | ijkplayer-armv7a/src/main/jni/ijkmedia/ijkplayer/ijkavformat/ijkiocache.c:388-427 | The filler fetches at the first position behind its own that is not cached, unless the end is known to be there or an entry begins at once |
| `PrefetchProgress.DeliveredIsAdded` | ijkplayer-armv7a/src/main/jni/ijkmedia/ijkplayer/ijkavformat/ijkiocache.c:427-468 | What the inner source delivers at the place is what is added for it |
| `PrefetchProgress.FetchedIsKept` | ijkplayer-armv7a/src/main/jni/ijkmedia/ijkplayer/ijkavformat/ijkiocache.c:245-309 | What was fetched is in the index afterwards, and the reader is woken up next, if the file does what it is asked and has room and no entry begins there |
| `PrefetchProgress.SeekIsServed` | ijkplayer-armv7a/src/main/jni/ijkmedia/ijkplayer/ijkavformat/ijkiocache.c:497-508 | A seek that is asked for is seen and handed over to its target, and its caller woken up |
| `PrefetchProgress.RestsExactly` | ijkplayer-armv7a/src/main/jni/ijkmedia/ijkplayer/ijkavformat/ijkiocache.c:509-512 | The filler decides to rest exactly when it is far enough ahead or has met an end; a read that was short or brings the reader nearer does not leave it asleep |
| `PrefetchProgress.CachedIsRead` | ijkplayer-armv7a/src/main/jni/ijkmedia/ijkplayer/ijkavformat/ijkiocache.c:1000-1008 | A reader at a cached position gets at least one byte more, and is done exactly if it has all it asked for |
| `PrefetchRuns.StepOk` | ijkplayer-armv7a/src/main/jni/ijkmedia/ijkplayer/ijkavformat/ijkiocache.c:376-534 | Every step but a fetch with a false recorded position keeps the invariant and is a step of the plain source |
| `PrefetchLimits.DesyncExactly` | ijkplayer-armv7a/src/main/jni/ijkmedia/ijkplayer/ijkavformat/ijkiocache.c:427-466 | The excluded step is exactly a fetch while the recorded position of the inner source is false, which is then that of the front |
| `PrefetchLimits.AstrayExactly` | ijkplayer-armv7a/src/main/jni/ijkmedia/ijkplayer/ijkavformat/ijkiocache.c:438-447 | The recorded position turns false exactly by a failing seek to the front, stays so through other failing seeks, and is mended by one that works |
| `PrefetchLimits.DesyncFetchesElsewhere` | ijkplayer-armv7a/src/main/jni/ijkmedia/ijkplayer/ijkavformat/ijkiocache.c:427-458 | After it the bytes for position 0 are taken from elsewhere, wrong unless equal by chance |
| `PrefetchRuns.SkipFacts` | ijkplayer-armv7a/src/main/jni/ijkmedia/ijkplayer/ijkavformat/ijkiocache.c:388-416 | Skipping what is cached keeps everything between the two positions cached and ends where nothing is indexed |
| `PrefetchRuns.GrowthOk` | ijkplayer-armv7a/src/main/jni/ijkmedia/ijkplayer/ijkavformat/ijkiocache.c:270-309 | Adding what was fetched keeps the invariant, also on a clash or a short write |
| `PrefetchRuns.FlushOk` | ijkplayer-armv7a/src/main/jni/ijkmedia/ijkplayer/ijkavformat/ijkiocache.c:256-268 | The capacity flush restarts the filler at the reader and keeps the invariant |
| `PrefetchProof.FileOk` | ijkplayer-armv7a/src/main/jni/ijkmedia/ijkplayer/ijkavformat/ijkiocache.c:734-776 | A read of the file delivers source bytes and keeps the window |
| `PrefetchWitness.CloseMayHang` | ijkplayer-armv7a/src/main/jni/ijkmedia/ijkplayer/ijkavformat/ijkiocache.c:1086-1093 | A run in which the filler falls asleep after close and is never woken |
| `PrefetchWitness.EndMayComeEarly` | ijkplayer-armv7a/src/main/jni/ijkmedia/ijkplayer/ijkavformat/ijkiocache.c:440-447 | A run in which a failing inner seek is reported as the end of the source |
| `PrefetchWitness.PositionMayMoveLate` | ijkplayer-armv7a/src/main/jni/ijkmedia/ijkplayer/ijkavformat/ijkiocache.c:1063-1066 | A run in which the position moves from 0 to 1 after the interrupted seek to 1 has returned |
| `PrefetchWitness.FailureMayLookLikeAnEnd` | ijkplayer-armv7a/src/main/jni/ijkmedia/ijkplayer/ijkavformat/ijkiocache.c:462-466 | A run in which a failing inner read is reported as the end, because the caller looks between the two assignments |
| `PrefetchWitness.WrongByteMayBeRead` | ijkplayer-armv7a/src/main/jni/ijkmedia/ijkplayer/ijkavformat/ijkiocache.c:442-444 | A run in which the caller reads the second byte at position 0 |
| `PrefetchWitness.TaskMayLeave` | ijkplayer-armv7a/src/main/jni/ijkmedia/ijkplayer/ijkavformat/ijkiocache.c:522-524 | A run in which an inner error with the code -100 ends the filler, and a later seek waits for it for ever |
| `IndexFile.SaveEntry` | ijkplayer-armv7a/src/main/jni/ijkmedia/ijkplayer/ijkavformat/ijkiomanager.c:77-100 | The four lines of an entry are written |
| `IndexFile.TheLines` | ijkplayer-armv7a/src/main/jni/ijkmedia/ijkplayer/ijkavformat/ijkiomanager.c:77-131 | The lines of the file in their own words |
| `IndexFile.SaveTree` | ijkplayer-armv7a/src/main/jni/ijkmedia/ijkplayer/ijkavformat/ijkiomanager.c:102-131 | The five lines of a tree and then its entries in order; nothing for a negative key |
| `IndexFile.Save` | ijkplayer-armv7a/src/main/jni/ijkmedia/ijkplayer/ijkavformat/ijkiomanager.c:133-168 | The trees are written by ascending keys |
| `IndexFile.HandleLine` | ijkplayer-armv7a/src/main/jni/ijkmedia/ijkplayer/ijkavformat/ijkiomanager.c:238-333 | The chain of prefix tests does what the recognised tag says, with the number the line starts with |
| `IndexFile.Parse` | ijkplayer-armv7a/src/main/jni/ijkmedia/ijkplayer/ijkavformat/ijkiomanager.c:210-337 | The loop over the lines computes the parse of the whole text |
| `IndexText.TextReader.Gets` | ijkplayer-armv7a/src/main/jni/ijkmedia/ijkplayer/ijkavformat/ijkiomanager.c:232-234 | The next line, cut at the buffer length; the end is noticed |
| `IndexText.StrStart` | ijkplayer-armv7a/src/main/jni/ijkmedia/ijkplayer/ijkavformat/ijkiomanager.c:238-316 | The rest behind a prefix exactly if the text starts with it |
| `IndexText.ReadNumber` | ijkplayer-armv7a/src/main/jni/ijkmedia/ijkplayer/ijkavformat/ijkiomanager.c:239-246 | The number read is that of the leading digits, saturated |
| `IndexText.NumberFormat` | ijkplayer-armv7a/src/main/jni/ijkmedia/ijkplayer/ijkavformat/ijkiomanager.c:77-100 | A printed number is read back as itself, or as 0 if it is negative |
| `IndexText.NumberOf` | ijkplayer-armv7a/src/main/jni/ijkmedia/ijkplayer/ijkavformat/ijkiomanager.c:239-246 | A number is read as itself whatever but a digit follows, and cut at the limit |
| `IndexText.DigitsOf` | ijkplayer-armv7a/src/main/jni/ijkmedia/ijkplayer/ijkavformat/ijkiomanager.c:77-100 | A number is printed as the digits of its tenth and its last one, with a sign if it is negative |
| `IndexText.TagOfPrefix` | ijkplayer-armv7a/src/main/jni/ijkmedia/ijkplayer/ijkavformat/ijkiomanager.c:238-316 | The chain of prefix tests recognises every tag, although some prefixes begin alike |
| `IndexText.WholeLine` | ijkplayer-armv7a/src/main/jni/ijkmedia/ijkplayer/ijkavformat/ijkiomanager.c:233-234 | A printed line is read as one line |
| `IndexRoundTrip.RoundTripExactly` | ijkplayer-armv7a/src/main/jni/ijkmedia/ijkplayer/ijkavformat/ijkiomanager.c:102-337 | Saving and parsing gives the same index back exactly when no value is negative and every key is an int; the used length is then the sum of the tree sizes |
| `IndexRoundTrip.SavedComesBack` | ijkplayer-armv7a/src/main/jni/ijkmedia/ijkplayer/ijkavformat/ijkiomanager.c:210-337 | Keys, fields and entries come back, in trees rebuilt by insertion, and the parser does not stop early |
| `IndexRoundTrip.ParsedSavable` | ijkplayer-armv7a/src/main/jni/ijkmedia/ijkplayer/ijkavformat/ijkiomanager.c:210-337 | Whatever the text, the parsed index has ordered trees and values that can be saved |
| `IndexRoundTrip.RestoredCoherent` | ijkplayer-armv7a/src/main/jni/ijkmedia/ijkplayer/ijkavformat/ijkiomanager.c:210-337 | A restored index describes the cache file as the saved one did |
| `IndexRoundTrip.EntriesStep` | ijkplayer-armv7a/src/main/jni/ijkmedia/ijkplayer/ijkavformat/ijkiomanager.c:289-333 | The entry lines of a tree rebuild it by insertion in order |
| `NodeLists.NodeList.Remove` | ijkplayer-armv7a/src/main/jni/ijkmedia/ijkplayer/ff_ffmsg_queue.h:275-311 | Filtering in place keeps the others in order with the right tail and count, and every removed node is spare |
| `NodeLists.NodeList.Put` | ijkplayer-armv7a/src/main/jni/ijkmedia/ijkplayer/ff_ffmsg_queue.h:63-102 | A value is appended on a recycled or new node; allocations count only new ones |
| `NodeLists.NodeList.Get` | ijkplayer-armv7a/src/main/jni/ijkmedia/ijkplayer/ff_ffmsg_queue.h:235-273 | The first value is taken and its node becomes spare; tail and count stay right |
| `NodeLists.NodeList.Flush` | ijkplayer-armv7a/src/main/jni/ijkmedia/ijkplayer/ff_ffmsg_queue.h:173-191 | The list is empty and all its nodes are spare |
| `NodeLists.NodeList.RemoveLoop` | ijkplayer-armv7a/src/main/jni/ijkmedia/ijkplayer/ff_ffmsg_queue.h:283-307 | The pointer-to-previous loop keeps exactly the nodes of wanted values and ends at the last of them |
| `NodeLists.NodeList.KeptValues` | ijkplayer-armv7a/src/main/jni/ijkmedia/ijkplayer/ff_ffmsg_queue.h:283-307 | The values of the kept nodes are the filtered values |
| `PacketQueues.PacketQueue.Put` | ijkplayer-armv7a/src/main/jni/ijkmedia/ijkplayer/ff_ffplay.c:143-189 | The packet is appended with the serial, which a flush packet raises first; count, bytes and clamped durations stay those of the list |
| `PacketQueues.PacketQueue.Flush` | ijkplayer-armv7a/src/main/jni/ijkmedia/ijkplayer/ff_ffplay.c:233-254 | Nothing is queued, sums are zero, nodes are recycled |
| `PacketQueues.PacketQueue.Get` | ijkplayer-armv7a/src/main/jni/ijkmedia/ijkplayer/ff_ffplay.c:293-334 | The oldest packet is taken and uncounted |
| `PacketQueues.PacketQueue.Start` | ijkplayer-armv7a/src/main/jni/ijkmedia/ijkplayer/ff_ffplay.c:284-291 | A new epoch begins with a flush packet |
| `PacketQueues.SumsSnoc` | ijkplayer-armv7a/src/main/jni/ijkmedia/ijkplayer/ff_ffplay.c:181-184 | What a put adds to the byte and duration sums |
| `PacketQueues.SumsCons` | ijkplayer-armv7a/src/main/jni/ijkmedia/ijkplayer/ff_ffplay.c:311-316 | What a get subtracts, and that serials stay ascending |
| `Decoder.FramesOfTheEpoch` | ijkplayer-armv7a/src/main/jni/ijkmedia/ijkplayer/ff_ffplay.c:566-656 | In every run a frame comes only from packets queued after the flush packet that started the reported epoch and before the next; at an end everything in the codec is of that epoch |
| `DecoderRuns.CodecIsAnswered` | ijkplayer-armv7a/src/main/jni/ijkmedia/ijkplayer/ff_ffplay.c:572-613 | Audio and video: a frame is returned exactly when the codec gives one, an end exactly when it is at its end, and -1 exactly when the queue is aborted |
| `DecoderRuns.DecodingIsAnswered` | ijkplayer-armv7a/src/main/jni/ijkmedia/ijkplayer/ff_ffplay.c:572-648 | Subtitles: one is returned exactly when the last decoding of the call gave one, from that packet, and an end exactly when it was the empty packet and gave none |
| `DecoderRuns.NothingIsLost` | ijkplayer-armv7a/src/main/jni/ijkmedia/ijkplayer/ff_ffplay.c:616-654 | While no new epoch begins, every packet that is put is used once and in order, or still waits, in every interleaving; only while buffering are those skipped that come behind the end |
| `DecoderRuns.CodecHolds` | ijkplayer-armv7a/src/main/jni/ijkmedia/ijkplayer/ff_ffplay.c:605-654 | The codec holds exactly the packets that it took since the last flush packet or end |
| `DecoderRuns.FinishedEnded` | ijkplayer-armv7a/src/main/jni/ijkmedia/ijkplayer/ff_ffplay.c:605-608 | An epoch is noted as finished only when its end was returned |
| `DecoderRuns.NewestIsDecoded` | ijkplayer-armv7a/src/main/jni/ijkmedia/ijkplayer/ff_ffplay.c:572-626 | The codec is asked exactly when the serials compare equal, and a packet is used exactly when it is of the newest epoch |
| `DecoderRuns.WaitsExactly` | ijkplayer-armv7a/src/main/jni/ijkmedia/ijkplayer/ff_ffplay.c:572-656 | The loop stands still exactly when there is nothing to take and it is not aborted, or when a codec that failed is asked again |
| `Decoder.StepOk` | ijkplayer-armv7a/src/main/jni/ijkmedia/ijkplayer/ff_ffplay.c:566-656 | Every step of producer and decoder keeps serials and flush packets aligned and the codec free of other epochs |
| `Decoder.SubtitlesExactly` | ijkplayer-armv7a/src/main/jni/ijkmedia/ijkplayer/ff_ffplay.c:566-656 | A subtitle or end is of the reported epoch exactly when the serials compared equal after its decoding |
| `Decoder.CarriedExactly` | ijkplayer-armv7a/src/main/jni/ijkmedia/ijkplayer/ff_ffplay.c:572-654 | That comparison fails for a decoded subtitle or end exactly when a flush packet was put since the comparison before the decoding, whatever the producer did before, during and after the decoding |
| `Decoder.SubtitleMayBeStale` | ijkplayer-armv7a/src/main/jni/ijkmedia/ijkplayer/ff_ffplay.c:634-644 | A run that returns a subtitle of epoch 1 as one of epoch 2 |
| `Decoder.FetchOk` | ijkplayer-armv7a/src/main/jni/ijkmedia/ijkplayer/ff_ffplay.c:616-626 | Taking a packet keeps them aligned, also when packets of a finished epoch are skipped |
| `Decoder.UseOk` | ijkplayer-armv7a/src/main/jni/ijkmedia/ijkplayer/ff_ffplay.c:628-654 | A flush packet empties the codec, a pending packet is kept, and a sent packet is of the epoch |
| `Decoder.FlushBefore` | ijkplayer-armv7a/src/main/jni/ijkmedia/ijkplayer/ff_ffplay.c:172-174 | Every queued packet has the flush packet that started its epoch before it, with no flush packet in between |
| `FrameQueues.FrameQueue.PeekWritable` | ijkplayer-armv7a/src/main/jni/ijkmedia/ijkplayer/ff_ffplay.c:726-740 | The slot given to the decoder holds neither a frame to come nor the one that is kept |
| `FrameQueues.FrameQueue.PushIndex` | ijkplayer-armv7a/src/main/jni/ijkmedia/ijkplayer/ff_ffplay.c:758-761 | The frame joins those to come before the size tells |
| `FrameQueues.FrameQueue.PushSize` | ijkplayer-armv7a/src/main/jni/ijkmedia/ijkplayer/ff_ffplay.c:762-765 | The locked half changes nothing that is seen |
| `FrameQueues.FrameQueue.NextIndex` | ijkplayer-armv7a/src/main/jni/ijkmedia/ijkplayer/ff_ffplay.c:768-777 | The next frame becomes the one shown; the slot being written is not touched |
| `FrameQueues.FrameQueue.NextSize` | ijkplayer-armv7a/src/main/jni/ijkmedia/ijkplayer/ff_ffplay.c:778-781 | The locked half restores the relation of size and indices |
| `FrameQueues.FrameQueue.NbRemaining` | ijkplayer-armv7a/src/main/jni/ijkmedia/ijkplayer/ff_ffplay.c:784-787 | The count is that of the undisplayed frames whose push is complete |
| `FrameQueues.FrameQueue.Peek` | ijkplayer-armv7a/src/main/jni/ijkmedia/ijkplayer/ff_ffplay.c:711-714 | The first frame to come |
| `FrameQueues.FrameQueue.PeekNext` | ijkplayer-armv7a/src/main/jni/ijkmedia/ijkplayer/ff_ffplay.c:716-719 | The second frame to come |
| `FrameQueues.FrameQueue.PeekLast` | ijkplayer-armv7a/src/main/jni/ijkmedia/ijkplayer/ff_ffplay.c:721-724 | The frame that was shown last |
| `FrameQueues.FrameQueue.Fill` | ijkplayer-armv7a/src/main/jni/ijkmedia/ijkplayer/ff_ffplay.c:1614-1640 | Writing the slot disturbs no other frame |
| `FrameQueues.FrameQueue.Session` | ijkplayer-armv7a/src/main/jni/ijkmedia/ijkplayer/ff_ffplay.c:726-787 | In every interleaving of the half steps of decoder and display every frame is shown once and in the order in which it was pushed, and the kept frame is the one shown last; what is pushed and shown, and where both threads end, is what the steps make of a line of frames without the ring, and only frames the decoder was given are pushed |
| `FrameQueues.PushedWereOffered` | ijkplayer-armv7a/src/main/jni/ijkmedia/ijkplayer/ff_ffplay.c:726-766 | The pushed frames, followed by the one the decoder has in hand, are a subsequence of those it was given |
| `FrameQueues.FrameQueue.HalfStep` | ijkplayer-armv7a/src/main/jni/ijkmedia/ijkplayer/ff_ffplay.c:726-787 | A half step of either thread does to the ring what it does to the line of frames |
| `FrameQueues.StandStillExactly` | ijkplayer-armv7a/src/main/jni/ijkmedia/ijkplayer/ff_ffplay.c:726-787 | The decoder stands still exactly while the ring is full, the display exactly while no frame is ready |
| `AccurateSeek.ReportedExactlyOnce` | ijkplayer-armv7a/src/main/jni/ijkmedia/ijkplayer/ff_ffplay.c:1564-1606 | Within one arming the completion for its position was reported once when no request is left and never before, for one stream or two and any mix of success, failure and timeout; on top comes exactly one report for each thread that was about to report a superseded position at the arming, so that there is one report in all exactly when there was no such thread |
| `AccurateSeek.ReportsExactly` | ijkplayer-armv7a/src/main/jni/ijkmedia/ijkplayer/ff_ffplay.c:1567-1602 | Exactly when a thread reports: it clears its request last, its position was superseded, or after an abort |
| `AccurateSeek.VerdictsCount` | ijkplayer-armv7a/src/main/jni/ijkmedia/ijkplayer/ff_ffplay.c:1523-1602 | A thread withdraws its request exactly if its last frame was given up, or good for the position that was current; a dropped frame withdraws nothing |
| `AccurateSeek.StepOk` | ijkplayer-armv7a/src/main/jni/ijkmedia/ijkplayer/ff_ffplay.c:2052-2092 | Every step of either thread and of the seek keeps the invariant |
| `AccurateSeek.ReportMayBeEarly` | ijkplayer-armv7a/src/main/jni/ijkmedia/ijkplayer/ff_ffplay.c:1570-1575 | A run in which the completion is reported while both requests of a newer seek are set |
| `ThreadPools.GrowthExactly` | ijkplayer-armv7a/src/main/jni/ijkmedia/ijkplayer/ijkavutil/ijkthreadpool.c:159-168 | Enlarging a ring that lacks one task keeps it right exactly when its first task is at the front, or the size does not change |
| `ThreadPools.GrowthLosesATask` | ijkplayer-armv7a/src/main/jni/ijkmedia/ijkplayer/ijkavutil/ijkthreadpool.c:159-168 | A pool of two slots is used by three additions and three worker sections, and the third worker gets what was never written instead of the third task |
| `ThreadPools.ThreadPool.Add` | ijkplayer-armv7a/src/main/jni/ijkmedia/ijkplayer/ijkavutil/ijkthreadpool.c:140-195 | A task is accepted behind the others; full and shutdown are told apart; workers will take the tasks in order of acceptance exactly if growth was safe or did not happen, unless unwritten memory reads like a task |
| `ThreadPools.ThreadPool.WorkerTurn` | ijkplayer-armv7a/src/main/jni/ijkmedia/ijkplayer/ijkavutil/ijkthreadpool.c:38-63 | Tasks are taken as the ring holds them, which is the order of acceptance while it is right; a worker that leaves in a leisurely shutdown leaves nothing behind |
| `ThreadPools.ThreadPool.Session` | ijkplayer-armv7a/src/main/jni/ijkmedia/ijkplayer/ijkavutil/ijkthreadpool.c:38-195 | In any order of use by callers and workers, what was there and what is accepted is taken from the front, each task once, if no growth finds its first task behind the front; which tasks are accepted, how many are taken and whether growth is safe follows from the uses and the numbers at the beginning |
| `ThreadPools.SafeWithoutGrowth` | ijkplayer-armv7a/src/main/jni/ijkmedia/ijkplayer/ijkavutil/ijkthreadpool.c:159-168 | Growth is always safe in a pool of the final size, without memory, and as long as nothing is taken from a pool whose first place is the front |
| `ThreadPools.ThreadPool.UseOnce` | ijkplayer-armv7a/src/main/jni/ijkmedia/ijkplayer/ijkavutil/ijkthreadpool.c:38-195 | One use accepts, takes and moves the numbers as told, and is in order if its growth is safe |
| `ThreadPools.ThreadPool.Shutdown` | ijkplayer-armv7a/src/main/jni/ijkmedia/ijkplayer/ijkavutil/ijkthreadpool.c:209-243 | The first shutdown request wins and tasks are kept |
| `ThreadPools.ThreadPool.GrowRing` | ijkplayer-armv7a/src/main/jni/ijkmedia/ijkplayer/ijkavutil/ijkthreadpool.c:158-167 | The in-place growth, with the condition under which the ring survives it |
| `ThreadPools.ThreadPool.PutTask` | ijkplayer-armv7a/src/main/jni/ijkmedia/ijkplayer/ijkavutil/ijkthreadpool.c:168-181 | Adding a task keeps a right ring right and does not mend one that grew while it was wrapped |
| `MessageQueues.MessageQueue.Put` | ijkplayer-armv7a/src/main/jni/ijkmedia/ijkplayer/ff_ffmsg_queue.h:63-102 | A message is appended unless the queue is aborted |
| `MessageQueues.MessageQueue.Get` | ijkplayer-armv7a/src/main/jni/ijkmedia/ijkplayer/ff_ffmsg_queue.h:235-273 | The oldest message is taken; abort and empty are told apart |
| `MessageQueues.MessageQueue.Remove` | ijkplayer-armv7a/src/main/jni/ijkmedia/ijkplayer/ff_ffmsg_queue.h:275-311 | Exactly the messages of the kind go, the others keep their order, no node is lost |
| `MessageQueues.MessageQueue.Flush` | ijkplayer-armv7a/src/main/jni/ijkmedia/ijkplayer/ff_ffmsg_queue.h:173-191 | The queue is empty, nodes are kept |
| `MessageQueues.MessageQueue.Start` | ijkplayer-armv7a/src/main/jni/ijkmedia/ijkplayer/ff_ffmsg_queue.h:222-232 | A flush message is queued and the abort withdrawn |
| `Player.MediaPlayer.StartOrPause` | ijkplayer-armv7a/src/main/jni/ijkmedia/ijkplayer/ijkplayer.c:449-500 | The request replaces all older start and pause requests, or is refused in the states that cannot run |
| `Player.MediaPlayer.SeekTo` | ijkplayer-armv7a/src/main/jni/ijkmedia/ijkplayer/ijkplayer.c:577-590 | The request replaces older seeks, and the user sees its target |
| `Player.SeekIsShown` | ijkplayer-armv7a/src/main/jni/ijkmedia/ijkplayer/ijkplayer.c:609-626 | After a seek the user sees its target, whatever messages are handled, up to the one that a seek is complete, and from then on the playing position |
| `Player.RunnableExactly` | ijkplayer-armv7a/src/main/jni/ijkmedia/ijkplayer/ijkplayer.c:698-788 | Over any messages a runnable player stays runnable, and another one becomes runnable exactly by a completion, or by being prepared while that was awaited or without an automatic start; until then its state does not change |
| `Player.LastOneDecides` | ijkplayer-armv7a/src/main/jni/ijkmedia/ijkplayer/ijkplayer.c:698-771 | Over any messages the last start, pause, completion or preparation decides the state: started, paused, completed; without a stream or in a state that cannot run, requests change nothing |
| `Player.StartsFromTheBeginning` | ijkplayer-armv7a/src/main/jni/ijkmedia/ijkplayer/ijkplayer.c:714-755 | A start tells the player to play from the beginning exactly if a completion came and neither a start nor a seek since |
| `Player.RequestsAreCarriedOut` | ijkplayer-armv7a/src/main/jni/ijkmedia/ijkplayer/ijkplayer.c:733-787 | The player is told what the requests ask for, one by one and in order, and nothing without a stream |
| `Player.MediaPlayer.GetMsg` | ijkplayer-armv7a/src/main/jni/ijkmedia/ijkplayer/ijkplayer.c:689-798 | Requests are carried out in order and hidden, and the first other message is returned; the state, the flags and what the player is told are those of all messages taken |
| `Player.RequestsKeepRunnable` | ijkplayer-armv7a/src/main/jni/ijkmedia/ijkplayer/ijkplayer.c:733-787 | Requests leave a player that cannot run alone and one that can run runnable, and never end the seek the user sees |
| `Coalescing.RequestsAreCoalesced` | ijkplayer-armv7a/src/main/jni/ijkmedia/ijkplayer/ijkplayer.c:449-590 | In every interleaving of callers that start, pause, stop and seek, the message loop and the read thread, at most one seek is queued, and at most one start or pause besides the automatic resume |
| `Coalescing.StepOk` | ijkplayer-armv7a/src/main/jni/ijkmedia/ijkplayer/ijkplayer.c:449-590 | Every operation on the queue keeps those bounds, in the middle of a caller's section too |
| `Coalescing.CallReplaces` | ijkplayer-armv7a/src/main/jni/ijkmedia/ijkplayer/ijkplayer.c:449-500 | An undisturbed start or pause leaves its own request as the only one of both kinds, last in the queue, and all else as it was |
| `Coalescing.SeekReplaces` | ijkplayer-armv7a/src/main/jni/ijkmedia/ijkplayer/ijkplayer.c:577-590 | An undisturbed seek leaves its own request as the only seek, and all else as it was |
| `Coalescing.StopClears` | ijkplayer-armv7a/src/main/jni/ijkmedia/ijkplayer/ijkplayer.c:513-536 | An undisturbed stop leaves no request to start or to pause, and the seeks as they were |
| `Coalescing.CountWithout` | ijkplayer-armv7a/src/main/jni/ijkmedia/ijkplayer/ff_ffmsg_queue.h:275-311 | Removal leaves none of the kind and all of the others |
| `UrlHooks.HttpHook.Read` | ijkplayer-armv7a/src/main/jni/ijkmedia/ijkplayer/ijkavformat/ijkurlhook.c:297-333 | Across any failures and reconnects the bytes are the next ones after the last position, shifted exactly by what openings strayed; a connection that delivers is passed on; no failure is made up: the last inner read failed as told, and the call ended by its result, by an opening, or by what the application answered |
| `UrlHooks.HttpHook.ReadOn` | ijkplayer-armv7a/src/main/jni/ijkmedia/ijkplayer/ijkavformat/ijkurlhook.c:305-333 | The loop behind a read that failed |
| `UrlHooks.HttpHook.Retry` | ijkplayer-armv7a/src/main/jni/ijkmedia/ijkplayer/ijkavformat/ijkurlhook.c:305-325 | One turn of it |
| `UrlHooks.HttpHook.Session` | ijkplayer-armv7a/src/main/jni/ijkmedia/ijkplayer/ijkavformat/ijkurlhook.c:297-412 | If every opening honours its offset, all reads and seeks form a session of the source, in which a seek goes to the target of its call or nowhere |
| `UrlHooks.ReadsAreConsecutive` | ijkplayer-armv7a/src/main/jni/ijkmedia/ijkplayer/ijkavformat/ijkurlhook.c:297-333 | Between seeks the joined bytes of any stretch of reads are consecutive bytes of the source |
| `UrlHooks.HttpHook.Seek` | ijkplayer-armv7a/src/main/jni/ijkmedia/ijkplayer/ijkavformat/ijkurlhook.c:362-412 | A failed seek leaves the position alone, and fails only if seeking is impossible or the application refuses; with a consent and a connection that works it reaches its target; a result that is not an error is the position exactly when the last attempt succeeded or the stream was at its very start |
| `UrlHooks.HttpHook.SeekAway` | ijkplayer-armv7a/src/main/jni/ijkmedia/ijkplayer/ijkavformat/ijkurlhook.c:377-412 | The attempts of a seek that is not answered at once |
| `UrlHooks.TargetLaws` | ijkplayer-armv7a/src/main/jni/ijkmedia/ijkplayer/ijkavformat/ijkurlhook.c:335-356 | Where the kinds of seeks go |
| `UrlHooks.SeekMayReturnZero` | ijkplayer-armv7a/src/main/jni/ijkmedia/ijkplayer/ijkavformat/ijkurlhook.c:384-411 | A seek to before the start without an application returns 0 while the stream stays at 5 |
| `UrlHooks.HttpHook.ReseekAt` | ijkplayer-armv7a/src/main/jni/ijkmedia/ijkplayer/ijkavformat/ijkurlhook.c:335-360 | Seeking the inner URL and opening a new one go to the same place, and succeed exactly if it is not before the start and the connection that is used works |
| `UrlHooks.HttpHook.Reopen` | ijkplayer-armv7a/src/main/jni/ijkmedia/ijkplayer/ijkavformat/ijkurlhook.c:305-321 | A reconnect is asked for at the position reached |
| `UrlHooks.HttpHook.Attempt` | ijkplayer-armv7a/src/main/jni/ijkmedia/ijkplayer/ijkavformat/ijkurlhook.c:377-401 | An attempt to seek moves the stream to the target or not at all |
| `UrlHooks.HttpHook.Open` | ijkplayer-armv7a/src/main/jni/ijkmedia/ijkplayer/ijkavformat/ijkurlhook.c:249-295 | The stream starts at the offset option exactly if the first attempt succeeds, else at 0; opening fails only by a refusal, an interruption, or an attempt that the application lets be |
| `UrlHooks.HttpHook.OpenAgain` | ijkplayer-armv7a/src/main/jni/ijkmedia/ijkplayer/ijkavformat/ijkurlhook.c:266-289 | One turn of the loop behind an attempt that failed |
| `UrlHooks.HttpHook.Reconnect` | ijkplayer-armv7a/src/main/jni/ijkmedia/ijkplayer/ijkavformat/ijkurlhook.c:91-130 | A new connection replaces the old one only if it opened; otherwise nothing is lost |
| `UrlHooks.HttpHook.CallInject` | ijkplayer-armv7a/src/main/jni/ijkmedia/ijkplayer/ijkavformat/ijkurlhook.c:53-89 | Success means no interruption and consent; the application is told of every change of the URL |
| `UrlHooks.HttpHook.PlainRead` | ijkplayer-armv7a/src/main/jni/ijkmedia/ijkplayer/ijkavformat/ijkurlhook.c:188-209 | Exactly what the connection answers, unless an error is remembered or the test option says so |
| `UrlHooks.HttpHook.PlainSeek` | ijkplayer-armv7a/src/main/jni/ijkmedia/ijkplayer/ijkavformat/ijkurlhook.c:218-235 | The inner position and the recorded one move together or not at all |

## Left out

- AsyncProof.RunRefinesPlainSource: an inner source that fails leaves its position alone, and returns 0 or AVERROR_EOF only at its end; a pass of the unlocked write is one step per read of the inner source.
- PrefetchRuns.RunRefinesPlainSource: assumes runs in which the cache is not given up (`cache_file_close`), in which at most three operations of the filler on the file fail in a row and none of the reader's, and in which nothing is fetched while the recorded position of the inner source is false (`DesyncExactly`): such a fetch may put wrong bytes into the index, and an end that it meets is recorded for good; the wipe that `ijkio_cache_file_error` makes after more failures, which also records the inner position as 0 (`ijkiocache.c:165-167`), is therefore not modelled.
- SyncCache.Cache.Session: of a read that looks up misplaced bytes, which takes a flush whose rewind failed, only the new position is promised; one context per cache file, so other contexts do not move `last_physical_pos` in between.
- Ring.RingBuffer.Move: follows the intent of the assertion at `ijkasync.c:153`, not its text.
- Fifo.FifoBuffer.PeekAt: the assertion on the offset is taken as a precondition in unbounded arithmetic; the 64-bit difference in the source is weaker after 4 GB.
- Fifo.FifoBuffer.Realloc2: capacities are below 2^31, as on a 32-bit ABI.
- IndexRoundTrip.RoundTripExactly: NUL characters in the file and failing file operations are not modelled; values are those of the C types when they are saved.
- PacketQueues.PacketQueue.Put: overflow of the int `size` and failing allocations are not modelled; packets carry no data.
- PacketQueues.PacketQueue.Get: a blocking call is a turn that returns 0 and is repeated; the condition variable is not modelled.
- Decoder.FramesOfTheEpoch: one producer per queue; the codec is a bag of the packets it holds, and a frame may come from any of them; pts arithmetic and statistics are not modelled.
- FrameQueues.FrameQueue.PeekWritable: the abort flag and the wait are left to the caller; one producer and one consumer.
- AccurateSeek.ReportedExactlyOnce: which frame is good enough is an arbitrary verdict; the value of the message is not modelled.
- ThreadPools.ThreadPool.Add: failing mutex operations and a null function are not modelled; threads are turns of `WorkerTurn`.
- ThreadPools.ThreadPool.Shutdown: joining the threads and freeing the pool are not modelled.
- MessageQueues.MessageQueue.Put: the object a message may carry and failing allocations are not modelled.
- Coalescing.RequestsAreCoalesced: the read thread posts its automatic resume at most once, and callers of start, pause, stop and seek hold the player's mutex, as in the source.
- UrlHooks.HttpHook.Session: opening honours its offset, positions are told truthfully, every URL serves the same bytes and a failed operation leaves the inner position alone; without the first of these, `Read` still tells by how much the stream moved.
- UrlHooks.HttpHook.Reconnect: opening returns 0 or a negative error; options other than the offset are not modelled.
- AvlTree.FindSpec: a call that passes no `next` array is not modelled apart, and the tree is used with the comparison by position only.
- Node structures of the packet and the message queue share one generic list, because their code is the same.
- Java and Kotlin code, JNI glue, rendering, audio output, codecs, demuxers and scaling: foreign calls and user interface.
- Clocks and audio-video synchronisation: floating point whose rounding is the point.
- Several contexts on one cache file, pausing and resuming them, and `ijk_map_index_get`: the map is a plain map with one context.
- Behaviour after `cache_file_close`, retry counters of file errors, memory running out, and freeing.
- `ijkdict.c`, speed samplers, metadata, options, logging, property getters: they would only add easy members.
- `ijkiourlhook.c` is nearly a copy of `ijkurlhook.c`; `ijklivehook.c` depends on the demuxer.
- Liveness when only an interrupt callback changes its answer without a signal.
