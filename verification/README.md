# usbd in Dafny

usbd serves block devices from user space: the kernel sends NBD requests, a pool of workers executes them against a
device, and the device keeps its bytes in an object store, in a deduplicating block store, or elsewhere. This project
models the four parts of it whose correctness is hardest to see, and proves what they promise.

* **The object-store write-back cache.** `ObjSegment` and `ObjDevice` are the classes of segment.go, device.go and
  storeparams.go run by one thread: loading, eviction under a quota, flushing, closing and reopening, proved against a
  flat disk, failing uploads included. `SparseCopy` is the download loop, `Join` the flat disk. `SegmentProtocol` is one
  segment under every interleaving of reads, writes, flushes and evictions, with the two mutexes of segment.go;
  `SegmentRequests` follows each request from its beginning to its answer, and `SegmentRuns` is a run.
* **The NBD pipeline.** `Pipeline` is reqproc.go as a transition system: a reader, any number of workers, a writer, two
  bounded queues, pooled objects, one RWMutex per generation of writes. `PipelineResults` has the theorems,
  `PipelineOvertaking` the one about flushes that overtake writes. `NbdWire` is the request parser and the reply builder.
* **The LZ4 block codec.** `Lz4Format` is the block format as an encoder with a meaning, `Lz4Compress` the compressor of
  lz4.c, `Lz4Decompress` both decoders against a byte-by-byte reference decoder, `Lz4Copy` the word-wise match copy,
  `Lz4Words` the word comparison, `Lz4Decode` and `Lz4RoundTrip` the round trip, `Lz4Runs` the exact output for a run of one byte.
* **The dedup disk.** `DedupStores` and `DedupDisk` are the three stores and the disk over them, run by one thread, proved
  against a flat disk. `DedupProtocol` is the same disk under every interleaving of readers and writers, `DedupExact`
  when such writers store each block once.

Bytes are numbers below 256 and machine integers are unbounded, except where the width matters: positions stored in
16-bit and 32-bit hash cells, 32-bit hashes, 64-bit block IDs and file offsets, and the fields of NBD messages. The codec
is the 64-bit little-endian build. Clocks, the outcome of uploads, of block-file writes and of index gets and puts, the
hash function, and the choice of the next thread are left to the environment.

## Where the code departs from its intent

The model does what the code does. Each departure has a concrete case, or the exact condition under which the promise
holds, or both.

* A write of zeros to a segment without a local file is acknowledged and dropped, even when the container holds data for
  it (segment.go:114-121). `Segment.WriteAt` and `WriteIsExact` say exactly when a write is exact; `ZeroWriteIsLost` is a
  case.
* A failed upload leaves the segment clean and without a remote item (segment.go:197-198). If its file holds data, the
  segment is stranded: reads are still right, a later write and flush store it, and an eviction throws the data away,
  `FailedFlushLosesData`. `Segment.DeleteFile`, `RemoveLeastRecentUsed` and `Close` change contents if and only if a
  segment is stranded. With several threads the data also goes when the upload fails after the eviction.
  `LostExactlyWhen` shows that these and the dropped zero write are the only ways to lose data.
* A flush of a segment that is clean returns at once, although an upload may still be in flight (segment.go:176):
  `SkippedFlush` is a run in which it returns before the data is stored, and `CleanFlushIsRight` says exactly when the
  container has the contents if no upload is in flight.
* A sparse download writes one byte too many unless the stream ends in zero (storeparams.go:313-320): `SparseCopy.Copy`.
  A buffered flush of such a file always fails, because its size is compared with the segment size
  (storeparams.go:236-241): `Segment.Flush`.
* Bytes after the last whole segment cannot be reached, although Size counts them: `IoAt` through `IoResult`.
* LastOp is the earlier of the last read and the last write, and a missing time is zero, which the scan takes for "none
  found yet" (segment.go:239-245, device.go:360, 364). `PickVictim` finds the least LastOp if and only if no candidate
  lacks a time or the last candidate does; `VictimIsNotLeast` is a case in which it does not.
* An unaligned write never gives its read lock back (reqproc.go:196-202). Shutdown completes exactly when no flush was
  decoded after such a write: `ShutdownExactlyWithoutLeak`.
* A flush waits for the writes since the preceding flush only (reqproc.go:102-104). The comment at req.go:21-22 promises
  more. `OvertakingExactly` shows that some run breaks it if and only if there are three workers or more and the input
  has a write or trim with two flushes after it; `FlushBarrier` is what always holds.
* The reply to a failed read still carries the read buffer (resp.go:49-50): `ClientInStep` and `SendReply` say exactly
  when the client stays in step.
* A reopened block store restores its next ID but not its next position (fileblkstore.go:45): it is fit for use exactly
  when the file held no block. `ReopenedStoreOverwrites` is what happens otherwise.
* A dedup write of less than a block of zeros, an empty one included, clears a whole block, and one of more than a block
  is cut to whole blocks (dedupdisk.go:128-176): `Disk.WriteAt`.
* Two writers of one new block can both store it (dedupdisk.go:163-169): `StoredTwice` is a run, and `StoredOnceExactly`
  says exactly which runs store a block more than once.
* GetBlock waits on a condition variable whose lock it holds only for reading (fileblkstore.go:58-62). `NobodyWaits` shows
  that the wait is never reached.

## Model

| member | source | states |
|---|---|---|
| SparseCopy.Copy | pkg/devices/objstore/storeparams.go:300-361 | Returns the stream's length; the file begins with the stream, and is the stream exactly when the stream ends in a zero byte; the bytes written are those that are not zero, the zeros before them in runs of less than 4096, and one more |
| SparseCopy.DenseBound | pkg/devices/objstore/storeparams.go:326-355 | That is never more than the stream, and nothing for a stream of zeros |
| SparseCopy.TakeByte | pkg/devices/objstore/storeparams.go:326-355 | One byte of the stream: what has been sent to the file, with the pending zeros, is the stream so far |
| SparseCopy.PassZeros | pkg/devices/objstore/storeparams.go:329-350 | Pending zeros reach the file as zeros, through the buffer, or without being written if there are 4096 or more |
| SparseCopy.Finish | pkg/devices/objstore/storeparams.go:309-322 | At the end of the stream the pending zeros are in the file, or one zero byte when none are pending |
| Join.FlatSlice | pkg/devices/objstore/device.go:151-161 | A range inside one segment is the same range of the flat disk |
| Join.FlatInjective | pkg/devices/objstore/device.go:151-161 | Two disks of equal pieces are equal exactly when all their pieces are |
| Join.FlatOverwrite | pkg/devices/objstore/device.go:151-161 | Overwriting a range inside one segment overwrites the same range of the flat disk and nothing else |
| ObjSegment.Store.ReleaseCapacity | pkg/devices/objstore/storeparams.go:292-298 | A slot is given back; callers prove that the semaphore is never over-filled |
| ObjSegment.Segment.LoadFile | pkg/devices/objstore/segment.go:137-170 | Loading changes no contents; it is refused exactly when a slot is needed and the quota has none |
| ObjSegment.Segment.Download | pkg/devices/objstore/storeparams.go:106-134 | A thick download is the object; a sparse one is its image, at most one byte longer |
| ObjSegment.Segment.ReadAt | pkg/devices/objstore/segment.go:85-107 | A read returns the segment's contents wherever they are, and changes none; which reads end early, and how many bytes they return |
| ObjSegment.Segment.WriteAt | pkg/devices/objstore/segment.go:111-134 | A write takes effect if and only if it is not an all-zero write to an unloaded segment over data; when it fails, when it dirties the segment, and what it costs |
| ObjSegment.Segment.Flush | pkg/devices/objstore/segment.go:175-201 | After a successful flush the remote item is the contents if and only if the segment was not stranded by a failed upload; a failed flush strands it exactly when it holds data; a buffered flush of a file of the wrong size fails |
| ObjSegment.Segment.SettledIsStored | pkg/devices/objstore/segment.go:186-201 | A clean segment has its contents in the container unless it has no remote item and there is data in the file or an object left behind |
| ObjSegment.Segment.DeleteFile | pkg/devices/objstore/segment.go:204-226 | Eviction frees its slot, and changes the contents if and only if they are stranded, whatever uploads failed before |
| ObjSegment.ZeroWriteIsLost | pkg/devices/objstore/segment.go:114-121 | A case: zeros written over an evicted byte 7 are acknowledged, and 7 is read back |
| ObjSegment.FailedFlushLosesData | pkg/devices/objstore/segment.go:186-201 | A case: a written byte is lost after a failed buffered flush and an eviction |
| ObjDevice.Device.PickVictim | pkg/devices/objstore/device.go:349-373 | The victim is another loaded segment, dirty only if none is clean, with the least LastOp of its kind if and only if no candidate lacks a time or the last one does; there is none exactly when no other segment is loaded |
| ObjDevice.Device.LastOp | pkg/devices/objstore/segment.go:239-245 | At most the last read and the last write, and one of them |
| ObjDevice.VictimIsNotLeast | pkg/devices/objstore/device.go:349-368 | A case: a candidate that was never read is passed over for one that was used at 9 |
| ObjDevice.Device.RemoveLeastRecentUsed | pkg/devices/objstore/device.go:339-382 | An eviction frees one slot, its victim is the one PickVictim promises, and a client sees it if and only if the victim is stranded; it finds no victim exactly when nothing is loaded, and fails exactly when an upload does |
| ObjDevice.Device.OneSegmentChanged | pkg/devices/objstore/storeparams.go:285-298 | Quota conservation: an operation on one segment that pays for its slot keeps free slots plus loaded segments equal to the quota |
| ObjDevice.Device.AccessSegment | pkg/devices/objstore/device.go:168-187 | One eviction is always enough for an access, so the retry limit is never reached; what the access did to the disk, which writes are dropped, that at most stranded segments are lost and no risk grows, that it fails exactly when an upload does, and that the time of this segment, and of no other, is the clock's |
| ObjDevice.Device.IoChunk | pkg/devices/objstore/device.go:163-187 | The part of a request in one segment extends what the request has done to the flat disk so far |
| ObjDevice.Device.IoAt | pkg/devices/objstore/device.go:141-196 | The device refines a flat disk as long as there is no quota or no segment is stranded, after failed uploads too: a read returns exactly its bytes, a write changes exactly its range except the dropped parts, evictions are invisible; a request inside the segments returns its full count unless an upload fails; which requests end early, and which segments count as used since |
| ObjDevice.ReadIsExact | pkg/devices/objstore/device.go:141-196 | A read that is done has filled its whole buffer from the disk and changed nothing |
| ObjDevice.WriteIsExact | pkg/devices/objstore/device.go:141-196 | A write is exact if it puts no all-zero part of a segment over data; when its loads fit into the free slots, or there is no quota, if and only if it does so in no unloaded segment |
| ObjDevice.Device.EndInside | pkg/devices/objstore/device.go:151-159 | The segments cover the device exactly when their size divides it |
| ObjDevice.Device.FlushAll | pkg/devices/objstore/device.go:214-292 | Every segment is clean afterwards and no contents change; without an error, every segment that was dirty is in the container, and no segment becomes stranded; an error has a cause, a failed upload or a local file of the wrong size |
| ObjDevice.Device.SettledAreStored | pkg/devices/objstore/device.go:214-292 | Without unsettled segments, every segment is in the container or will be after a flush |
| ObjDevice.Device.DeleteAll | pkg/devices/objstore/device.go:308-314 | Every clean segment is unloaded and shows the same as before, except the stranded ones, which show zeros |
| ObjDevice.Device.Close | pkg/devices/objstore/device.go:295-320 | Durability: after a clean close the objects alone are the disk if and only if every segment was dirty or stored before, and the disk stays the same if and only if the cache is kept or no segment was stranded; without the persistent cache no local file is left |
| ObjDevice.LoadSegments | pkg/devices/objstore/segment.go:42-81 | One segment for each ID, with a remote item exactly where the container has an object; fails exactly when an object's ID is too large |
| ObjDevice.Open | pkg/devices/objstore/device.go:49-124 | Which containers and sizes are accepted; the opened device's disk is the container's, with the quota it was given and nothing at risk |
| ObjDevice.CloseAndReopen | pkg/devices/objstore/device.go:295-320 | A device that is closed and reopened on the same container, with any quota and provisioning, has the same disk if and only if every segment was dirty or stored |
| SegmentProtocol.StepKeepsInv | pkg/devices/objstore/segment.go:85-226 | Every step of every thread keeps the locks exclusive, the local file equal to the contents, and the container or the upload in flight equal to the contents whenever nothing is dirty |
| SegmentProtocol.ReadsReturnLastWrites | pkg/devices/objstore/segment.go:85-226 | In every run in which no data has gone, failing uploads and evictions in the middle of an upload included, every read returned what the completed writes before it left |
| SegmentProtocol.OneEventForEachAnswer | pkg/devices/objstore/segment.go:85-134 | Every read and write that returned without an error logged exactly one event, its own, and there are no other events but those of requests about to return |
| SegmentRequests.ServesItsRequest | pkg/devices/objstore/segment.go:85-226 | In every run and at every place, a thread works on the request it began with: same operation, position, bytes and kind of flush |
| SegmentRequests.BeginsInside | pkg/devices/objstore/segment.go:85-226 | Exactly the requests that lie inside the segment are begun |
| SegmentRequests.AnswersAreRequests | pkg/devices/objstore/segment.go:85-134 | In every run, every answer is that of the request its thread began with, and its event was logged after the request began |
| SegmentRequests.RequestAnswered | pkg/devices/objstore/segment.go:85-134 | A read or write that is over was refused a slot, or has one answer and one event, its own, logged while it ran |
| SegmentRequests.FlushStores | pkg/devices/objstore/segment.go:175-201 | A flush that is over found the segment clean or its file evicted, or its upload failed, or the container has what the segment held at some time after the flush began |
| SegmentRequests.EvictionForgets | pkg/devices/objstore/segment.go:204-226 | An eviction that is over has left no local file when it gave its lock back, unless its upload failed |
| SegmentRequests.BackedInRuns | pkg/devices/objstore/segment.go:137-226 | In every run the backed flag tells whether there is a local file, to everybody who may look |
| SegmentRequests.RequestsAreShort | pkg/devices/objstore/segment.go:85-226 | No request takes more than fifteen steps of its thread, whatever the others do |
| SegmentProtocol.QuietAndCleanIsStored | pkg/devices/objstore/segment.go:186-226 | When all threads are idle and nothing is dirty, the container has the contents if and only if there is a remote item, no local file, or nothing but zeros |
| SegmentProtocol.CleanFlushIsRight | pkg/devices/objstore/segment.go:175-182 | The same holds for a flush that finds the segment clean while no upload is in flight and no write is about to mark it dirty |
| SegmentRuns.SkippedFlush | pkg/devices/objstore/segment.go:175-182 | A run in which a flush finds the segment clean during an upload and returns before the data is stored |
| SegmentProtocol.MoverReady | pkg/devices/objstore/segment.go:151-162 | The point of the itemMu read lock in loadFile: whoever holds it without a local file finds the container up to date |
| SegmentProtocol.LostExactlyWhen | pkg/devices/objstore/segment.go:111-226 | In every run, the first step after which the segment no longer shows its contents is a zero write dropped over data, the eviction of a file whose upload failed, or a failing upload whose file is gone; each of these does it |
| Bytes.ZerosOverZeros | pkg/devices/objstore/segment.go:114-121 | Dropping a write of zeros is right exactly when zeros are there already |
| SegmentProtocol.SomeThreadCanMove | pkg/devices/objstore/segment.go:137-226 | The two mutexes never deadlock: while a thread is active, some active thread can move |
| Pipeline.StepKeepsInv | pkg/usbdlib/reqproc.go:35-233 | Every step of reader, workers, writer and shutdown keeps the invariant: consecutive positions, no reused object in use, one device call and one reply each, who holds which lock |
| Pipeline.BarrierKept | pkg/usbdlib/reqproc.go:208-214 | A device flush is called only after every write and trim of its generation |
| Pipeline.LocksWorkKept | pkg/usbdlib/reqproc.go:174-233 | A held lock of a taken write or trim belongs to a worker that will give it back, unless the write is unaligned |
| Pipeline.RespsFinishKept | pkg/usbdlib/reqproc.go:157-172 | A response object that is filled belongs to no other reply, queued or being written |
| PipelineResults.FlushBarrier | pkg/usbdlib/reqproc.go:97-110 | In every run, when a flush reaches the device, every aligned write and trim decoded since the preceding flush has been applied |
| PipelineResults.ClosedAfterAllExecuted | pkg/usbdlib/reqproc.go:63-70 | When the response queue or the device is closed, every decoded request has exactly one reply, exactly the aligned reads and writes, the flushes and the trims among them have called the device, once each, and exactly the unaligned writes still hold their locks |
| PipelineResults.ReaderReadsAll | pkg/usbdlib/reqproc.go:73-112 | Unless somebody cancels, the reader stops only at the end of the stream or at a disconnect |
| PipelineResults.EveryRequestServed | pkg/usbdlib/reqproc.go:35-233 | From end to end: a run that nobody cancels and that cannot go on has served exactly the requests before the first disconnect, each with one reply under its own handle and, by its kind, one device call or none, if no unaligned write came before a flush |
| PipelineResults.OneReplyEach | pkg/usbdlib/reqproc.go:114-172 | When the writer is done, every decoded request has one reply with its own handle and kind, and there are no others |
| PipelineResults.ObjectsReturned | pkg/usbdlib/reqproc.go:114-172 | Conservation: when the writer is done, every request and response object is back in its pool |
| PipelineResults.QueuesAreBounded | pkg/usbdlib/reqproc.go:35-61 | In every run at most 64 requests and 32 replies are queued |
| PipelineResults.AnyStart | pkg/usbdlib/reqproc.go:35-61 | There is a run for every input and every positive number of workers |
| PipelineResults.StepDecreases | pkg/usbdlib/reqproc.go:35-233 | Every step brings the end nearer, so no run is longer than its requests allow |
| PipelineResults.RunsAreBounded | pkg/usbdlib/reqproc.go:35-233 | The length of every run is bounded by its input and workers |
| PipelineResults.InFlightMoves | pkg/usbdlib/reqproc.go:73-221 | No deadlock: with a request in flight and no leaked lock before a flush, some step that serves decoded requests is possible, without new input or shutdown |
| PipelineResults.NeverStuck | pkg/usbdlib/reqproc.go:35-233 | Until everything is shut down, some step is possible, unless a lock has leaked before a flush |
| PipelineResults.FlushWaitsForAWorker | pkg/usbdlib/reqproc.go:195-221 | Everything a blocked flush waits for has left the queue and is held by a worker that can move |
| PipelineResults.ReaderNeverBlocks | pkg/usbdlib/reqproc.go:97-110 | The mutex that the reader locks is never one that a flush is waiting for |
| PipelineResults.LeakBlocksFlush | pkg/usbdlib/reqproc.go:195-202 | After an unaligned write, the next flush is never executed and nothing is ever closed |
| PipelineResults.ShutdownExactlyWithoutLeak | pkg/usbdlib/reqproc.go:63-70 | A run that cannot go on has shut down if and only if no unaligned write was followed by a flush |
| PipelineOvertaking.OvertakingNeeds | pkg/usbdlib/reqproc.go:102-104 | In every run, a flush reaches the device before an earlier aligned write or trim only with three workers or more and a flush between the two |
| PipelineOvertaking.OvertakingHappens | pkg/usbdlib/reqproc.go:102-104 | With three workers or more, every input with a write or trim and two flushes after it has a run in which a flush overtakes |
| PipelineOvertaking.OvertakingExactly | pkg/usbdlib/req.go:21-22 | The promise that a flush follows all earlier writes can be broken if and only if there are three workers or more and such an input |
| PipelineOvertaking.SecondFlushOvertakesWrite | pkg/usbdlib/reqproc.go:102-104 | The shortest case: a write, two flushes and three workers |
| NbdWire.RequestRoundTrip | pkg/usbdlib/req.go:34-81 | Every encoded request, with the full range of its fields and any payload, parses back, whatever follows it |
| NbdWire.OnlyEncodingsParse | pkg/usbdlib/req.go:34-81 | Whatever parses is the encoding of what it parses to |
| NbdWire.RequestLayout | pkg/usbdlib/req.go:34-81 | For every byte string: it is a request if and only if it begins with 25 60 95 13 and has room for a header and a write's payload; type, handle, signed position and count are these bytes, most significant first |
| NbdWire.FourBytes | pkg/usbdlib/req.go:49-70 | Four bytes on the wire are a number with the most significant byte first |
| NbdWire.EightBytes | pkg/usbdlib/req.go:60-64 | Eight bytes are two such numbers, the high one first |
| NbdWire.ReplyLayout | pkg/usbdlib/resp.go:24-33 | A reply begins with 67 44 66 98, the code, most significant byte first, and the handle |
| NbdWire.StreamRoundTrip | pkg/usbdlib/req_test.go:89-128 | A stream of encoded requests comes back as it was sent, and nothing after it is consumed |
| NbdWire.Request.Decode | pkg/usbdlib/req.go:34-81 | A recycled request object holds exactly what the stream says, and the stream is consumed exactly so far; it fails exactly when the stream does not begin with a request |
| NbdWire.Request.GetWriteBuffer | pkg/usbdlib/req.go:83-90 | The write buffer has the announced size, and is the old one exactly when that is large enough |
| NbdWire.DecodeAll | pkg/usbdlib/req.go:34-90 | One object decodes a whole stream of requests |
| NbdWire.Response.GetReadBuffer | pkg/usbdlib/resp.go:35-42 | The read buffer has the requested size, and is the old one exactly when that is large enough |
| NbdWire.SendReply | pkg/usbdlib/resp.go:24-55 | A client parses what a recycled response object sends, and what follows it, if and only if it is not a failed read with a buffer; the bytes sent are the magic, the code, the handle and, for command 0, the buffer |
| NbdWire.ClientInStep | pkg/usbdlib/resp.go:44-55 | A client understands the reply and what follows it if and only if it is not a failed read with a buffer |
| Lz4Format.CopyMatchUnique | pkg/devices/dedupdisk/impls/lz4.c:799-822 | Any output that repeats with the match's offset is the byte-by-byte match copy |
| Lz4Format.AppendExpand | pkg/devices/dedupdisk/impls/lz4.c:749-822 | The meaning of a block is built sequence by sequence |
| Lz4Words.WordsEqual | pkg/devices/dedupdisk/impls/lz4.c:463-464 | Words are equal exactly when their bytes are |
| Lz4Words.NbCommonBytesExact | pkg/devices/dedupdisk/impls/lz4.c:299-327 | Counting trailing zeros of the difference finds the first byte at which two words differ |
| Lz4Copy.CorrectedDistance | pkg/devices/dedupdisk/impls/lz4.c:733-734 | After the table fix-up the distance is a multiple of the offset and at least 8 |
| Lz4Copy.StepKeepsPeriod | pkg/devices/dedupdisk/impls/lz4.c:267-291 | Copying whole words from such a distance keeps the repetition |
| Lz4Copy.WildCopyBack | pkg/devices/dedupdisk/impls/lz4.c:267-291 | The word copy inside the output keeps the repetition and touches nothing before it |
| Lz4Copy.FirstWord | pkg/devices/dedupdisk/impls/lz4.c:799-810 | The first eight bytes of any match, overlapping or not, repeat with its offset |
| Lz4Copy.CopyMatchInto | pkg/devices/dedupdisk/impls/lz4.c:799-822 | The match copy equals byte-by-byte copying for every offset and length, and refuses exactly the matches that reach the last literals |
| Lz4Compress.HashIsTopBits | pkg/devices/dedupdisk/impls/lz4.c:366-372 | The hash is the top 13 or 12 of the low 32 bits of the product with 2654435761 |
| Lz4Compress.CellExact | pkg/devices/dedupdisk/impls/lz4.c:376-397 | No stored position is truncated by its 16-bit or 32-bit cell |
| Lz4Compress.PutPosition | pkg/devices/dedupdisk/impls/lz4.c:376-390 | Storing a position changes one cell, and keeps every table entry below the current one |
| Lz4Compress.FindMatch | pkg/devices/dedupdisk/impls/lz4.c:444-464 | A found match is strictly earlier, at most 65535 back, has the same four bytes, and every table entry stays below the next position; the search passes none of its first 61 positions for which the table had a match |
| Lz4Compress.CatchUp | pkg/devices/dedupdisk/impls/lz4.c:467 | Extending a match backwards keeps its offset and its repetition, stays behind the anchor, and stops only where it must |
| Lz4Compress.CountMatch | pkg/devices/dedupdisk/impls/lz4.c:490-502 | The word-wise scan ends exactly where the longest repetition ends |
| Lz4Compress.EmitLiterals | pkg/devices/dedupdisk/impls/lz4.c:469-483 | Token, length bytes and literals are those of the format, and the copy stays inside the output |
| Lz4Compress.EmitMatchPart | pkg/devices/dedupdisk/impls/lz4.c:487-515 | Offset, match length and the token's second half are those of the format |
| Lz4Compress.EmitLast | pkg/devices/dedupdisk/impls/lz4.c:533-545 | The last literals are those of the format |
| Lz4Compress.TestNextPosition | pkg/devices/dedupdisk/impls/lz4.c:520-526 | A match that follows at once is taken if and only if the table has one, again strictly earlier, near enough and at least four bytes long; a pair of bytes that repeats at once always is one |
| Lz4Compress.EmitMatch | pkg/devices/dedupdisk/impls/lz4.c:487-515 | One match, as long as it can be, extends the block by a sequence that means the source so far |
| Lz4Compress.EmitMatches | pkg/devices/dedupdisk/impls/lz4.c:485-531 | A match and the matches that follow it extend the block by sequences that mean the source so far |
| Lz4Compress.SequenceCost | pkg/devices/dedupdisk/impls/lz4.c:469-515 | A sequence pays for its extension bytes with the bytes it describes |
| Lz4Compress.Budget | pkg/devices/dedupdisk/impls/lz4.h:77-78 | Whatever is emitted next, the overrun of the literal copy included, fits into LZ4_COMPRESSBOUND |
| Lz4Compress.CompressGeneric | pkg/devices/dedupdisk/impls/lz4.c:406-546 | The output is a well-formed block that means exactly the source; every match is as long as it can be on both sides, and no run of a byte and no repeated pair that begins where a match ends is missed |
| Lz4Compress.Compress | pkg/devices/dedupdisk/impls/lz4.c:549-568 | For every source up to LZ4_MAX_INPUT_SIZE the output is a well-formed block within the bound that means the source, with widest matches and no run or pair missed; larger ones are refused |
| Lz4Runs.RunIsOneMatch | pkg/devices/dedupdisk/impls/lz4.c:406-546 | Such a block of a run of at least fourteen equal bytes can only be one literal, one match and five literals |
| Lz4Runs.CompressRun | pkg/devices/dedupdisk/impls/lz4.c:406-568 | The output for a run of n equal bytes, to the byte: 10 bytes, and from 25 on 11 and one more for each 255 |
| Lz4Decompress.TakeLiterals | pkg/devices/dedupdisk/impls/lz4.c:749-781 | The literals step, with its end-of-block tests, does what the reference decoder does |
| Lz4Decompress.TakeMatch | pkg/devices/dedupdisk/impls/lz4.c:783-822 | The match step does what the reference decoder does |
| Lz4Decompress.Decompress | pkg/devices/dedupdisk/impls/lz4.c:711-864 | Both decoders agree with the byte-by-byte reference decoder, return code and error position included; the safe one never leaves its buffers, whatever the input |
| Lz4Decode.SequenceDecodes | pkg/devices/dedupdisk/impls/lz4.c:749-822 | An admissible sequence decodes to its literals and match under either decoder's end-of-block tests |
| Lz4Decode.EncodedDecodes | pkg/devices/dedupdisk/impls/lz4.c:711-834 | Every well-formed block decodes to its meaning: safely into any buffer that is large enough, and fast from any input that begins with it |
| Lz4Decode.DecodersAreStrict | pkg/devices/dedupdisk/impls/lz4.c:764-781 | Whatever the input, the safe decoder succeeds only if it has consumed all of it and stayed within its output, the fast one only if it has filled its output exactly |
| Lz4Decode.SafeIsDefined | pkg/devices/dedupdisk/impls/lz4.c:749-834 | Whatever the input, the safe decoder's answer is determined unless it meets an offset of zero |
| Lz4RoundTrip.RoundTrip | pkg/devices/dedupdisk/impls/lz4.c:406-864 | For every source up to LZ4_MAX_INPUT_SIZE, compressing and decoding with either decoder gives exactly the source and the right counts |
| DedupStores.FileBlockStore.constructor | pkg/devices/dedupdisk/impls/fileblkstore.go:30-48 | An opened store puts blocks where their IDs say if and only if its file holds no block yet |
| DedupStores.FileBlockStore.GetBlock | pkg/devices/dedupdisk/impls/fileblkstore.go:50-66 | Returns the beginning of the stored block, zeros for the zero ID, and an error, without touching the buffer, exactly when the file ends too early |
| DedupStores.FileBlockStore.PutBlock | pkg/devices/dedupdisk/impls/fileblkstore.go:68-92 | A new block is found under its ID and every stored block stays as it is; a failed write uses up an ID and changes nothing |
| DedupStores.ReopenedStoreOverwrites | pkg/devices/dedupdisk/impls/fileblkstore.go:30-92 | A store reopened on blocks overwrites its first block and hands out an ID past the file's end |
| DedupStores.IDStore.GetID | pkg/devices/dedupdisk/impls/pebbleidstore.go:52-76 | Zero blocks have the zero ID and never fail, others have the ID stored under their hash, if there is one, unless the database fails |
| DedupStores.IDStore.PutID | pkg/devices/dedupdisk/impls/pebbleidstore.go:78-85 | After a put exactly the non-zero blocks with this hash are known under the ID, and every other block as before; a failed put changes nothing |
| DedupDisk.LunMap.constructor | pkg/devices/dedupdisk/impls/mmaplunmap.go:25-57 | A new map shows the zero block everywhere |
| DedupDisk.Disk.constructor | pkg/devices/dedupdisk/dedupdisk.go:35-48 | A disk over new stores shows zeros everywhere and meets the invariant |
| DedupDisk.Disk.FindOrStore | pkg/devices/dedupdisk/dedupdisk.go:163-172 | The ID found or made shows the buffer, unless another block is stored under its hash; stored blocks never change |
| DedupDisk.Disk.WriteBlock | pkg/devices/dedupdisk/dedupdisk.go:158-176 | One position changes; it shows the buffer if and only if the buffer is a whole block without a hash clash |
| DedupDisk.Disk.WriteAt | pkg/devices/dedupdisk/dedupdisk.go:122-178 | A write of whole blocks at a block boundary overwrites exactly its range of the flat disk; a write of at least a block is a write of its whole blocks to the flat disk, from the beginning of the block it starts in, under a collision-free hash; a shorter one of zeros clears a block; no other block changes in any case, and when each error is returned |
| DedupDisk.Disk.ReadAt | pkg/devices/dedupdisk/dedupdisk.go:56-110 | A read of whole blocks at a block boundary, and one of at most a block, fills its whole buffer from the flat disk; any other returns the flat disk's bytes, from the beginning of the block it starts in and in whole blocks, and never fails on a store; when each error is returned |
| DedupDisk.Disk.StoredOnce | pkg/devices/dedupdisk/dedupdisk.go:162-175 | With no failures and no collisions, the stored blocks are exactly the distinct non-zero blocks ever written, each once |
| DedupProtocol.StepKeepsInv | pkg/devices/dedupdisk/dedupdisk.go:56-178 | Every step of every reader and writer keeps the invariant, and takes no published block away or changes it |
| DedupProtocol.NobodyWaits | pkg/devices/dedupdisk/impls/fileblkstore.go:57-83 | Write before publish: in every run the LUN map and the index name finished blocks only, so no reader ever waits and no read fails |
| DedupProtocol.Linearizable | pkg/devices/dedupdisk/dedupdisk.go:56-178 | Every run is a run of a plain disk: each finished read returns what the disk held at its entry of the log, each finished write has one entry, each failed one has none; what was read or written, and where, is what the request began with, and a write fails only if the block file refuses it or the IDs have run out |
| DedupProtocol.RequestKept | pkg/devices/dedupdisk/dedupdisk.go:56-178 | No step changes the position or the block that a request began with |
| DedupProtocol.FailsOnlyIfRefused | pkg/devices/dedupdisk/dedupdisk.go:163-168 | A write fails only if its own write to the block file fails or the IDs have run out |
| DedupProtocol.DiskIsReplayed | pkg/devices/dedupdisk/dedupdisk.go:163-176 | What the LUN map shows after any run is the plain disk after the logged writes |
| DedupProtocol.RealTimeOrder | pkg/devices/dedupdisk/dedupdisk.go:56-178 | A request that begins after another has finished comes later in the log |
| DedupProtocol.AllAnswered | pkg/devices/dedupdisk/dedupdisk.go:56-178 | Runs are bounded, and a run that cannot go on has finished every request |
| DedupProtocol.StoredTwice | pkg/devices/dedupdisk/dedupdisk.go:163-169 | A run in which two writers of one block store it twice |
| DedupExact.StoredOnceExactly | pkg/devices/dedupdisk/dedupdisk.go:163-172 | In every finished run without failures the stored blocks are pairwise distinct if and only if no two requests are ever between missing the same block in the index and putting it there at the same time |

## Left out

- ObjDevice.Device.IoAt: when the loads of a request do not fit into the free slots, a segment that is loaded when the request begins may be evicted before the request reaches it, so for such a segment the contract says only that nothing but an all-zero part can be dropped; otherwise it is exact. With a quota and a stranded segment nothing is said of the bytes; AccessSegment says what one access may lose.
- ObjDevice.WriteIsExact: one direction only when the loads of the request do not fit into the free slots.
- ObjDevice.Open: a container with an object whose ID equals the number of segments is excluded, since loadSegments indexes past its slice there; so are objects of another size than the segment size, which downloadFile rejects or, when empty, leaves without a file.
- ObjSegment.Segment.ReadAt: positions past the end of the segment are excluded, since slicing the buffer would panic there.
- ObjSegment.Segment.Flush: a file that a sparse download left one byte too long is assumed to be stored without that byte, that is, the container takes exactly the announced number of bytes of a longer reader; durability of sparse segments rests on it.
- ObjDevice.Device.PickVictim: a scan that nobody disturbs; the retries of device.go:342 and 377 for a candidate that was used meanwhile are not modelled.
- ObjDevice.Device.FlushAll: one flush at a time, segment after segment; the flush goroutines and the buffer pool are not modelled. SegmentProtocol has the interleavings of one segment, a flush that finds it clean during an upload included.
- SegmentProtocol.ReadsReturnLastWrites: files have exactly the segment's size, and reading or writing a local file does not fail.
- DedupDisk.Disk.ReadAt: an empty request at the very end of the disk is excluded because it indexes past the LUN map.
- DedupDisk.Disk.WriteAt: as for reading; also excluded are writes of less than a block that are not all zeros, which would put a short block into the store and which the pipeline rejects (reqproc.go:196).
- DedupProtocol.Linearizable: one block for each request; a request for several blocks is several requests.
- PipelineResults.OneReplyEach: the reply's error code and the device's own errors are not modelled; the handle and the kind of request are.
- PipelineOvertaking.OvertakingExactly: for inputs in which no unaligned write comes before a flush, since such a write stops the pipeline; OvertakingNeeds is for all inputs.
- Lz4Decompress.Decompress: the fast decoder is not asked for anything on input that makes it read past its input, and the safe one is not given an empty input for a non-empty output, which it reads past.
- Local file errors: a slot that createFile keeps after a failure (storeparams.go:40-55) and failing reads, writes and removals of local files.
- Compressing and encrypting containers: an uploaded object is assumed to read back as it was put.
- The persisted cache with its ETags, fsync workers, wall-clock time, and crashes.
- Negative positions in the object-store device; sizes beyond 63 bits.
- LZ4 streaming, prefix, partial and limited-output variants, 32-bit and big-endian builds, and the block store built on LZ4, which is disabled in the source.
- Kernel and socket plumbing, command line and configuration, the RAM and file disks, and the word-wise zero test.
- The internals of SHA-1, Pebble and mmap: a function, a map that may lose a put, and an array.
