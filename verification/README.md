# Verified models of Sirikata's stream, cache and event layers

Dafny models of three components of libcore, with proofs of what they are for.

* **The TCP-SST multiplexed stream layer** (`libcore/src/network`) carries many logical streams over N
  TCP sockets. `Uint30` and `Frames` give the packet format and a reference parser; `ReadBuffers` and
  `SendPacking` are the receiving and sending byte movers, with their fixed buffers as arrays and their
  loops, and `Pipeline` joins them end to end. `SendHandoff`, `SendGate`, `PreConnection` and
  `StreamClose` are interleaving models: a state, one function `Step` per atomic action, `Run` over any
  list of actions, an inductive invariant, and theorems about every reachable state. Beside each stands a
  module (`HandoffProgress`, `GateProgress`, `ConnectProgress`, `CloseProgress`) that shows that the
  threads of every reachable state can finish, by a rank that falls along a schedule. `Handshake` is the
  counter that decides whether a set of sockets makes a connection.
* **The byte-range cache** (`libcore/src/transfer`). `Ranges` is the interval algebra with end-of-file
  ranges, `SparseFiles` a file known in pieces, `CacheMaps` the bounded map with its LRU policy,
  `MemoryCaches` the cache layer on top of them, and `RangeText` the text form of range lists in the
  disk cache's index.
* **The event manager and listener lists** (`libcore/src/task`, `libcore/src/util`). `EventDispatch`
  says what dispatch means on a flat list of subscriptions; `EventManagers` proves that the two-level
  maps and the removal index carry it out, and `EventRuns` does both for whole runs of subscriptions,
  unsubscriptions and events. `EventWakeup` is the interleaving model of `fire` against
  the sleeping event thread, with `WakeupProgress` beside it, and `ListenerProviders` the listener vector with its index.

`dafny verify dfyconfig.toml` checks everything.

## Where the code departs from what is said of it

* **Closing marks can leak.** `mOneSidedClosingStreams` is documented to hold streams whose close has
  not been acknowledged (libcore/src/network/MultiplexedSocket.hpp:86). If the NULL registration is
  still waiting when the last Ack arrives, the next commit puts the stream back in after it was taken
  out. `StreamClose.MarkAfterLastAck` gives the exact condition, `StreamClose.MarkCanComeBack` a run.
* **The send gate is good for exactly three closers.** A comment in `TCPStream::send` says at most three
  entities can close a stream at once. `SendGate.GateLimit` shows that three is the exact limit: with
  four simultaneous closers the two closing bits wrap to zero and a sender is let in.
* **An empty chunk at the front of a longer deque stops the sender**
  (libcore/src/network/ASIOSocketWrapper.cpp:178-188): neither branch takes it up, and nothing is ever
  sent again. `SendPacking.Sender.SendDequeToWire` states exactly when this happens; framing never builds
  an empty chunk.
* **Range lists with lengths of 2^63 and more do not survive the disk cache's index.**
  `RangeText.TextRoundTrip` gives the exact condition. (Negating the least 64-bit number, which C++
  leaves undefined, is modelled as wrapping.)
* **`dataAt` reports a wrapped length past the end of a file.** It is documented to return length 0 where
  no valid data follows (libcore/src/transfer/TransferData.hpp:239-245). Under an end-of-file piece and
  past the file's end the length is the distance back to the end, modulo 2^64.
  `SparseFiles.NothingFollowsReportsZero` gives the exact condition, `SparseFiles.WrappedLength` an input.
* **A cache with a maximum fraction above 1 can overdraw its budget.** The constructor takes any fraction.
  `MemoryCaches.Run` shows that the budget is kept over a run if and only if no admitted piece is larger
  than the whole budget, and `CacheMaps.AdmissionLimit` which policies admit one.
* **A cache hit is not a use.** `getData` never calls `use()`, so recency counts populations only.
* **An event whose primary id was never subscribed is dropped** without its own action being run;
  `EventManagers.EventManager.ProcessEvent` returns no history for it.
* **A packet body too short for its own stream id** is delivered as an empty packet on the control
  stream; `Frames.Open` says so, and the readers are proved to agree with it.
* **Adding a listener twice breaks the listener index.** `addListener` does not look; the index survives
  an addition if and only if the listener was absent.

## Model

| member | source | states |
|---|---|---|
| `Uint30.RoundTrip` | libcore/src/network/Stream.cpp:51-97 | decoding an encoded value gives it back and consumes exactly its bytes, whatever follows, for every value below 2^30 |
| `Uint30.Encode` | libcore/src/network/Stream.cpp:51-71 | one byte below 128, two below 16384, four above |
| `Uint30.DecodeIsInjective` | libcore/src/network/Stream.cpp:72-97 | different bytes of one length are different values |
| `Uint30.DecodeIsPrefixStable` | libcore/src/network/Stream.cpp:72-97 | bytes that arrive later never change an integer that could already be read |
| `Uint30.Serialize` | libcore/src/network/Stream.cpp:51-71 | writes exactly the encoding in place and touches no other byte |
| `Frames.StreamRoundTrip` | libcore/src/network/TCPStream.cpp:67-89 | parsing any concatenation of frames, followed by anything, returns those frames and continues with what follows |
| `Frames.ParseResumes` | libcore/src/network/ASIOReadBuffer.cpp:92-121 | parsing can stop after any number of bytes and be resumed with the leftover in front of the next bytes |
| `Frames.BytesArePrefixFree` | libcore/src/network/TCPStream.cpp:67-89 | no packet is a proper prefix of another, so packet boundaries are unambiguous |
| `Frames.ControlRoundTrip` | libcore/src/network/MultiplexedSocket.cpp:272-313 | a control payload is read back as the code and stream it was built from |
| `Frames.OnlyCloseAndAck` | libcore/src/network/MultiplexedSocket.cpp:272-313 | no other code and no control packet about stream 0 is heeded |
| `Frames.ShortBodyIsIgnored` | libcore/src/network/ASIOReadBuffer.cpp:79-91 | a body that breaks off inside its stream id becomes an empty packet on stream 0, which is not heeded, and the packets behind it are unaffected |
| `Frames.ConstructControlPacket` | libcore/src/network/ASIOSocketWrapper.cpp:307-326 | the scratch-array construction yields exactly the packet of stream 0 with that code and id |
| `Frames.ConstructDataPacket` | libcore/src/network/TCPStream.cpp:67-89 | the chunk handed to the socket is exactly the packet of the stream's id and data |
| `ReadBuffers.ProcessPartialChunk` | libcore/src/network/ASIOReadBuffer.cpp:79-91 | splits id and payload of a whole or partial body as the reference does; both assertions of the source hold |
| `ReadBuffers.ChunkParses` | libcore/src/network/ASIOReadBuffer.cpp:125-147 | header, id and payload parse as one frame when complete and as nothing before |
| `ReadBuffers.ReadBuffer.TranslateBuffer` | libcore/src/network/ASIOReadBuffer.cpp:92-121 | leaves the reader with delivered and held bytes equal to the parse of all bytes received, fewer than 256 bytes held when the fixed buffer is read next, and room in the chunk otherwise |
| `ReadBuffers.ReadBuffer.StartChunk` | libcore/src/network/ASIOReadBuffer.cpp:97-107 | the switch to direct reading keeps that invariant, including the assertions of `readIntoChunk` |
| `ReadBuffers.ReadBuffer.MoveToFront` | libcore/src/network/ASIOReadBuffer.cpp:116-119 | the remainder is moved to the front of the buffer unchanged |
| `ReadBuffers.ReadBuffer.AsioReadIntoFixedBuffer` | libcore/src/network/ASIOReadBuffer.cpp:149-163 | a read of any size into the fixed buffer keeps the invariant |
| `ReadBuffers.ReadBuffer.AsioReadIntoChunk` | libcore/src/network/ASIOReadBuffer.cpp:125-147 | a read of any size into a chunk keeps the invariant; the chunk is delivered exactly when full |
| `ReadBuffers.ReadBuffer.Receive` | libcore/src/network/ASIOReadBuffer.cpp:65-163 | after every read, what was delivered is the pure parse of all bytes so far |
| `ReadBuffers.ReadBuffer.ReceiveAll` | libcore/src/network/ASIOReadBuffer.cpp:65-163 | for every stream and every way of cutting it into reads, the frames delivered are those of the stream |
| `SendPacking.Sender.SendChunkToWire` | libcore/src/network/ASIOSocketWrapper.cpp:161-173 | the rest of the chunk becomes the outstanding send |
| `SendPacking.Sender.SendDequeToWire` | libcore/src/network/ASIOSocketWrapper.cpp:175-222 | the bytes still to send are exactly the deque's from the offset on, whichever branch is taken; it stalls if and only if an empty chunk heads a longer deque, sends the front chunk alone if and only if it is the only one or too large for the buffer, and otherwise sends a full buffer or all there is |
| `SendPacking.Sender.OfferIsWhole` | libcore/src/network/ASIOSocketWrapper.cpp:165-220 | the socket is always given the whole of what is at hand |
| `SendPacking.Sender.PackBuffer` | libcore/src/network/ASIOSocketWrapper.cpp:190-209 | the buffer's contents followed by what stays in the deque are the deque's bytes; the buffer is full or the deque is used up; all writes stay within 1400 bytes |
| `SendPacking.Sender.Complete` | libcore/src/network/ASIOSocketWrapper.cpp:81-158 | when the socket accepts n bytes, those move from the front of what remains to the wire, and what remains shrinks until the send is finished |
| `SendPacking.Sender.SendLargeChunkItem` | libcore/src/network/ASIOSocketWrapper.cpp:81-92 | resumes a partly sent chunk at the right byte, or finishes |
| `SendPacking.Sender.SendLargeDequeItem` | libcore/src/network/ASIOSocketWrapper.cpp:94-119 | resumes a partly sent front chunk, or goes on with the rest of the deque |
| `SendPacking.Sender.SendStaticBuffer` | libcore/src/network/ASIOSocketWrapper.cpp:121-158 | resumes a partly sent buffer, or goes on behind the bytes of the deque already copied |
| `SendPacking.Sender.SendAll` | libcore/src/network/ASIOSocketWrapper.cpp:81-222 | for any deque and any partial-send counts the wire and what remains add up to the chunks concatenated; without empty chunks everything is sent, and with an empty chunk in front of others nothing ever is |
| `Pipeline.Transfer` | libcore/src/network/TCPStream.hpp:49-85 | frames built, gathered into batches, packed, partly sent over one socket, cut into arbitrary reads and reassembled arrive exactly as sent, in order |
| `Pipeline.SendBatch` | libcore/src/network/ASIOSocketWrapper.cpp:60-80 | a batch goes onto the wire whole, right behind those before it |
| `SendHandoff.Reachable` | libcore/src/network/ASIOSocketWrapper.cpp:224-306 | every state of every interleaving of fewer than 2^29 concurrent calls satisfies the invariant tying word, flags, queue, torch and order together |
| `SendHandoff.NoChunkIsStranded` | libcore/src/network/ASIOSocketWrapper.cpp:291-306 | with no call inside `rawSend` and the send flag clear, the queue is empty and every chunk is on the wire exactly once |
| `HandoffProgress.EveryChunkGetsOut` | libcore/src/network/ASIOSocketWrapper.cpp:60-306 | from every reachable state the calls there can all return without a new one, leaving the word at 0, the queue empty and every chunk handed in on the wire once, behind what was there |
| `HandoffProgress.NewCallGetsOut` | libcore/src/network/ASIOSocketWrapper.cpp:291-306 | a call can be made at any time, up to 2^29 at once, and its chunk gets out |
| `HandoffProgress.WaitsOnlyForQueueCheck` | libcore/src/network/ASIOSocketWrapper.cpp:227-265 | a step leaves everything as it was if and only if it re-reads an unchanged word while the queue is being checked |
| `SendHandoff.BusyWhileQueued` | libcore/src/network/ASIOSocketWrapper.cpp:224-266 | while a chunk is queued and nobody sends, some call is still inside to take it up |
| `SendHandoff.OneSenderAtATime` | libcore/src/network/ASIOSocketWrapper.cpp:60-80 | at most one party owns the wire; the check flag implies the send flag; the assertions of the source hold wherever they are reached |
| `SendHandoff.EarlierCallsGoFirst` | libcore/src/network/ASIOSocketWrapper.cpp:291-306 | if `rawSend(a)` returned before `rawSend(b)` was made, a precedes b on the wire |
| `SendGate.CloseExcludesSends` | libcore/src/network/TCPStream.cpp:105-120 | with at most three closers at work and fewer than 2^29 senders, once `closeSendStatus` has returned no send is in progress, then or later |
| `SendGate.ThreeClosersAreSafe` | libcore/src/network/TCPStream.cpp:90-104 | with at most three closers, in every run, a sender is let in if no closer has closed the gate and refused if one has |
| `SendGate.FourClosersReopenTheGate` | libcore/src/network/TCPStream.cpp:92-93 | with four closers allowed there is a run in which a sender is let in after the gate was closed |
| `SendGate.GateLimit` | libcore/src/network/TCPStream.cpp:90-120 | the gate holds in all runs if and only if at most three closers may be at work at once |
| `GateProgress.CloserReturnsOnceDrained` | libcore/src/network/TCPStream.cpp:114-119 | a waiting closer returns at its next look if and only if no sender is counted |
| `GateProgress.EverybodyFinishes` | libcore/src/network/TCPStream.cpp:90-120 | from every reachable state all senders and closers can finish, with no new ones |
| `GateProgress.OpenGateAdmits` | libcore/src/network/TCPStream.cpp:92-96 | while nobody closes, a new sender is let in at once, however many are inside |
| `GateProgress.NewCloserCloses` | libcore/src/network/TCPStream.cpp:105-120 | a new closer, the third at most, gets to close the gate and returns |
| `PreConnection.RunPreserves` | libcore/src/network/MultiplexedSocket.cpp:68-107 | every step keeps the invariant and only ever extends the order in which requests are forwarded |
| `PreConnection.ForwardedExactlyOnce` | libcore/src/network/MultiplexedSocket.cpp:146-173 | no request is forwarded twice, and once connected and returned each has been forwarded |
| `PreConnection.EarlierRequestsGoFirst` | libcore/src/network/MultiplexedSocket.cpp:146-173 | a request whose call returned before another was made is forwarded first, whether it waited or not |
| `PreConnection.QueueIsFifo` | libcore/src/network/MultiplexedSocket.cpp:75-97 | of two waiting requests the one queued earlier is forwarded first, wherever the run goes |
| `PreConnection.WaitConnectingIsHidden` | libcore/src/network/MultiplexedSocket.cpp:161-163 | a sender holding the lock never finds WAITCONNECTING, so the assertion holds |
| `ConnectProgress.EveryRequestGetsOut` | libcore/src/network/MultiplexedSocket.cpp:68-173 | from every reachable state the connect can succeed and every call return, each request forwarded once, behind those forwarded already |
| `ConnectProgress.NewRequestGetsOut` | libcore/src/network/MultiplexedSocket.cpp:146-173 | a request can be made at any time and gets out |
| `ConnectProgress.ConnectedNeedsNoLock` | libcore/src/network/MultiplexedSocket.cpp:147-148 | once connected a request goes out without the lock, whoever has it |
| `StreamClose.Reachable` | libcore/src/network/MultiplexedSocket.cpp:246-335 | every state of every run of a one-sided close over N FIFO sockets satisfies the invariant, whichever side opened the stream and whether or not its callbacks are committed yet |
| `StreamClose.DeliveredBeforeDisconnected` | libcore/src/network/MultiplexedSocket.cpp:246-306 | when the peer is told Disconnected it has been given everything sent, socket by socket in order |
| `StreamClose.NoSpuriousSubstream` | libcore/src/network/MultiplexedSocket.cpp:314-335 | the closer is never offered the closed stream as a new substream, the peer at most once; the assertion at the erasure holds; the peer always has a prefix of what was sent |
| `StreamClose.IdIsFreedSafely` | libcore/src/network/MultiplexedSocket.cpp:268-270 | the id is freed at most once, by the closer only when no packet of the stream is left anywhere and the peer has forgotten it |
| `StreamClose.MarkAfterLastAck` | libcore/src/network/MultiplexedSocket.cpp:52-66 | in every state after the last Ack the closing mark is absent if no registration was waiting when it came; if one was, every commit from then on leaves it present |
| `StreamClose.MarkCanComeBack` | libcore/src/network/MultiplexedSocket.cpp:264-267 | a run in which the mark returns after the last Ack |
| `CloseProgress.ToldIfAndOnlyIfKnown` | libcore/src/network/MultiplexedSocket.cpp:246-263 | after its last Close the peer has been told Disconnected and its gate is shut if and only if it ever knew the stream; before that it is not told, the closer never is, and a new substream is offered exactly when the peer learns of the stream from a packet |
| `CloseProgress.CloseCompletes` | libcore/src/network/MultiplexedSocket.cpp:246-335 | from every reachable state the close can run to its end: both sides done, no packet left, everything sent delivered, and the id freed once, by its owner |
| `CloseProgress.SentIsDelivered` | libcore/src/network/MultiplexedSocket.cpp:314-335 | what is sent before the close, on any socket, is delivered and the peer then told |
| `CloseProgress.ReplyIsHeard` | libcore/src/network/MultiplexedSocket.cpp:314-319 | a reply sent while the closer has not unregistered is delivered to it, behind those before it |
| `CloseProgress.CommitsTakeEffect` | libcore/src/network/MultiplexedSocket.cpp:52-66 | waiting callbacks of either side can be committed at any time, and the stream is then registered exactly as long as it is open on that side |
| `Handshake.ConnectAndHandshake.CheckHeaderContents` | libcore/src/network/ASIOConnectAndHandshake.cpp:43-72 | keeps the counter and the callbacks made in step with the outcomes so far |
| `Handshake.ConnectAndHandshake.ConnectFailed` | libcore/src/network/ASIOConnectAndHandshake.cpp:82-93 | the same for a socket that cannot connect |
| `Handshake.Connect` | libcore/src/network/ASIOConnectAndHandshake.cpp:43-93 | with one outcome per socket in any order: connected exactly when all headers agree, otherwise one failure, for the first socket to fail; the sockets read from are those that came before it |
| `Ranges.ContainsMeansCovers` | libcore/src/transfer/Range.hpp:202-213 | one range contains another if and only if it covers all the other's bytes |
| `Ranges.AddToList` | libcore/src/transfer/Range.hpp:220-272 | the in-place scan, insertion and erasure produce `Insert` |
| `Ranges.FindPosition` | libcore/src/transfer/Range.hpp:233-258 | finds the position in the list, and rejects the range if and only if a single piece makes it superfluous |
| `Ranges.EraseSuperfluous` | libcore/src/transfer/Range.hpp:259-271 | erases exactly the later pieces the new one makes superfluous |
| `Ranges.InsertIsNormal` | libcore/src/transfer/Range.hpp:220-272 | starts stay strictly increasing, ends weakly increasing, and an end-of-file range stays last |
| `Ranges.InsertCovers` | libcore/src/transfer/Range.hpp:220-272 | the coverage afterwards is exactly the old coverage and the new range |
| `Ranges.InsertKeeps` | libcore/src/transfer/Range.hpp:259-271 | nothing but the new piece is added, and only superfluous pieces go |
| `Ranges.InsertIsExact` | libcore/src/transfer/Range.hpp:220-272 | the piece is refused if and only if a single old one contains it and reaches further; otherwise the list holds exactly the piece and the old ones it does not contain |
| `Ranges.InsertSpace` | libcore/src/transfer/TransferData.hpp:183-195 | one addition grows the space used by at most the piece's length |
| `Ranges.IsContainedBy` | libcore/src/transfer/Range.hpp:153-200 | true if and only if every byte requested is covered (an empty request asks for its first byte) |
| `SparseFiles.AddingStaysFaithful` | libcore/src/transfer/TransferData.hpp:182-185 | pieces that are slices of the file stay so when one more is added |
| `SparseFiles.FindDataAt` | libcore/src/transfer/TransferData.hpp:246-263 | the search loop computes the lookup function, 64-bit length arithmetic included |
| `SparseFiles.DataAtAgreesWithFile` | libcore/src/transfer/TransferData.hpp:246-263 | at a covered offset inside the file the data found are the file's bytes, up to the end of a piece that covers the offset |
| `SparseFiles.DataAtReportsGap` | libcore/src/transfer/TransferData.hpp:239-263 | at an offset that nothing covers, NULL comes back with the exact distance to the next piece, or 0 when there is none |
| `SparseFiles.DataAtPastTheEnd` | libcore/src/transfer/TransferData.hpp:246-263 | at or past the file's end NULL comes back, with the wrapped distance to the end when an end-of-file piece is at hand and 0 otherwise |
| `SparseFiles.NothingFollowsReportsZero` | libcore/src/transfer/TransferData.hpp:239-263 | where no valid data follows, the length is 0 if and only if the offset is not past the file's end or no end-of-file piece is at hand |
| `SparseFiles.WrappedLength` | libcore/src/transfer/TransferData.hpp:250-254 | a one-byte file asked at offset 2 answers NULL with length 2^64 - 1 |
| `SparseFiles.ContainedMeansReadable` | libcore/src/transfer/TransferData.hpp:246-263 | every byte of a request that the list contains can be read off it |
| `CacheMaps.EvictionsAreMinimal` | libcore/src/transfer/CacheMap.hpp:90-101 | the entries evicted are the shortest prefix of the recency order that frees enough |
| `CacheMaps.LRUPolicy.Use` | libcore/src/transfer/LRUPolicy.hpp:64-69 | moves the entry to the end; the list stays duplicate-free and ordered by last use |
| `CacheMaps.LRUPolicy.UseAndUpdate` | libcore/src/transfer/LRUPolicy.hpp:71-74 | the same, with the free space adjusted by the change of size |
| `CacheMaps.LRUPolicy.Destroy` | libcore/src/transfer/LRUPolicy.hpp:76-84 | takes the entry out of the order and gives its space back |
| `CacheMaps.LRUPolicy.Create` | libcore/src/transfer/LRUPolicy.hpp:86-94 | appends the entry as the most recent and takes its space |
| `CacheMaps.LRUPolicy.UpdateSpace` | libcore/src/transfer/CachePolicy.hpp:50-66 | accounts for a change of size |
| `CacheMaps.CacheMap.Alloc` | libcore/src/transfer/CacheMap.hpp:90-101 | terminates after exactly the least evictions, with room for the request if and only if the total has room for it, or leaves everything alone when the request is not cachable |
| `CacheMaps.AdmissionLimit` | libcore/src/transfer/CachePolicy.hpp:126-137 | a policy admits nothing larger than its total if and only if it does not admit total + 1, which holds for every fraction up to 1 |
| `CacheMaps.CacheMap.EvictWhileNeeded` | libcore/src/transfer/CacheMap.hpp:96-99 | the eviction loop removes exactly the computed prefix from map and list |
| `CacheMaps.CacheMap.Erase` | libcore/src/transfer/CacheMap.hpp:254-259 | removes the entry from map and recency list and gives back its recorded size |
| `CacheMaps.CacheMap.EraseAll` | libcore/src/transfer/CacheMap.hpp:264-271 | empties map and list and restores the whole budget |
| `CacheMaps.CacheMap.Insert` | libcore/src/transfer/CacheMap.hpp:286-296 | inserts only if absent and charges only then |
| `CacheMaps.CacheMap.Use` | libcore/src/transfer/CacheMap.hpp:231-233 | makes the entry the most recent; free space still equals total minus recorded sizes |
| `CacheMaps.CacheMap.Update` | libcore/src/transfer/CacheMap.hpp:241-246 | records the new size, charges the difference and makes the entry the most recent |
| `MemoryCaches.GetSpaceUsed` | libcore/src/transfer/TransferData.hpp:188-195 | the sum of the pieces' lengths |
| `MemoryCaches.MemoryCache.PopulateCache` | libcore/src/transfer/MemoryCacheLayer.hpp:56-79 | each recorded size is the space used, every entry is made of slices of its file, map and recency order are those after eviction and merging, and free space is negative if and only if the admitted piece exceeds the whole budget; pieces below 2^63 bytes and below the fraction of the total are admitted, others change nothing |
| `MemoryCaches.MemoryCache.StoreNew` | libcore/src/transfer/MemoryCacheLayer.hpp:60-66 | a new entry holds just the piece and is the most recent |
| `MemoryCaches.MemoryCache.AddToExisting` | libcore/src/transfer/MemoryCacheLayer.hpp:67-76 | an existing entry gets the piece inserted, and free space falls by at most the piece's length |
| `MemoryCaches.MemoryCache.PurgeFromCache` | libcore/src/transfer/MemoryCacheLayer.hpp:95-101 | removes exactly that entry and keeps the invariant |
| `MemoryCaches.MemoryCache.GetData` | libcore/src/transfer/MemoryCacheLayer.hpp:103-133 | a hit if and only if the entry covers the request, and then faithful pieces that cover it |
| `MemoryCaches.HitIsTransparent` | libcore/src/transfer/MemoryCacheLayer.hpp:117-129 | at each requested offset inside the file a hit reads as the file |
| `MemoryCaches.Run` | libcore/src/transfer/MemoryCacheLayer.hpp:56-133 | over every run of populations, purges and lookups from an empty cache: every hit is transparent, free space never exceeds the total, and it never goes negative if and only if no admitted piece exceeds the budget, as with every fraction up to 1 |
| `MemoryCaches.OversizedPieceExists` | libcore/src/transfer/CachePolicy.hpp:126-137 | an input that overdraws the budget when the fraction is above 1 |
| `RangeText.SerializeRanges` | libcore/src/transfer/DiskCacheLayer.hpp:108-119 | writes the text form, with the length negated for end-of-file ranges |
| `RangeText.UnserializeRanges` | libcore/src/transfer/DiskCacheLayer.hpp:121-143 | for any text at all, the stream loop computes the reference reading, and the list stays in normal form |
| `RangeText.EntryMeaning` | libcore/src/transfer/DiskCacheLayer.hpp:122-142 | what one entry means for any numbers: a negative start wraps, a negative length marks end-of-file, a length out of range is cut to the limit and ends the reading |
| `RangeText.ZeroLengthEndsReading` | libcore/src/transfer/DiskCacheLayer.hpp:128-130 | an entry of length 0 ends the reading, whatever follows |
| `RangeText.TextExample` | libcore/src/transfer/DiskCacheLayer.hpp:111-117 | the text of a plain range followed by an end-of-file range |
| `RangeText.DecimalReadsBack` | libcore/src/transfer/DiskCacheLayer.hpp:116-126 | a printed number is read back, and reading stops right behind it |
| `RangeText.RereadIsExact` | libcore/src/transfer/DiskCacheLayer.hpp:112-136 | a range is read back as itself if and only if its length fits a signed 64-bit number |
| `RangeText.AddAllRebuilds` | libcore/src/transfer/Range.hpp:220-272 | adding the ranges of a normal-form list in order rebuilds it exactly |
| `RangeText.TextRoundTrip` | libcore/src/transfer/DiskCacheLayer.hpp:108-143 | a normal-form list survives being written and read if and only if all its lengths fit |
| `EventDispatch.CalledUnlessCancelled` | libcore/src/task/EventManager.cpp:469-528 | a matching listener is called if and only if no listener of an earlier stage cancels, and dropped if and only if it is called and asks to be |
| `EventDispatch.CallsInOrder` | libcore/src/task/EventManager.cpp:493-520 | any two calls for an event stand in order of stage, then primary before secondary, then newest first |
| `EventDispatch.StageMembers` | libcore/src/task/EventManager.cpp:352-392 | a stage calls exactly its listeners and drops exactly those that ask, even when one cancels |
| `EventDispatch.HistoryMeans` | libcore/src/task/EventManager.cpp:490-526 | an event ends as cancelled if and only if one of its listeners cancels it, and as unhandled if and only if it has none |
| `EventDispatch.UnsubscribedIsNotCalled` | libcore/src/task/EventManager.cpp:469-528 | a listener that is not subscribed is called for no event of a queue, and is still not subscribed after it |
| `EventRuns.EffectOnOne` | libcore/src/task/EventManager.cpp:280-308 | exactly when a subscription, unsubscription or event calls a given live listener, and exactly when it ends its subscription |
| `EventRuns.CallsOfRun` | libcore/src/task/EventManager.cpp:406-528 | at every point of every run, those called are exactly the subscribed listeners the operation is for |
| `EventRuns.OrderOfRun` | libcore/src/task/EventManager.cpp:493-520 | at every point of every run, calls for an event come stage by stage, primary before secondary, newest first, and nobody is called twice |
| `EventRuns.HistoriesOfRun` | libcore/src/task/EventManager.cpp:469-528 | at every point of every run, an event has no history if and only if its primary id was never subscribed to, is cancelled if and only if a listener subscribed then cancels it, and unhandled if and only if it has no listener then |
| `EventRuns.DismissedIsNeverCalledAgain` | libcore/src/task/EventManager.cpp:358-383 | a listener that asked for deletion or was unsubscribed is called by no later operation of any kind, unless it is subscribed anew |
| `EventRuns.LivesUntilDismissed` | libcore/src/task/EventManager.cpp:406-528 | a subscription is alive at the end of a run if and only if no operation of the run ended it |
| `EventRuns.DoOperation` | libcore/src/task/EventManager.cpp:406-528 | one request or event, on the manager's maps, has the effect it has on the flat list |
| `EventRuns.Run` | libcore/src/task/EventManager.cpp:396-538 | for every run from an empty manager, the calls and histories are those of the flat run |
| `EventManagers.EventManager.DoSubscribeId` | libcore/src/task/EventManager.cpp:224-250 | puts the subscription in front of the flat list; maps and index still carry exactly the list |
| `EventManagers.EventManager.InsertIds` | libcore/src/task/EventManager.cpp:107-137 | creates what a key needs without changing any list |
| `EventManagers.EventManager.RemoveListener` | libcore/src/task/EventManager.cpp:375-383 | a node leaves its list and the index together |
| `EventManagers.EventManager.DoUnsubscribe` | libcore/src/task/EventManager.cpp:280-308 | removes exactly the subscription with that id and notifies it on request, does nothing for an unknown id; the assertion holds |
| `EventManagers.EventManager.CleanUp` | libcore/src/task/EventManager.cpp:311-325 | drops a secondary entry if and only if its lists are all empty |
| `EventManagers.EventManager.CallAllListeners` | libcore/src/task/EventManager.cpp:352-392 | calls the whole list in order, erases exactly those that ask, reports whether any cancelled |
| `EventManagers.EventManager.RunStage` | libcore/src/task/EventManager.cpp:493-520 | one pass over primary and secondary list carries out one stage of the flat meaning |
| `EventManagers.EventManager.RunStages` | libcore/src/task/EventManager.cpp:493-520 | the loop over stages carries out dispatch up to the first cancelled stage |
| `EventManagers.EventManager.ProcessEvent` | libcore/src/task/EventManager.cpp:473-527 | calls, remaining subscriptions and history of one event are those of the flat meaning, and the history is cancelled or handled exactly when a subscribed listener cancels, or there are listeners and none cancels; an unknown primary id drops the event |
| `EventManagers.EventManager.ProcessEvents` | libcore/src/task/EventManager.cpp:469-528 | calls, remaining subscriptions and every history of a whole queue of events are those of the flat meaning, event after event |
| `EventWakeup.Reachable` | libcore/src/task/EventManager.cpp:331-345 | every state of every interleaving satisfies the invariant; the counter is queued plus taken events less the calls between push and increment |
| `EventWakeup.NoLostWakeup` | libcore/src/task/EventManager.cpp:541-553 | event thread blocked and no call mid-`fire`: queue empty, counter zero, and exactly the fired events have been processed, once each |
| `EventWakeup.BlockedMeansUncounted` | libcore/src/task/EventManager.cpp:541-553 | blocked with no notification on its way, exactly as many events are queued as calls have yet to count theirs |
| `EventWakeup.EarlierEventsGoFirst` | libcore/src/task/EventManager.cpp:331-345 | an event fired after another `fire` returned is processed after it |
| `EventWakeup.NeverStuck` | libcore/src/task/EventManager.cpp:331-345 | while an event is unprocessed some existing thread can take a step, without a spurious wakeup |
| `WakeupProgress.EveryEventIsProcessed` | libcore/src/task/EventManager.cpp:331-553 | from every reachable state, with no new calls and no spurious wakeups, every call can return and the event thread go back to sleep with every event processed once, behind those processed already |
| `WakeupProgress.NewEventIsProcessed` | libcore/src/task/EventManager.cpp:331-345 | an event can be fired at any time and is processed |
| `WakeupProgress.OnlyZeroNeedsTheLock` | libcore/src/task/EventManager.cpp:339-343 | a call takes the lock only if it found the counter at zero, and otherwise returns with its increment |
| `EventWakeup.CounterLag` | libcore/src/task/EventManager.cpp:530-532 | the counter is never lower than minus the number of calls between push and increment |
| `EventWakeup.CounterCanBeNegative` | libcore/src/task/EventManager.cpp:530-532 | a run in which the counter is -1 |
| `ListenerProviders.Provider.AddListener` | libcore/src/util/ListenerProvider.hpp:170-183 | appends the listener; the index stays the exact inverse if and only if the listener was absent |
| `ListenerProviders.Provider.RemoveListener` | libcore/src/util/ListenerProvider.hpp:188-205 | the last listener takes the place of the removed one, and the index stays the exact inverse |
| `ListenerProviders.WithoutRemovesOne` | libcore/src/util/ListenerProvider.hpp:193-198 | removal takes away that listener and no other |
| `ListenerProviders.Provider.Notify` | libcore/src/util/ListenerProvider.hpp:63-69 | however callbacks add listeners and remove themselves, each initially present listener is called exactly once, last added first, and no other |
| `ListenerProviders.OthersStay` | libcore/src/util/ListenerProvider.hpp:58-62 | of the other listeners, exactly those are there after a callback that were there or that it added |
| `ListenerProviders.SelfLeaves` | libcore/src/util/ListenerProvider.hpp:188-205 | a listener that removes itself is gone |

## Left out

- Boost.Asio, DNS, socket errors, logging and freeing of memory: sends and receives are transfers of any positive size up to what was offered, and error branches are not modelled.
- `ThreadSafeQueue` and `AtomicValue`: push, pop, swap and each arithmetic operation are taken as atomic steps.
- Choice of socket and dropping of unreliable packets in `sendBytesNow`: a send names its socket, and every frame is reliable.
- Both sides closing one stream, substreams refused by the application, and reuse of a freed id by the side that did not close: no clean guarantee exists in the code for these.
- A connect that fails while requests wait (phase DISCONNECTED): `PreConnection` covers connects that succeed.
- The error argument of `checkHeaderContents`, which the code ignores: a header arrives whole or the socket counts as unreachable.
- Wrap-around of `startbyte() + length()` past 2^64: range ends are unbounded, except in `RangeText`, which is stated for ends below 2^64.
- CacheMaps.AdmissionLimit: the fraction is a real number where the code has a float, so rounding in the comparison is not modelled.
- MemoryCaches.Run: stated for truthful pieces, slices of the file whose end-of-file flag is right; what a cache makes of a lying source is not described.
- `SparseData::flatten`, `DiskCacheLayer` beyond its range lists, `NetworkCacheLayer`, HTTP, `EventTransferManager`, and the forwarding of data to parent caches.
- EventManagers.EventManager.DoSubscribeId: takes a subscription id that is not in use and a node that is new, as the allocation in `SubscriptionIdClass` and `std::list` provide; listeners that subscribe or unsubscribe from inside a call do so through the request queue, so that their requests are later operations of the run.
- EventWakeup.NoLostWakeup: before clean-up, with one event thread, and with the 32-bit counter as an unbounded integer.
- ListenerProviders.Provider.Notify: the hooks `listenerAdded`, `listenerRemoved`, `firstListenerAdded` and `lastListenerRemoved` do nothing, as in the class itself, and the number of listeners fits 32 bits.
- `LockFreeQueue`: disabled in the source (libcore/src/task/EventManager.hpp:66), and its reuse of nodes needs a model of memory reclamation.
- `TimerQueue` and `RoundRobinScheduler`: declarations without a finished implementation.
- `DependencyTask`: runs tasks through events on ids that may have no listener, where the event manager drops the event.
- Quaternions, matrices, locations and bounding volumes: floating-point geometry, whose laws hold only up to rounding.
- `URI`, options, plug-ins, proxies and start-up code: string handling and wiring around the components modelled here, with no state shared between threads or calls.
