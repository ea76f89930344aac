# minapp: verification of the session core

minapp is a C++ framework for network sessions on top of Boost.Asio. This project models its five
hardest parts and proves what they promise:

* **Stream framing** (`session::read*` over `triple_buffer`). A byte stream that arrives in pieces of
  any size is cut into frames under thirteen protocols and four options. `Framing.Frames` says what a
  stream means as a function of the whole stream; `SessionRead.Session` is the code, on a buffer that
  is changed in place, and its invariant ties it to that function after every socket read. The
  invariant also keeps, for every call ever made, where in the stream it comes from
  (`Tracing.Traced`), so that frames cut by arrival are covered too.
* **SOCKS5 conversation** (`test/socks5.cpp`). A resumable parser that works only by switching the
  session's protocol between frames, proved against the message formats of RFC 1928 (sections 3 and
  4) and RFC 1929 (section 2), in both directions.
* **Session lifecycle and write queue** (`close`, `connect`, `write`, `persistent_buffer_manager`).
  Every atomic operation on the status and every locked section of the queue is one step of one of
  any number of threads; the theorems are about every interleaving.
* **`object` and `object::atomic`**. Reference counts, and a cell that hides a lock and a mark for
  waiters in two pointer bits. Again every atomic operation is a step.
* **`attribute_set::foreach` and `servlets::id`**. Iteration that drops its lock around every
  callback, and keys that can be undone.

## How the model is built

Boost.Asio appears through its contracts: `async_read` delivers exactly the bytes asked for, in one
or more pieces; `async_read_some` delivers one non-empty piece; `async_read_until` on a
DynamicBuffer_v2 searches, grows, reads a piece, shrinks to it and searches on, never beyond
`max_size()`. How much room it makes depends on the capacity of a vector, so it is any amount
(`SessionRead.Session.Scan`). `std::size_t`, `std::uintmax_t` and pointers have 64 bits. The size of
the read buffer is at least 1 and at most `PTRDIFF_MAX`, the largest size of a `std::vector<char>`.
The flag that `read_prefix` hides in its argument (`size_msb`) is a parameter `isVar`.

A handler is a deterministic function of all its calls so far: how much it consumes from the front of
the buffer, and which settings it leaves or whether it closes the session. The calls of
`buffer::consume` inside one handler call are one number, their total. An `assert` of the original
is an outcome of its own (`Aborted`).

The concurrent parts are sequentially consistent step relations. The session's steps and the class
`BufferManager.PersistentBufferManager` share one queue, `WriteQueue.Queue`: the class is proved to do
on bytes in nodes what the steps do on buffers. A call made inside a handler runs as
the call of a further thread while the outer one stands still, so it is one of the interleavings.
Where the library has no `std::atomic::wait`, a waiting thread spins; in the model that is a blocked
thread that keeps waking up for no reason. Fields marked as records in the comments (who owns what,
what was sent, how often) are not looked at by any step of the program.

## Where the code and its promises differ

* The length check of `read_prefix` adds in 64 bits. It accepts what does not fit exactly for a plain
  eight-byte prefix that announces 2^64 - 8 or more, with a sum that wraps to at most the limit
  (`ReadTheorems.CheckWrapsExactly`). The assertion of `read_fixed` then fails, but for one case: a
  session that has to ask for such a prefix with a read buffer of less than eight bytes refuses it
  unread (`Refusals.RefusalDependsOnBuffering`). Framing theorems hold outside this range, which is
  modelled, not excluded.
* The error a refused stream is given is a function of the bytes received, whatever pieces they came in
  (`ReadTheorems.ErrorOfTheStream`). It is not a function of the bytes sent. A prefix longer than the
  read buffer, fixed or varint, is refused with `message_size` before it is complete if it has to be
  asked for; if all of it is buffered already and it is wrong in itself (too long for a number, smaller
  than itself, or of a size that wraps), that is what the session says. Exactly then two sessions that
  refuse the same stream give different errors (`Refusals.ErrorsDifferExactly`); `Refusals.TwoErrors`
  shows two that do.
* `buffer::consume` keeps the current segment on the same bytes exactly when it is not called with
  0 < n < begin (`Buffers.ConsumeTracksSegment`).
* `session::connect` stores `connected` over any status. `handler::close` runs once for each time
  the session became closed, so exactly once if and only if that store never hit a closed session
  (`SessionRuns.CloseRunsOnce`, `SessionRuns.ClosedTwice`). The store can also strand output, without
  any failed write (`SessionRuns.StrandedByConnect`): output is stranded exactly by such a store while it
  waits and nobody sees to it, or by a `mark()` that after such a store finds what a failed write has
  left (`SessionRuns.StrandsExactly`). With such a leftover a graceful close may find nobody to end it
  (`SessionRuns.HangsInClosing`).
* `session::write()` calls `mark()` and looks at the status in two steps. A graceful close drains the
  queue if and only if, when closing begins, nothing is queued or no thread stands between these two
  (`SessionRuns.DrainsExactly`): otherwise four more steps lose what is queued. It follows that every
  run in which closing begins like that drains (`SessionRuns.GracefulCloseDrains`), in particular when
  calls and callbacks run one at a time (`SessionRuns.SerialCloseDrains`). `SessionRuns.DrainRace` is
  a run from the start that loses a list.
* `object::atomic::set` is for the holder of the lock. Used without it the lock survives
  (`AtomicMisuse.AnySetKeepsTheLock`), and so does everything else exactly if no thread goes by the
  pointer of the cell at that moment, in particular if the cell is not locked, or the same pointer is
  stored (`AtomicMisuse.SetIsSafeExactly`). Between the lock and the exchange of any operation the
  counts go wrong exactly if another pointer is stored (`AtomicMisuse.SetNeedsTheLock`,
  `AtomicMisuse.MisuseIsReached`).
* `attribute_set::foreach` counts the callbacks that returned true, not all that ran.

## Files

| file | contents |
|---|---|
| `Bits.dfy`, `Slices.dfy`, `Wrappers.dfy` | 64-bit shifts and ors as sums; pieces of sequences; values that may be missing |
| `Runs.dfy` | runs of any system of threads, and what is kept over them |
| `PrefixCodec.dfy` | length prefixes, decoded and encoded |
| `Framing.dfy`, `Trace.dfy`, `Messages.dfy`, `Formats.dfy` | the frame function; where calls come from in the stream; the sending side and round trips; the protocols byte by byte |
| `TripleBuffer.dfy`, `SessionRead.dfy`, `ReadTheorems.dfy`, `Refusals.dfy` | the read buffer, the read side, what its invariant means, which error a refused stream is given |
| `Socks5.dfy` | the SOCKS5 client side |
| `WriteQueue.dfy`, `BufferNodes.dfy`, `BufferManager.dfy` | the write queue, its nodes, the buffer manager |
| `SessionSteps.dfy`, `SessionRuns.dfy`, `SessionCalls.dfy` | lifecycle and output as steps of threads, the theorems about runs, and what one undisturbed call does |
| `AtomicSteps.dfy`, `AtomicWaiters.dfy`, `AtomicCounts.dfy`, `AtomicDeletion.dfy`, `AtomicHistory.dfy`, `AtomicRuns.dfy`, `AtomicMisuse.dfy`, `AtomicCalls.dfy` | objects and atomic cells as steps of threads: lock, wakeups, counts, deletion, effects of operations, theorems about runs, set() without the lock, what one undisturbed call does |
| `AttributeSet.dfy`, `Servlets.dfy` | the ordered set and its iteration; keys of servlets |

`dafny verify dfyconfig.toml` checks everything.

## Model

| member | source | states |
|---|---|---|
| `PrefixCodec.Decode` | src/session.cpp:647-675 | the shift-and-or loops compute the base-256 or base-128 positional sum of the prefix, in both byte orders, and it fits 64 bits |
| `PrefixCodec.OrNextDigit` | src/session.cpp:651-673 | one turn of a loop: no bit is shifted out, none is shared by the or, so it adds the next digit in its place |
| `PrefixCodec.ValueBound` | src/session.cpp:647-675 | a prefix of n digits is below the n-th power of its base |
| `PrefixCodec.FixedRoundTrip` | src/session.cpp:656-673 | decoding inverts encoding for every value below 2^(8 len) in both byte orders |
| `PrefixCodec.VarRoundTrip` | src/session.cpp:617-675 | a varint, minimal or padded, ends at its last byte whatever follows and decodes to its value |
| `PrefixCodec.VarReachesEveryValue` | src/session.cpp:641-675 | every value below 2^63 has a varint of at most nine bytes, which is accepted and decodes to it |
| `PrefixCodec.LittleEndianIsProtocolBuffers` | src/session.cpp:649-655 | the little-endian varint is the unsigned varint of Protocol Buffers |
| `PrefixCodec.VarLengthExtend` | src/session.cpp:617-623 | where a varint ends does not depend on what is buffered behind it |
| `Buffers.ConsumeTracksSegment` | include/minapp/buffer.hpp:147-166 | consume keeps the segment on the same bytes if and only if n is 0 or at least its begin |
| `Buffers.TripleBuffer.PrepareOutput` | include/minapp/buffer.hpp:65-70 | the output region becomes n bytes, both inputs stay |
| `Buffers.TripleBuffer.ShrinkOutput` | include/minapp/buffer.hpp:77-81 | the output region loses at most itself |
| `Buffers.TripleBuffer.CommitToInternal` | include/minapp/buffer.hpp:88-91 | output bytes become internal input, no more than there are |
| `Buffers.TripleBuffer.CommitWholeInternal` | include/minapp/buffer.hpp:99-103 | all internal input becomes external |
| `Buffers.TripleBuffer.CommitToExternal` | include/minapp/buffer.hpp:110-115 | internal input becomes external, no more than there is |
| `Buffers.TripleBuffer.ConsumeFromExternal` | include/minapp/buffer.hpp:117-122 | bytes leave the front of the external input |
| `Buffers.TripleBuffer.MarkExternal` | include/minapp/buffer.hpp:130-133 | the segment becomes the whole external input |
| `Buffers.TripleBuffer.MoveToNewSegment` | include/minapp/buffer.hpp:135-138 | the segment becomes what is external beyond the old segment's size |
| `Buffers.TripleBuffer.Consume` | include/minapp/buffer.hpp:147-166 | consumption and what it makes of the segment, in all three cases |
| `Framing.CutStable` | src/session.cpp:443-694 | a decision about the front of a stream, frame or rejection, is never changed by more input |
| `Framing.FramesSplit` | src/session.cpp:443-694 | reading a stream in two parts is reading it at once, for every handler and every split |
| `Framing.FramesRest` | src/session.cpp:443-694 | what is left waiting holds no further frame |
| `SessionRead.PartialSearch` | src/session.cpp:593-607 | the search of async_read_until over the adaptor: the first match, or where one may still begin |
| `SessionRead.PrefixLength` | src/session.cpp:612-623 | the varint scan and its resumption find the first byte with a clear top bit, and say whether it is missing |
| `SessionRead.Session.Read` | src/session.cpp:443-511 | the dispatch, with termination of the synchronous re-entry, keeps the invariant; for protocol::any all that is there is handed on at once, else one piece is waited for |
| `SessionRead.Session.BeginFrame` | src/session.cpp:445-451 | consumption and mark at the start of a frame |
| `SessionRead.Session.ReadSome` | src/session.cpp:513-535 | bytes already there are handed over, all that the read buffer size allows, else a read of one piece starts |
| `SessionRead.Session.ReadFixed` | src/session.cpp:537-560 | a frame of the announced size, from the buffer or from the socket; the assertion holds unless the sum wrapped |
| `SessionRead.Session.ReadDelim` | src/session.cpp:569-608 | an empty delimiter reads anything; else the search starts at the unread input |
| `SessionRead.Session.Scan` | src/session.cpp:93-144 | one turn of async_read_until on the adaptor: found, out of room, or room for more |
| `SessionRead.Session.ReadPrefix` | src/session.cpp:610-646 | the prefix is completed, refused or decoded; which, where its length or a wrap decides |
| `SessionRead.Session.AskForPrefix` | src/session.cpp:623-640 | an incomplete prefix is refused if it can never fit, else exactly its missing bytes are read |
| `SessionRead.CheckSize` | src/session.cpp:677-685 | the two size checks in 64-bit arithmetic, against the acceptance the frame function means, wrap included |
| `SessionRead.Session.Announce` | src/session.cpp:677-693 | a complete prefix is refused, or its payload read; a size that wraps ends in the failed assertion |
| `SessionRead.Session.ReadPayload` | src/session.cpp:688-691 | the prefix is passed, into the segment or not, and read_fixed goes on |
| `SessionRead.Session.HandOver` | src/session.cpp:543-546 | handing over makes the frame function's next step, and the next read begins behind this frame |
| `SessionRead.Session.RunHandler` | src/session.cpp:543-545 | the handler gets exactly the bytes made external since the mark and the whole external input; what it consumes and sets takes effect |
| `SessionRead.Session.Check` | src/session.cpp:327-337 | an error starts closing, and only for input the frame function rejects |
| `SessionRead.Session.Deliver` | src/session.cpp:525-607 | one socket read of any admissible size keeps the invariant and adds exactly its bytes |
| `SessionRead.Session.OnUntil` | src/session.cpp:93-144 | grow, read some, shrink: the room not used is given back |
| `SessionRead.Session.OnSome` | src/session.cpp:525-533 | a piece of an async_read_some is handed over as it came, behind what the buffer keeps |
| `SessionRead.Session.OnExactly` | src/session.cpp:548-558 | a piece of an async_read: more of it is awaited, or the frame is handed over or the prefix looked at again |
| `SessionRead.Session.Posted` | src/session.cpp:575-591 | the callback of async_read_until: commit, hand over, pass over an ignored delimiter |
| `SessionRead.Session.Fail` | src/session.cpp:527-577 | an operation that fails ends reading without a further call, be it the empty read posted when a delimiter is buffered already |
| `ReadTheorems.Faithful` | src/session.cpp:443-694 | a waiting session has made exactly the calls of the frame function on all it received, and stands where that says |
| `ReadTheorems.ChunkingIsIrrelevant` | src/session.cpp:443-694 | two sessions that received the same bytes in different pieces made the same calls, agree on rejection and gave the same error |
| `ReadTheorems.ErrorOfTheStream` | src/session.cpp:327-337 | the error of a session that refused, or its failed assertion, is the verdict on what the frame function leaves unread of all it received |
| `ReadTheorems.ErrorsClose` | src/session.cpp:327-337 | a session that refused the stream or whose socket failed is closing |
| `ReadTheorems.NothingIsLost` | include/minapp/buffer.hpp:59-138 | consumed, external, internal and valid output bytes are together what was received, in order |
| `ReadTheorems.CallsComeFromTheStream` | src/session.cpp:443-694 | for every handler and protocol, any included, across all switches: frames follow on each other from the first byte; segment and whole buffer are named pieces of what was received; the gaps are exactly the ignored protocol bytes |
| `ReadTheorems.SegmentsAreTheStream` | include/minapp/buffer.hpp:130-145 | without ignored bytes the segments concatenate to the handed-over prefix of the stream, and the whole buffer is what of it was not consumed |
| `ReadTheorems.WholeIsAllSegments` | include/minapp/buffer.hpp:130-145 | with the buffer kept and nothing consumed, the whole buffer is the concatenation of all segments so far, under every protocol |
| `Tracing.TracedExtends` | src/session.cpp:525-591 | a further call at the place the last one leads to keeps the trace |
| `Tracing.TracedGrows` | src/session.cpp:443-694 | bytes received later change nothing of where calls came from |
| `Tracing.GapsAreProtocolBytes` | src/session.cpp:586-589 | what a frame leaves out of its segment is a length prefix in front or a delimiter behind, and only if ignored |
| `Tracing.SegmentsJoin` | include/minapp/buffer.hpp:130-138 | frames without gaps have segments that join to the stream |
| `ReadTheorems.StorageIsBounded` | src/session.cpp:513-694 | with consumption and one configuration the storage never exceeds the read buffer size |
| `ReadTheorems.VarintAsksForOneByte` | src/session.cpp:623-640 | a varint is asked for byte by byte, never past its end |
| `ReadTheorems.AsksForTheRest` | src/session.cpp:537-560 | an async_read for a frame asks for exactly what is missing of it |
| `ReadTheorems.CheckWrapsExactly` | src/session.cpp:677-685 | the length test is the mathematical one, but for a named range of eight-byte prefixes, both directions |
| `Refusals.RefusalDependsOnBuffering` | src/session.cpp:537-691 | for every prefix that is not accepted, buffered in part or whole and completed in any pieces: message_size if it has to be asked for and is longer than the read buffer, else the verdict on all of it, a wrapping size failing the assertion |
| `Refusals.ErrorsDifferExactly` | src/session.cpp:612-685 | two sessions that refuse the same stream, one having received more: their errors differ if and only if one had to ask for the prefix, which cannot fit, and the other has all of it and it is wrong in itself |
| `Refusals.VerdictsAgree` | src/session.cpp:612-685 | the same for the verdicts on one frame with less and with more input |
| `Refusals.FlawedVerdict` | src/session.cpp:642-680 | a refused complete prefix is given another error than message_size if and only if it is too long, smaller than itself or of a wrapping size |
| `Refusals.ErrorsOneByOne` | src/session.cpp:641-686 | for a complete prefix: value_too_large if and only if it is a varint of ten bytes or more, bad_message if and only if it counts itself and says less, message_size if and only if the frame does not fit, the wrap apart |
| `Refusals.IncompleteIsTooBig` | src/session.cpp:623-640 | an incomplete prefix of 1, 2, 4 or 8 bytes, or of one byte more than there are, is refused if and only if it is longer than the read buffer |
| `Refusals.TenBytesAreTooLong` | src/session.cpp:641-644 | nine bytes with the top bit set make a varint too long |
| `Refusals.TwoErrors` | src/session.cpp:623-680 | two sessions at the same stream, one given bad_message and the other message_size |
| `ReadTheorems.Feed` | src/session.cpp:443-694 | a stream fed in pieces of any sizes gives the calls of the frame function |
| `Messages.CutOfMessage` | src/session.cpp:537-694 | an encoded message at the front of a stream is cut exactly, whatever follows |
| `Messages.MessagesArrive` | src/session.cpp:443-694 | round trip: messages encoded under the settings in force when they arrive are handed over one by one, under every fixed, delimiter and prefix protocol and option, the handler switching them at will |
| `Formats.FirstCall` | src/session.cpp:443-694 | the first call of a session, under every framed protocol, hands over the segment of the first frame of what it received |
| `Formats.Prefix8Frame` | src/session.cpp:488-490 | one byte of prefix and as many bytes of payload are a frame, the prefix counting itself or being left out as the options say |
| `Formats.Prefix16Frame` | src/session.cpp:492-494 | the same for two bytes a, b worth 256a + b, or a + 256b in little endian |
| `Formats.Prefix32Frame` | src/session.cpp:496-498 | the same for four bytes |
| `Formats.Prefix64Frame` | src/session.cpp:500-502 | the same for eight bytes |
| `Formats.ShortVarFrame` | src/session.cpp:504-506 | the same for a varint of one byte below 128 |
| `Formats.LongVarFrame` | src/session.cpp:617-673 | the same for a varint of two bytes, seven bits each, in both orders |
| `Formats.LineFrame` | src/session.cpp:472-482 | a frame is all up to the first byte 0, 13 or 10, which is left out as the options say |
| `Formats.CrLfFrame` | src/session.cpp:484-486 | the same for 13 followed by 10 |
| `Formats.AnyDelimFrame` | src/session.cpp:468-470 | the same for any delimiter that is set |
| `Formats.FixedFrame` | src/session.cpp:464-466 | frames of exactly the read buffer size |
| `Formats.PrefixRefused` | src/session.cpp:676-685 | a complete prefix is refused that announces more than the read buffer holds or less than itself |
| `Formats.DelimMissing` | src/session.cpp:569-608 | without a delimiter within the read buffer size a stream is refused, and waited for before that |
| `Socks5.Conversation.Read` | test/socks5.cpp:83-281 | one resumption of the coroutine: position, settings, replies, login and target |
| `Socks5.FramesConverse` | test/socks5.cpp:83-281 | the coroutine on the session's frames is the conversation on the stream |
| `Socks5.RoundTrip` | test/socks5.cpp:83-281 | for every client, the method, login, target and port are the client's and exactly its bytes are taken |
| `Socks5.AnyChunking` | test/socks5.cpp:83-281 | the same for a session that received the bytes in any pieces |
| `Socks5.OnlyClients` | test/socks5.cpp:154-281 | a stream that leads to a target begins with the bytes of a client that asks for it |
| `Socks5.V4InFull` | test/socks5.cpp:150-255 | byte by byte: version, methods, request and IPv4 address lead to that address and port, with reply 5 0 |
| `Socks5.V6InFull` | test/socks5.cpp:257-265 | the same for an IPv6 address |
| `Socks5.DomainInFull` | test/socks5.cpp:150-281 | the same with user name, password and a domain name, with replies 5 2 and 1 0 |
| `Socks5.RefusalInFull` | test/socks5.cpp:214-228 | without method 0 or 2 the reply is 5 255 and the conversation is over |
| `Socks5.SettingsAsked` | test/socks5.cpp:150-273 | whatever is sent, the settings at each yield are those the coroutine names there |
| `Socks5.NeverReadsOutside` | test/socks5.cpp:94-147 | the casts over the buffer never reach beyond the bytes handed over |
| `WriteQueue.MarkSign` | include/minapp/persistent_buffer_manager.hpp:77-85 | the sign of mark(): positive iff this caller took the batch, negative iff one is taken, zero iff nothing is there, across the wrap |
| `WriteQueue.MarkersDiffer` | include/minapp/persistent_buffer_manager.hpp:84-84 | consecutive markers differ, also at the largest long |
| `BufferNodes.NodesConserved` | include/minapp/persistent_buffer_manager.hpp:27-156 | in every interleaving each node is in one place and one list; reserve nodes never go to the pool, pool nodes never into the cache |
| `BufferNodes.DestroyedOnce` | include/minapp/persistent_buffer_manager.hpp:100-110 | the destructor destroys every live node exactly once and nothing else |
| `BufferManager.CacheRefills` | include/minapp/persistent_buffer_manager.hpp:142-149 | with nothing queued the cache holds the whole reserve again |
| `BufferManager.PersistentBufferManager.constructor` | include/minapp/persistent_buffer_manager.hpp:27-35 | the reserve is cached, the queue empty |
| `BufferManager.PersistentBufferManager.HoldBuffer` | include/minapp/persistent_buffer_manager.hpp:113-140 | a copy in a node of the cache, or of the pool when the cache is empty; nothing queued changes |
| `BufferManager.PersistentBufferManager.Splice` | include/minapp/persistent_buffer_manager.hpp:68-69 | the copies of one call go behind all that waits, in one piece |
| `BufferManager.PersistentBufferManager.Manage` | include/minapp/persistent_buffer_manager.hpp:42-70 | manage() is Manage of the queue of bytes; cached nodes are used first |
| `BufferManager.PersistentBufferManager.MarkBatch` | include/minapp/persistent_buffer_manager.hpp:77-85 | mark() is Mark of the queue of bytes |
| `BufferManager.PersistentBufferManager.FreeBuffer` | include/minapp/persistent_buffer_manager.hpp:142-156 | a node goes back where it came from |
| `BufferManager.PersistentBufferManager.ClearMarked` | include/minapp/persistent_buffer_manager.hpp:92-98 | clear_marked() is Clear of the queue of bytes |
| `SessionSteps.OneOwnerKept` | src/session.cpp:416-441 | every step keeps a marked batch with exactly one owner |
| `SessionSteps.InOrderKept` | include/minapp/persistent_buffer_manager.hpp:42-98 | every step keeps the output a sequence of whole calls |
| `SessionSteps.NoListLostKept` | src/session.cpp:409-414 | every step keeps each list that write() was called with queued, turned away by a closing or closed session, or in the hands of its caller |
| `SessionSteps.ToldKept` | src/session.cpp:434-438 | every step keeps the batches reported to the handler those sent |
| `SessionSteps.StatusRises` | src/session.cpp:297-320 | the status only rises, but for the stores of connected after reading and after connecting |
| `SessionSteps.ClosesCountedKept` | src/session.cpp:297-320 | every step keeps one run of handler::close per store of closed, spurious failures of compare-and-swap included |
| `SessionSteps.FailureClosesKept` | src/session.cpp:429-432 | after a failed write the thread that saw it closes the session |
| `SessionSteps.NothingStrandedKept` | src/session.cpp:409-441 | every step leaves somebody to look at a non-empty managed list |
| `SessionSteps.ClosingEndsKept` | src/session.cpp:297-320 | every step leaves somebody to end a closing session |
| `SessionSteps.DrainedKept` | src/session.cpp:416-424 | once closing has begun, every benign step lets only those close the session who find its promise kept |
| `SessionRuns.OutputOrder` | include/minapp/persistent_buffer_manager.hpp:42-98 | over all interleavings sent, marked and managed are the lists of all manage() calls in splice order, batches being whole calls |
| `SessionRuns.EveryListIsKept` | src/session.cpp:409-414 | over all interleavings the lists offered to write() are, as multisets, those queued, those turned away and those of callers on their way; only a closing or closed session turns one away |
| `SessionRuns.OneWriteOutstanding` | src/session.cpp:416-441 | at most one async_write is outstanding, and then nobody starts or finishes another |
| `SessionRuns.NoStrandedOutput` | src/session.cpp:409-441 | waiting output implies an outstanding write, an unfinished completion, a caller before mark() or an error path about to close |
| `SessionRuns.QuietMeansDone` | src/session.cpp:297-441 | with all threads out and no write outstanding, an open session has sent every list it did not turn away unless connect stored over closed, and one hangs in closing only with a batch left by a failed write after such a store |
| `SessionRuns.CloseRuns` | src/session.cpp:297-320 | runs of handler::close, begun or finished, counted exactly over all interleavings; wins of close(false) bounded |
| `SessionRuns.CloseRunsOnce` | src/session.cpp:390-407 | handler::close has run exactly once if and only if connect never stored over closed |
| `SessionRuns.ClosedTwice` | src/session.cpp:401-401 | a run in which it runs twice |
| `SessionRuns.StrandsExactly` | src/session.cpp:399-441 | in every reachable state a step strands waiting output if and only if connect stores over closed while nobody sees to it, or the last thread to look finds marked what a failed write left; neither without such a store |
| `SessionRuns.StrandedByConnect` | src/session.cpp:401-416 | for every list, a run without a failed write that strands it |
| `SessionRuns.HangsInClosing` | src/session.cpp:401-424 | a run after which every thread is out and the session is still closing |
| `SessionRuns.DrainsExactly` | src/session.cpp:297-424 | after every benign run to the point where closing begins: every benign continuation that closes the session has sent all that was queued, if and only if nothing is queued or no thread stands between mark() and the look at the status |
| `SessionRuns.UnsettledLoses` | src/session.cpp:419-423 | from every other state four steps of two threads close the session with the queue unsent |
| `SessionRuns.GracefulCloseDrains` | src/session.cpp:297-337 | so a session has sent all that was queued before closing began, in every run where it began like that, whoever began it |
| `SessionRuns.SerialCloseDrains` | src/session.cpp:297-337 | so it is whenever calls and callbacks run one at a time |
| `SessionRuns.DrainRace` | src/session.cpp:419-423 | for every list, a run from the start in which closing begins between mark() and the look at the status, and the list is lost |
| `SessionCalls.WriteIsTaken` | src/session.cpp:409-414 | write(list) undisturbed: a connecting, connected or reading session takes the whole list behind all that waits, a closing or closed one turns it away |
| `SessionCalls.WriteIsPending` | src/session.cpp:409-414 | what is to be sent grows by exactly the list |
| `SessionCalls.WriteIsStarted` | src/session.cpp:416-427 | write() undisturbed: all that waits becomes the batch and its write starts |
| `SessionCalls.WriteStartsNothing` | src/session.cpp:418-425 | with a batch out, nothing waiting or the session closed it starts nothing; a closing session with nothing to send is closed |
| `SessionCalls.CloseNowCloses` | src/session.cpp:297-312 | close(true) undisturbed closes and runs handler::close, unless closed already |
| `SessionCalls.CloseGentlyBegins` | src/session.cpp:297-320 | close(false) undisturbed begins closing and goes on to write(), unless closing already |
| `SessionCalls.DoneIsReported` | src/session.cpp:434-438 | a complete write is reported with its batch, cleared, and followed by write() |
| `SessionCalls.FailureIsClosing` | src/session.cpp:429-432 | a failed write reports nothing as sent and closes the session |
| `AtomicSteps.PackRoundTrip` | include/minapp/object.hpp:364-374 | pointer, lock bit and waiting bit share a word and can be told apart |
| `AtomicSteps.GuardedKept` | include/minapp/object.hpp:376-412 | every step keeps the lock with at most one thread, the pointer still under it, and the history of a cell linear |
| `AtomicWaiters.ServedKept` | include/minapp/object.hpp:389-411 | every step keeps the waiting bit set or a wakeup due while a thread sleeps |
| `AtomicCounts.CountedKept` | include/minapp/object.hpp:88-99 | every step keeps the count of a holder equal to the objects and cells that own it, the lock holder borrowing the cell's reference |
| `AtomicCounts.ProvidedKept` | include/minapp/object.hpp:454-504 | every step leaves a call the objects it still has to store or destroy |
| `AtomicDeletion.DeletedKept` | include/minapp/object.hpp:251-255 | every step keeps a count of 0 the sign of one deletion, done or begun |
| `AtomicRuns.NeverTerminates` | include/minapp/object.hpp:398-399 | no interleaving reaches std::terminate() |
| `AtomicRuns.LockExclusive` | include/minapp/object.hpp:376-412 | at most one owner; never both bits; a bit is set if and only if there is an owner |
| `AtomicRuns.NoLostWakeup` | include/minapp/object.hpp:389-411 | for a sleeping thread, another one has the lock with the waiting bit set or is about to notify |
| `AtomicRuns.CellIsRegister` | include/minapp/object.hpp:454-504 | in every interleaving a cell behaves as a plain register of handles |
| `AtomicRuns.EffectOfOperation` | include/minapp/object.hpp:454-504 | load, store, exchange and compare_exchange take effect at their exchange, answer what the register held, and leave the caller the references that go with it; a failed compare_exchange leaves what it saw in place of the expected handle |
| `AtomicCalls.LoadAlone` | include/minapp/object.hpp:454-461 | load() undisturbed on a free cell leaves it as it was and adds a reference for the caller |
| `AtomicCalls.StoreAlone` | include/minapp/object.hpp:449-452 | store(d) puts d in, and the old reference goes, with the holder if it was the last |
| `AtomicCalls.ExchangeAlone` | include/minapp/object.hpp:463-469 | exchange(d) puts d in and hands the old reference to the caller |
| `AtomicCalls.CasSucceedsAlone` | include/minapp/object.hpp:485-496 | compare_exchange that finds what it expects puts the desired object in, and the old reference goes |
| `AtomicCalls.CasFailsAlone` | include/minapp/object.hpp:497-503 | one that finds something else leaves the cell, and the caller has what it saw in place of what it expected |
| `AtomicCalls.LockAlone` | include/minapp/object.hpp:540-543 | lock() undisturbed on a free cell takes the lock and leaves the pointer |
| `AtomicCalls.TryLockAlone` | include/minapp/object.hpp:533-538 | try_lock() takes the lock of a free cell and changes nothing of any other |
| `AtomicCalls.UnlockAlone` | include/minapp/object.hpp:545-549 | unlock() frees the cell, and wakes exactly those that sleep on it if the word says that somebody waits |
| `AtomicCalls.ContendedSleeps` | include/minapp/object.hpp:376-401 | a thread that finds the cell locked sets the waiting bit and sleeps |
| `AtomicCalls.GetAlone` | include/minapp/object.hpp:551-557 | get() under the lock adds a reference for the caller |
| `AtomicCalls.SetAlone` | include/minapp/object.hpp:559-566 | set(d) under the lock exchanges, and keeps both bits |
| `AtomicCalls.CopyAndDestroy` | include/minapp/object.hpp:246-255 | a copy counts one more, a destructor one less, and the last one deletes |
| `AtomicRuns.EveryCallTakesEffectOnce` | include/minapp/object.hpp:443-566 | in every interleaving each call is logged once and answered once, the logs of all cells being the answers of all threads |
| `AtomicHistory.StepEffect` | include/minapp/object.hpp:376-566 | every step lets exactly one named operation take effect, or none |
| `AtomicHistory.AccountedKept` | include/minapp/object.hpp:443-566 | every step keeps one answer for each call but the one a thread is in |
| `AtomicHistory.BalancedKept` | include/minapp/object.hpp:443-566 | every step keeps logs and answers equal |
| `AtomicRuns.CountsAreExact` | include/minapp/object.hpp:88-99 | the count is the number of owners; an owned holder is not deleted; none is deleted twice |
| `AtomicRuns.NothingLeaks` | include/minapp/object.hpp:251-255 | a holder without owners is deleted or one thread is deleting it |
| `AtomicRuns.QuietIsClean` | include/minapp/object.hpp:362-567 | with all threads out, cells are unlocked and unowned holders deleted |
| `AtomicMisuse.AnySetKeepsTheLock` | include/minapp/object.hpp:559-566 | a set() by any thread leaves owner and bits of every cell as they have to be |
| `AtomicMisuse.SetIsSafeExactly` | include/minapp/object.hpp:559-566 | in every reachable state a set() without the lock keeps all invariants, and so does every continuation, if and only if no thread goes by the pointer of the cell or the pointer stays the same; so always on an unlocked cell |
| `AtomicMisuse.SetNeedsTheLock` | include/minapp/object.hpp:559-566 | after a set() between another thread's lock and exchange, for any operation, the counts match the owners if and only if the pointer stayed the same |
| `AtomicMisuse.UnlockNeedsTheLock` | include/minapp/object.hpp:545-549 | the same for a set() between the load and the exchange of unlock() |
| `AtomicMisuse.MisuseIsReached` | include/minapp/object.hpp:463-566 | a run from the start to a state where such a set() breaks the counts |
| `Attributes.RangeCut` | src/attribute_set.cpp:265-302 | where the loops start and break is the range asked for, prefix or interval with open or closed ends |
| `Attributes.RangeMeans` | src/attribute_set.cpp:265-302 | what a range is, end by end |
| `Attributes.LessIsLexicographic` | src/attribute_set.cpp:293-293 | the order of keys is that of the first byte in which they differ, a proper prefix coming first |
| `Attributes.BreakIsFinal` | src/attribute_set.cpp:273-302 | no key beyond a break is in range: strings with a prefix are contiguous |
| `Attributes.PrefixContiguous` | src/attribute_set.cpp:265-274 | past the strings with a prefix no further one follows |
| `Attributes.ApplyIsLocal` | src/attribute_set.cpp:120-235 | set, emplace, replace, remove and compute touch their own key only |
| `Attributes.ComputesCompose` | src/attribute_set.cpp:204-235 | two computes on a key are one compute of the composition: no update between them is lost, null standing for no entry |
| `Attributes.ComputesCommute` | src/attribute_set.cpp:204-235 | computes on different keys give the same set in either order |
| `Attributes.AttributeSet.SetValue` | src/attribute_set.cpp:147-163 | set: the key holds the new value, whatever was there, all others as before; and the value before |
| `Attributes.AttributeSet.EmplaceValue` | src/attribute_set.cpp:165-178 | emplace: a key that is there keeps its value, another gets the new one; and the value before |
| `Attributes.AttributeSet.ReplaceValue` | src/attribute_set.cpp:180-190 | replace: only a key that is there gets the new value; and the value before |
| `Attributes.AttributeSet.ReplaceExpected` | src/attribute_set.cpp:192-202 | replace only an expected value |
| `Attributes.AttributeSet.RemoveKey` | src/attribute_set.cpp:120-131 | remove: the key is gone, all others as before; and the value before |
| `Attributes.AttributeSet.RemoveExpected` | src/attribute_set.cpp:133-144 | remove only an expected value |
| `Attributes.AttributeSet.ComputeValue` | src/attribute_set.cpp:204-235 | compute on a present and on an absent key; the function runs exactly once, on the value there was |
| `Attributes.AttributeSet.Foreach` | src/attribute_set.cpp:237-315 | under any interference: keys ascend, each pair was there, no key of the range present throughout is missed, the result counts callbacks that returned true |
| `Attributes.VisitedOnce` | src/attribute_set.cpp:237-315 | no key is visited twice |
| `Attributes.QuietIsFilter` | src/attribute_set.cpp:237-315 | without interference the visits are the sorted map filtered by the range |
| `Servlets.MakeId` | include/minapp/servlets.hpp:46-89 | the loops build the key that Id describes |
| `Servlets.Strip` | include/minapp/servlets.hpp:48-68 | zeros are counted and stripped on the side where the null type has more |
| `Servlets.HexRoundTrip` | include/minapp/servlets.hpp:75-83 | the hex digits can be read back |
| `Servlets.HexAt` | include/minapp/servlets.hpp:75-83 | each byte is two digits of the table, the high one first |
| `Servlets.ZerosAreStripped` | include/minapp/servlets.hpp:48-68 | all zeros are taken off the back, or off the front where the null type begins with zeros and does not end with one |
| `Servlets.KeysInFull` | include/minapp/servlets.hpp:46-89 | two whole keys, one for each byte order of pointers, with and without an instance |
| `Servlets.StripPads` | include/minapp/servlets.hpp:54-68 | what was stripped can be put back |
| `Servlets.IdRoundTrip` | include/minapp/servlets.hpp:46-89 | type and instance can be read back from a key, also when the instance contains a colon |
| `Servlets.IdInjective` | include/minapp/servlets.hpp:46-89 | different servlets have different keys |
| `Servlets.ServletSet.Op` | include/minapp/servlets.hpp:171-213 | get, set, ret, add and del, one by one: when each answers the servlet there, the new one or an exception, and what it keeps, replaces, adds or removes |
| `Servlets.OthersUntouched` | include/minapp/servlets.hpp:171-213 | an operation on one servlet changes no other |
| `Servlets.RetCreatesOnce` | include/minapp/servlets.hpp:189-203 | ret creates a servlet once and then returns it |
| `Servlets.DelDeletesOnce` | include/minapp/servlets.hpp:185-189 | del answers the servlet and removes it, so a second del finds none |

## Left out

- Sockets, `io_context`, promises and futures, acceptors and connectors (src/service.cpp): plumbing, represented by the contracts above.
- Weak memory orders: steps are sequentially consistent, and the reset at the end of `clear_marked` is one step.
- The DynamicBuffer_v1 adaptor (src/session.cpp:40-89): not the one that is built.
- Where `protocol::any` and an empty delimiter cut the stream: that depends on arrival. That the calls are consecutive pieces of it does not (`ReadTheorems.CallsComeFromTheStream`).
- Handlers whose reaction depends on more than their calls, and changes to the settings from other threads while a read runs.
- Bytes received for an operation that then fails, or before a search that ends without a delimiter: the code does not commit them, so conservation is claimed before such errors only.
- `ReadTheorems.Faithful`: after an error of a search that has already found its delimiter the calls are only a beginning of those of the frame function, because the code drops that frame.
- "No read starts after closing": the continuation of a prefix does not look at the status, so the code does not promise it.
- `SessionRuns.NoStrandedOutput`: only while connect has not stored over a closed status. When output is stranded after such a store, `SessionRuns.StrandsExactly` says.
- Nested use of other cells or objects while a thread is between `lock()` and `unlock()` of a cell, use of `get` and `unlock` without the lock, and construction and destruction of cells.
- Overflow of a reference count: counts are unbounded.
- Reuse of the address of a deleted holder: every holder has its own name. A holder somebody expects or stores is alive, so this hides no comparison that could go wrong.
- What a destroyed value does in its destructor: it may release further objects as another thread would.
- Typed holders, casts, `fn`, `vec`, `ref`, `ptr`, and the wrappers `wait` and `notify_*` of `object::atomic`: C++ typing and thin wrappers.
- Fairness: a thread that spins or keeps losing a compare-and-swap is not promised to get through.
- Boost's intrusive containers and its pool: a sorted map, lists, and an allocator that returns an address not in use.
- `attribute_set` construction, `swap`, `get`, `contains` and typed access; `session_manager::foreach`: easy members, or the same loop on weak pointers.
- `servlets::get`, `set`, `ret`, `add`, `del` and `remove` called directly: the branches of `servlets::op`.
- The type check after `servlets::op` and the exception for a type mismatch: typing.
- In the SOCKS5 conversation: the relay after the target is known, name resolution, and the replies of the target's session. Exceptions that leave the handler end the conversation.
- `noexcept_handler`, hexdump, logging, bluetooth and endpoint parsing: easy members.
