# A model of the LightStep C++ tracer core, with proofs

The tracer turns finished spans into bytes and moves those bytes to a collector. This project models the parts of it in
which something can go wrong quietly, and proves what they promise.

**The streaming pipeline.** Producers put framed spans into a ring shared by any number of producer threads and one
consumer (`RingProtocol`, `RingProperties`, `RingCalls`, `RingProgress`, `RingRefusals`, `CircularBuffer`). A step of the ring is
one atomic operation; weak exchanges may fail spuriously. The consumer shares the ring among connections. Bytes are read through streams that remember
what is left of them: chains of blocks and lists of chains (`ChainedStream`, `InputStreams`), arrays of fragments, the buffered
spans (`SpanStreams`), and lists of streams consumed together (`Fragments`, `StreamLists`, `VectorWrite`). Each connection is a small
state machine over header, remnant, spans and terminator (`ConnectionStreams`); `FlushEffects` says what one flush does in bytes and in
counts, `Sessions` what holds over every run of any number of connections, and `SessionDecoding` what the collector reads in the end.

**The batch recorders.** `ReportProtocol` is the protocol of pending report, report in flight, sequence numbers and drop counts that
`AutoRecorder` (writer thread, unlocked send) and `LegacyManualRecorder` (callbacks, possibly inside the call to send) share.
`ManualProtocol` and `ManualRecorder` cover the recorder with a ring and any number of reports in flight. `StreamFlush` and
`StreamRecorder` cover flushing the streaming recorder. `ReportRequest` builds and copies out a report.

**The encoders.** `WireFormat` defines varints and fields and a parser for them; `CodedStreams`, `Serialization`, `KeyValues`,
`SpanSerialization` and `LogSerialization` are the size-then-write serializers over both kinds of stream. `SpanFraming` and `HttpChunks`
are the headers written backwards into reserved space, the chunked coding and the reading of a chunk header. `Hex`, `TraceContext`,
`CloudTrace` and `Base64` are the text encodings with their parsers.

How concurrency is modelled: a protocol is a state machine whose steps are atomic operations or critical sections, and a run is any
sequence of them. The classes hold the program's real fields next to a ghost copy of the protocol state, and every operation performs
the corresponding steps. Between two of them a method such as `Interfere` or `OthersRun` stands for the other threads: its body does
nothing, its contract says that some run of the other threads' steps took place, and a lemma named in its comment proves by induction
what every such run keeps. What the environment decides besides is a parameter: which weak exchanges fail spuriously, and what the
transporter answers, in the call or later. An iteration with a callback is modelled as a method that returns the fragments visited, over which
the caller loops.

Where code and comments differ the model follows the code: `Add` is described as returning whether the buffer was full, but it may
refuse although the ring was never full (`RingRefusals`); and a report's number of fragments does not include header and metrics, only
its number of bytes is exact.

## Model

| member | source | states |
|---|---|---|
| RingProtocol.PeekListsSlots | src/common/circular_buffer.h:148-159 | the two pieces of a peek are exactly the slots numbered tail..head-1, in order and across the wrap |
| RingProtocol.IndexIsRemainder | src/common/circular_buffer.h:148-159 | the slot index used throughout the proofs is the remainder modulo the capacity |
| RingProtocol.TakeIsPrefix | src/common/circular_buffer_range.h:66-75 | taking n elements of a two-piece range keeps its first n slots |
| RingProtocol.RoomToPublish | src/common/circular_buffer.h:70-100 | a producer whose head exchange succeeds still finds room, although tail and head were read earlier |
| RingProtocol.StepPreserves | src/common/circular_buffer.h:41-100 | every atomic operation of every thread, weak exchanges failing spuriously included, keeps the ring invariant: counters, slot contents, slot owners and the locals of every thread |
| RingProperties.RunPreserves | src/common/circular_buffer.h:41-100 | over every run head and tail only grow, and what was added or drained is never rewritten |
| RingProperties.FirstInFirstOut | src/common/circular_buffer.h:41-100 | over every run the elements taken by the consumer followed by those in the slots up to head are exactly those of the successful calls in the order of their head exchanges: none lost, duplicated or null |
| RingProperties.PeekListsBuffered | src/common/circular_buffer.h:148-159 | between two calls of the consumer a peek lists the buffered elements in order, none of them null |
| RingProperties.StepRefinesQueue | src/common/circular_buffer.h:41-100 | every atomic step refines an operation of a plain queue: a successful head exchange adds at the end, an advance of tail takes from the front, nothing else changes it |
| RingProperties.SizeBounded | src/common/circular_buffer.h:70-78 | in every reachable state 0 <= head - tail <= maximum size, despite stale reads |
| RingProperties.UniqueOwner | src/common/atomic_unique_ptr.h:37-68 | in every reachable state a slot is non-null iff it has an owner, which is either one published number or one producer that parked its element there, never both |
| RingProperties.ProducerKeepsElement | src/common/circular_buffer.h:81-97 | a failed head exchange swaps back the producer's own element however stale its head was; a refusal leaves the element with the caller, a success takes it away |
| RingRefusals.RefusalAtHeadRead | src/common/circular_buffer.h:72-78 | at the head read a full ring is always refused, and if tail has not moved since it was read only a full one is; a ring with room is refused iff the elements from the tail that was read up to head fill it while those from the present tail do not |
| RingRefusals.RefusedThoughNeverFull | src/common/circular_buffer.h:72-78 | without that condition it fails: a run of a ring for two elements in which an element is refused although there was room in every state |
| CircularBuffers.CircularBuffer.Add | src/common/circular_buffer.h:70-100 | with other threads running between any two operations, for any choice of spurious failures: each pass that is repeated failed spuriously, at an occupied slot or because head had moved, and only when all passes failed is the answer left open; true means the element was published exactly once, in place; false means nothing was published, the caller keeps the element, and the elements buffered at the call together with those added since fill the ring; when no other thread runs, what the call finds decides it; then the producer may call again |
| CircularBuffers.CircularBuffer.TryAdvanceHead | src/common/circular_buffer.h:83-92 | head advances exactly if it is as expected and the exchange does not fail spuriously |
| RingCalls.PublishedOncePerCall | src/common/circular_buffer.h:70-100 | over every run, between call and return every pass of a producer but the last one fails; the last one publishes its own element if the call returns true and is refused if it returns false |
| RingProgress.AloneCall | src/common/circular_buffer.h:70-100 | a call during which no other thread runs returns true exactly if there is room, the slot in front of head is free and one pass meets no spurious failure, and false exactly if there is no room; while that slot is occupied no number of passes suffices |
| RingProgress.OccupiedBy | src/common/circular_buffer.h:81-97 | with room, that slot is occupied only by a producer between its two exchanges, or while the consumer has advanced tail and not yet reset it |
| RingProgress.StalledProducer | src/common/circular_buffer.h:81-97 | so room alone does not let a call return: a reachable state with room in which a stopped producer occupies the slot |
| CircularBuffers.CircularBuffer.Consume | src/common/circular_buffer.h:41-47 | the consumer gets the oldest n elements in order while producers keep running |
| CircularBuffers.CircularBuffer.SwapIfNull | src/common/atomic_unique_ptr.h:37-47 | the slot takes the pointer exactly if it was null and the exchange does not fail spuriously; otherwise the caller keeps it |
| CircularBuffers.CircularBuffer.Swap | src/common/atomic_unique_ptr.h:53-55 | the unconditional exchange gives back the element the producer had parked |
| CircularBuffers.CircularBuffer.Reset | src/common/atomic_unique_ptr.h:61-63 | resetting a slot hands its content to the consumer and follows the protocol |
| Fragments.AfterDropsBytes | src/common/fragment_input_stream.cpp:17-36 | what is left of a fragment list after n bytes is its byte string without the first n bytes |
| Fragments.AfterComposes | src/common/fragment_input_stream.cpp:17-36 | successive relative repositionings compose |
| Fragments.StopAccounts | src/common/fragment_input_stream.cpp:17-36 | the walk over fragments stops exactly where n bytes are used up |
| Fragments.ConsumeAllDropsBytes | src/common/fragment_input_stream.cpp:17-36 | consuming a list of streams removes exactly the first n bytes of their concatenation |
| Fragments.ConsumeAllStops | src/common/fragment_input_stream.cpp:17-36 | streams in front of the stopping point are emptied, those behind it keep every fragment |
| Fragments.CountFitting | src/common/fragment_input_stream.cpp:20-30 | the callback loop finds the first fragment that does not fit and the offset into it |
| StreamLists.Consume | src/common/fragment_input_stream.cpp:17-36 | over any list of array streams and chains of chains, in place: exactly the first n bytes go, streams behind the stopping point are untouched, true iff n is at least the total |
| ChainedStreams.ChainedStream.Next | src/common/chained_stream.cpp:22-43 | hands out all space left or a new block; all blocks but the last stay full, the byte count is the sum of the block sizes, and bytes written before keep their place |
| ChainedStreams.ChainedStream.BackUp | src/common/chained_stream.cpp:48-54 | gives back exactly the last count bytes |
| ChainedStreams.ChainedStream.CloseOutput | src/common/chained_stream.cpp:14-17 | a closed chain that holds a byte reads back exactly what was written, in as many pieces as blocks; one closed empty is described separately |
| ChainedStreams.PiecesConcatenate | src/common/chained_stream.cpp:71-98 | when all blocks but the last are full the pieces concatenate to the addressed bytes |
| ChainedStreams.ChainedStream.SegmentNumFragments | src/common/chained_stream.cpp:59-66 | the count agrees with an iteration for every chain that holds a byte or is used up; for one closed empty it is zero |
| ChainedStreams.ChainedStream.SegmentForEachFragment | src/common/chained_stream.cpp:71-98 | an iteration visits exactly the remaining fragments; for a chain closed empty it still visits one |
| ChainedStreams.ChainedStream.SegmentSeek | src/common/chained_stream.cpp:116-131 | moving the cursor relative to where it is leaves exactly the fragments from the target on |
| ChainedStreams.ChainedStream.Append | src/common/composable_fragment_input_stream.cpp:9-20 | appending a list to a list keeps the order even though inner last pointers are stale and the argument is itself a list |
| InputStreams.ListSeek | src/common/composable_fragment_input_stream.cpp:64-77 | clears every chain in front of the target and repositions the one that holds it |
| InputStreams.ListClear | src/common/composable_fragment_input_stream.cpp:53-59 | nothing is left of any chain of the list |
| InputStreams.ListForEachFragment | src/common/composable_fragment_input_stream.cpp:38-48 | visits the remaining fragments of all chains in list order |
| InputStreams.ListNumFragments | src/common/composable_fragment_input_stream.cpp:25-33 | counts exactly those |
| InputStreams.FragmentArrayInputStream.Seek | src/common/fragment_array_input_stream.cpp:71-82 | relative repositioning of an array stream, first fragment partly read included |
| InputStreams.FragmentArrayInputStream.Assign | src/common/fragment_array_input_stream.cpp:17-23 | a stream that is assigned fragments starts over with exactly those |
| InputStreams.FragmentArrayInputStream.ForEachFragment | src/common/fragment_array_input_stream.cpp:35-57 | visits exactly what remains, the first fragment from the position on |
| VectorWrite.Write | src/network/vector_write.cpp:20-86 | for any socket: it got exactly the first k bytes in order, every batch but the last has as many fragments as the system allows and there are, the last no more, and none follows a short or failed one, the streams are left at offset k, and the answer is true iff k is the total unless a failure is thrown |
| VectorWrite.Gatherer.DoFragment | src/network/vector_write.cpp:60-70 | gathers one fragment, writes when the batch is full, never past the end of the batch array |
| VectorWrite.Gatherer.DoWrite | src/network/vector_write.cpp:40-59 | accounts for the accepted prefix of a batch and blocks after a short one |
| ReportRequests.Join | src/common/composable_fragment_input_stream.cpp:9-20 | the joined list has the fragments of both lists, in order |
| ReportRequests.ReportRequest.AddSpan | src/recorder/serialization/report_request.cpp:24-36 | the report's contents grow by exactly the span's fragments, and the byte count stays the sum of all lengths |
| ReportRequests.ReportRequest.ForEachFragment | src/recorder/serialization/report_request.cpp:51-69 | visits header, metrics and spans in the order in which they were added |
| ReportRequests.ReportRequest.CopyOut | src/common/buffer_chain.cpp:10-22 | fills a buffer of exactly the byte count completely; a larger one keeps its tail, a smaller one is refused |
| SpanStreams.ConsumedDropsBytes | src/recorder/stream_recorder/span_stream.cpp:49-98 | remnant bytes followed by the bytes still buffered, later additions included, are the buffered bytes from offset n on |
| SpanStreams.WholeAccounts | src/recorder/stream_recorder/span_stream.cpp:59-98 | the spans counted are exactly those wholly inside the first n bytes |
| SpanStreams.WalkMeetsBytes | src/recorder/stream_recorder/span_stream.cpp:63-79 | finding the span by counting fragments agrees with counting bytes |
| SpanStreams.WalkIsConsumed | src/recorder/stream_recorder/span_stream.cpp:59-98 | on a span boundary nothing extra is popped; otherwise the partly covered span becomes the remnant |
| SpanStreams.SpanStream.Seek | src/recorder/stream_recorder/span_stream.cpp:59-98 | both passes together have exactly the effect of consuming the bytes in front of the position |
| SpanStreams.SpanStream.Clear | src/recorder/stream_recorder/span_stream.cpp:49-54 | has the effect of consuming the whole allotment |
| SpanStreams.MetricsTracker.OnSpansDropped | src/recorder/metrics_tracker.h:19-22 | observer and live counter both grow |
| SpanStreams.MetricsTracker.ConsumeDroppedSpans | src/recorder/metrics_tracker.cpp:25-27 | returns the live counter and leaves zero |
| SpanStreams.MetricsTracker.UnconsumeDroppedSpans | src/recorder/metrics_tracker.cpp:32-34 | puts counts back without telling the observer again |
| ConnectionStreams.ConnectionStream.Flush | src/recorder/stream_recorder/connection_stream.cpp:74-90 | a flush in which the writer takes any number of bytes, with spans arriving meanwhile, equals its specification; true iff everything offered was taken |
| ConnectionStreams.ConnectionStream.FlushShutdown | src/recorder/stream_recorder/connection_stream.cpp:128-139 | the same while shutting down, with the terminator in place of the spans |
| ConnectionStreams.ConnectionStream.Reset | src/recorder/stream_recorder/connection_stream.cpp:53-64 | counts of a header that was not fully sent go back, an unfinished remnant is dropped, and a new session begins |
| ConnectionStreams.ConnectionStream.InitializeStream | src/recorder/stream_recorder/connection_stream.cpp:95-115 | the header takes the live drop counter over |
| ConnectionStreams.ConnectionStream.Write | src/common/fragment_input_stream.cpp:17-36 | the streams of a connection are consumed in order until n is used up |
| FlushEffects.Conserves | src/recorder/stream_recorder/connection_stream.cpp:74-90 | the bytes taken followed by the bytes left are the bytes there were |
| FlushEffects.WriteEffect | src/recorder/stream_recorder/connection_stream.cpp:74-90 | which stream a partial write stops in, and the state it leaves each of them in |
| FlushEffects.FlushCounts | src/recorder/stream_recorder/connection_stream.cpp:74-90 | a flush counts every span it pops, except the one it holds as remnant, exactly once, and starts none while the header is unfinished or the connection shuts down |
| FlushEffects.FlushRemnant | src/recorder/stream_recorder/connection_stream.cpp:79-88 | a remnant is the rest of the previous remnant or of the span popped last |
| FlushEffects.FlushBytes | src/recorder/stream_recorder/connection_stream.cpp:74-90 | bytes taken plus bytes left of the session equal what was left before plus the spans that were started |
| Sessions.EventPreserves | src/recorder/stream_recorder/connection_stream.cpp:53-139 | every event, of any number of connections sharing one span stream, keeps framing, single start and both accounts |
| ConnectionStreams.ConnectionStream.Completed | src/recorder/stream_recorder/connection_stream.h:55 | tells whether the terminator is fully sent, the condition `SessionsAreFramed` shows to mean that the whole session was |
| Sessions.SessionsAreFramed | src/recorder/stream_recorder/connection_stream.cpp:53-139 | over every run, the bytes of every session are a prefix of header, whole started spans and terminator, and a connection is completed exactly when it shuts down and all of that was sent |
| Sessions.SpansStartOnce | src/recorder/stream_recorder/connection_stream.cpp:74-90 | every accepted span is buffered or was started, in the order of acceptance, by exactly one session: the log names a session for each, all sessions, current or over, have distinct numbers, and each started just what the log says; a remnant is never continued on another connection |
| Sessions.SpansAndDropsAccounted | src/recorder/stream_recorder/connection_stream.cpp:53-64 | spans offered are buffered, held as remnants, counted as sent or as dropped; each drop is in the live counter, in one header that is not fully sent, or in one that was |
| Sessions.NoSpanAfterShutdown | src/recorder/stream_recorder/connection_stream.cpp:69-76 | once a connection shuts down its session starts no further span, whatever else happens, until a reset |
| SessionDecoding.UpperHexDenotes | src/recorder/stream_recorder/connection_stream.cpp:29-36 | the header's chunk size line denotes its size |
| SessionDecoding.HeadReads | src/recorder/stream_recorder/connection_stream.cpp:20-24 | the head of every session is read as the request line, the header lines, among them the one that announces the chunked coding, and the line of the host, up to the empty line |
| SessionDecoding.SpansDechunk | src/recorder/stream_recorder/connection_stream.cpp:74-90 | the framed spans of a session decode, by the chunked coding, to one field 3 each, in order |
| SessionDecoding.RunKeepsFrames | src/recorder/stream_recorder/stream_recorder.cpp:77-96 | over every run in which the producers offer frames, everything the buffer accepted is a frame around a short body |
| SessionDecoding.RunKeepsHeaders | src/recorder/stream_recorder/connection_stream.cpp:95-115 | over every run, a session's header is the one that carries the drop count its connection took over |
| SessionDecoding.CompletedSessionDecodes | src/recorder/stream_recorder/connection_stream.cpp:95-139 | in every run in which frames are offered, a completed session is one well-formed request whose decoded body parses into the header message, with the very drop count the session took over, and exactly the started spans |
| ReportProtocol.StepPreserves | src/recorder/auto_recorder.cpp:140-174 | every critical section keeps the invariant of the report protocol |
| ReportProtocol.SpansAndDropsAccounted | src/recorder/auto_recorder.cpp:45-55 | in every reachable state recorded = pending + in flight + delivered + lost, and lost = drop counter + count in flight + counts delivered |
| ReportProtocol.SequenceNumbers | src/recorder/auto_recorder.cpp:140-174 | the sequence numbers differ by one, or by two exactly while a report is in flight |
| ReportProtocol.ReportsInOrder | src/recorder/report_builder.cpp:25-41 | reports hold the accepted spans in order, each with the preamble and exactly one drop count |
| ReportProtocol.FlushIsExact | src/recorder/auto_recorder.cpp:64-85 | the number a flush waits for is reached exactly when every span accepted before the call is in a report whose attempt to send has finished, whatever ran in between |
| ReportProtocol.Interference | src/recorder/auto_recorder.cpp:45-85 | whatever other threads do keeps the invariant and forgets nothing; beside the writer they leave the report in flight, the sequence numbers and the finished reports alone and change the drop counter only by what they refuse |
| ReportBuilders.ReportBuilder.AddSpan | src/recorder/report_builder.cpp:25-32 | the first span after a swap starts over from the preamble |
| ReportBuilders.ReportBuilder.SwapPending | src/recorder/report_builder.h:28-31 | exchanging the pending report marks it for reset |
| AutoRecorders.AutoRecorder.RecordSpan | src/recorder/auto_recorder.cpp:45-55 | kept iff there is room and the writer was not told to exit; otherwise counted as dropped |
| AutoRecorders.AutoRecorder.FlushOne | src/recorder/auto_recorder.cpp:140-174 | with other threads running during the unlocked send, for every answer of the transporter: the report holds the pending spans and the drop count; delivered, it leaves in the counter what was refused meanwhile, lost, it adds its spans and its count again; a command orders the exit; all spans accepted before the round are in finished reports after it |
| AutoRecorders.AutoRecorder.FlushWithTimeout | src/recorder/auto_recorder.cpp:64-85 | true exactly when every span accepted before the call is in a finished report, timeout and writer exit included |
| AutoRecorders.AutoRecorder.FinishReport | src/recorder/auto_recorder.cpp:162-173 | on failure spans and drop count of the report are counted as dropped again |
| LegacyManualRecorders.SentPreserves | src/recorder/legacy_manual_recorder.cpp:64-85 | a report that goes in flight, callback inside Send or not, keeps the protocol and leaves nothing pending |
| LegacyManualRecorders.FlushedPreserves | src/recorder/legacy_manual_recorder.cpp:64-85 | a flush is a run of the protocol that sends the pending spans with the drop count and leaves nothing pending, unless a report is in progress |
| LegacyManualRecorders.LegacyManualRecorder.RecordSpan | src/recorder/legacy_manual_recorder.cpp:24-49 | kept unless disabled, or full with a report in progress; a full buffer, and only that, is flushed before and after, for every answer of the transporter; every path is a run of the protocol and the buffer never grows past its maximum |
| LegacyManualRecorders.LegacyManualRecorder.FlushOne | src/recorder/legacy_manual_recorder.cpp:64-85 | sends what is pending unless a report is in progress, for every answer of the transporter, in the call or later; true exactly when afterwards every accepted span was handed over |
| LegacyManualRecorders.LegacyManualRecorder.FlushWithTimeout | src/recorder/legacy_manual_recorder.cpp:97-103 | a disabled recorder does nothing and says so; any other sends what is pending unless a report is in progress |
| LegacyManualRecorders.LegacyManualRecorder.OnFailure | src/recorder/legacy_manual_recorder.cpp:123-130 | spans and saved drop count of the report return to the counter |
| LegacyManualRecorders.LegacyManualRecorder.OnSuccess | src/recorder/legacy_manual_recorder.cpp:108-118 | the report is finished, and the recorder is disabled exactly if a command of the answer says so |
| ManualProtocol.StepPreserves | src/recorder/manual_recorder.cpp:55-148 | every step, with any number of reports in flight, keeps the invariant |
| ManualProtocol.SpansAndDropsAccounted | src/recorder/manual_recorder.cpp:55-148 | in every reachable state the buffer keeps its maximum, recorded = buffered + in flight + delivered + lost, and lost = drop counter + counts carried + counts delivered |
| ManualProtocol.ReportsInOrder | src/recorder/manual_recorder.cpp:83-109 | reports take the accepted spans in order, each span once, and none is sent that has neither spans nor drops to tell of |
| ManualProtocol.Interference | src/recorder/manual_recorder.cpp:55-148 | whatever other threads and callbacks do keeps the invariant, forgets nothing, leaves a report that is still being prepared alone, and takes no span while the flush lock is held |
| ManualProtocol.OfferDecided | src/common/circular_buffer.h:70-78 | an offer that is taken finds room; one that is refused found that the spans buffered when it began together with those accepted since fill the buffer; when nothing was taken out meanwhile, exactly a full buffer refuses |
| ManualRecorders.ManualRecorder.RecordSpan | src/recorder/manual_recorder.cpp:67-77 | a span is lost exactly if two offers were refused, each because of what it read of the counters, the second after the transporter was told and whatever that made run; a first offer that is taken keeps the span with nobody told; either way it is accounted for exactly once |
| ManualRecorders.ManualRecorder.TakeSpans | src/recorder/manual_recorder.cpp:87-106 | the report takes exactly the spans buffered when their number is read, although spans are added before they are taken, or is given up when it would be empty |
| ManualRecorders.ManualRecorder.FlushWithTimeout | src/recorder/manual_recorder.cpp:83-109 | every span accepted before the call was taken by a report; the report has the drop count of the beginning of the call and the spans buffered when their number was read, is sent exactly when it has either to tell of, and ends as the transporter answers |
| ManualRecorders.ManualRecorder.OnFailure | src/recorder/manual_recorder.cpp:139-148 | spans are counted as dropped and the drop count goes back |
| ManualRecorders.ManualRecorder.OnSuccess | src/recorder/manual_recorder.cpp:126-134 | spans are counted as sent |
| StreamFlush.RunKeepsOrder | src/recorder/stream_recorder/stream_recorder.cpp:179-187 | over every run, spans seen consumed <= tail <= head, and all of them only grow |
| StreamFlush.FlushIsSound | src/recorder/stream_recorder/stream_recorder.cpp:114-125 | a flush that answers true: everything produced before the call has left the buffer |
| StreamFlush.PollCatchesUp | src/recorder/stream_recorder/stream_recorder.cpp:179-187 | a poll that begins after everything was consumed brings the consumed count up to it |
| StreamFlush.PollMakesFlushSucceed | src/recorder/stream_recorder/stream_recorder.cpp:114-187 | wherever in the course of a flush a poll begins once everything produced before was consumed, the flush succeeds when that poll has ended |
| StreamFlush.Interference | src/recorder/stream_recorder/stream_recorder.cpp:77-187 | whatever other threads do only moves the counters forward; beside the consumer they leave tail and the consumed count alone, beside a producer its call |
| StreamRecorders.StreamRecorder.FlushWithTimeout | src/recorder/stream_recorder/stream_recorder.cpp:114-125 | true exactly when by the end of the wait callers see everything consumed that was produced before the call; then all of it has left the buffer; a poll in the course of the call that finds it consumed, or one before, makes it true |
| StreamRecorders.StreamRecorder.Poll | src/recorder/stream_recorder/stream_recorder.cpp:179-187 | what flushing callers see catches up with the consumer |
| StreamRecorders.StreamRecorder.RecordSpan | src/recorder/stream_recorder/stream_recorder.cpp:77-108 | the span reads back as exactly its frame, ready to be started; then the ring takes it or not exactly as `Add` says, and one that is refused is counted as dropped |
| WireFormat.ReadInvertsVarint | src/common/direct_coded_output_stream.h:72-75 | reading a varint gives the number back, whatever follows |
| WireFormat.ParseInvertsEncode | src/common/serialization.h:226-240 | reading a written message gives its fields back, for every list of fields |
| WireFormat.LengthRecovered | src/common/serialization.h:102-106 | a length is read back as written iff it fits 32 bits |
| CodedStreams.DirectCodedOutputStream.WriteBigVarint64 | src/common/direct_coded_output_stream.h:32-58 | the unrolled form writes exactly the base-128 varint, for all numbers of 64 bits |
| Serialization.SizesAreLengths | src/common/serialization.h:43-83 | each computed size is the number of bytes the field takes |
| Serialization.WriteKeyLength | src/common/serialization.h:102-106 | writes key and length, the length cut to 32 bits |
| Serialization.FieldComplete | src/common/serialization.h:226-240 | when exactly the announced bytes were written the field is complete and a direct buffer is filled exactly |
| Serialization.WriteString | src/common/serialization.h:275-278 | the same bytes go out whether or not a direct buffer was handed out |
| KeyValues.ComputeKeyValueSerializationSize | src/common/serialization.cpp:128-137 | the first pass computes the exact size and, for a structured value, its text and one more count |
| KeyValues.WriteKeyValueImpl | src/common/serialization.cpp:142-149 | the second pass writes exactly the bytes that were sized: null as false, unsigned as signed of the same bits, structured values as their text |
| KeyValues.WriteKeyValue | src/common/serialization.h:205-215 | both passes for a single pair |
| KeyValues.KeyValueParses | src/common/serialization.cpp:128-149 | reading a pair gives its key and the value that was meant: signed numbers as they are, unsigned ones that need 64 bits as negative, null as false, structured values as their text |
| SpanSerialization.ComputeSpanContextSerializationSize | src/tracer/serialization.cpp:34-51 | the precomputed size is the number of bytes of ids and every baggage entry |
| SpanSerialization.WriteSpanContext | src/tracer/serialization.cpp:90-108 | to either kind of stream: exactly header and context, a direct buffer filled exactly |
| SpanSerialization.ContextParses | src/tracer/serialization.cpp:57-72 | reading a written context gives both ids and, entry by entry, every baggage key and value |
| SpanSerialization.WriteSpanReference | src/tracer/serialization.cpp:190-209 | a reference is exactly relationship and nested context, with all lengths right |
| SpanSerialization.ReferenceParses | src/tracer/serialization.cpp:190-209 | reading a written reference gives relationship 0 for a parent and 1 for a predecessor, and the two ids of the context referred to |
| SpanSerialization.TimestampParses | src/common/serialization.h:330-336 | reading a written timestamp gives seconds as field 1 and nanoseconds as field 2 |
| SpanSerialization.WriteTimestamp | src/common/serialization.h:330-336 | a timestamp is exactly its two fields behind their length |
| SpanSerialization.WriteContextOfSpan | src/tracer/serialization.cpp:249-254 | the context field of a span, sized and written |
| SpanSerialization.WriteStartTimestamp | src/tracer/serialization.cpp:182-185 | the start timestamp is field 4 |
| SpanSerialization.WriteOperationName | src/tracer/serialization.cpp:166-169 | the name is field 2, with its length |
| SpanSerialization.WriteDuration | src/tracer/serialization.cpp:214-226 | the same varint field on both paths |
| LogSerialization.SizeFields | src/tracer/serialization.cpp:118-146 | the first pass computes every field's size, the size of the whole record, and the texts in order |
| LogSerialization.JsonPairs | src/tracer/serialization.cpp:137-160 | the counter of the second pass refers each structured field to the text computed for it in the first |
| LogSerialization.WriteLog | src/tracer/serialization.cpp:114-161 | the record written is exactly timestamp and key-value pairs behind the length computed beforehand |
| LogSerialization.RecordParses | src/tracer/serialization.cpp:114-161 | reading a written record gives seconds and nanoseconds and, field by field, the key and the value that was meant |
| SpanFraming.FrameIsChunk | src/recorder/stream_recorder/stream_recorder.cpp:77-93 | the frame announces its own size iff header and body are shorter than 2^32 bytes; then its data is one field 3 that holds exactly the body |
| SpanFraming.WriteReportRequestSpansHeader | src/common/report_request_framing.cpp:9-20 | the field header ends exactly at the end of the area and nothing else changes |
| SpanFraming.FrameSpan | src/recorder/stream_recorder/stream_recorder.cpp:77-93 | what can be read afterwards is exactly the frame around the body, no unused reserved byte, and it begins with a byte to send |
| SpanFraming.FrameReportSpan | src/recorder/manual_recorder.cpp:55-65 | the same for spans of a report, which get the field header only |
| SpanFraming.ReserveHeaderSpace | src/recorder/stream_recorder/stream_recorder.cpp:52-64 | reserves exactly the largest header in the first block |
| HttpChunks.WriteHttpChunkHeader | src/common/chunked_http_framing.cpp:7-18 | eight digits and an end of line, right-aligned in front of the given end, nothing else changed |
| HttpChunks.EightDigits | src/common/chunked_http_framing.cpp:7-18 | the digits denote the size |
| HttpChunks.ChunkDecodes | src/common/chunked_http_framing.cpp:7-18 | a chunk in front of a body decodes to its data followed by what the body decodes to (section 4.1 of RFC 7230) |
| HttpChunks.ReadChunkHeader | src/common/utility.cpp:237-265 | however the bytes are cut into buffers: recognized iff they begin with a complete line of at most 16 characters that is a number of 64 bits; then the size is that number and the stream stands behind the line |
| Hex.HexToUint64 | src/common/hex_conversion.cpp:94-127 | accepted iff, trimmed, the text is not empty, all hexadecimal and below 2^64, and the result is its value; too long is told apart |
| Hex.HexToUint128 | src/common/hex_conversion.cpp:132-193 | the same for 128 bits in two halves; the low half is stored only on success |
| Hex.Spaces | src/common/hex_conversion.cpp:57-68 | what is trimmed is the blank and the five control characters that count as space in the default locale |
| Hex.HexToUintImpl | src/common/hex_conversion.cpp:38-51 | the accumulating loop computes the exact value or reports the first character that is no digit |
| Hex.NormalizedHexToUint128 | src/common/hex_conversion.cpp:216-233 | both halves of exactly 32 digits |
| Hex.UintToHex | src/common/hex_conversion.h:27-64 | writes exactly the lower-case digits and nothing outside them |
| Hex.HexSerializer.Uint128ToHex | src/common/hex_conversion.h:104-112 | 16 or 32 digits that denote the number |
| Hex.PrintedIsParsed | src/common/hex_conversion.h:27-51 | what the printers write satisfies the parsers' conditions and denotes the number printed |
| Hex.ParseThenPrint | src/common/hex_conversion.cpp:38-51 | printing a parsed text gives the same digits in lower case |
| TraceContexts.ParseTraceContext | src/tracer/propagation/trace_context.cpp:9-68 | accepted iff the first 55 characters have the required form; every field is read from its place |
| TraceContexts.SerializeTraceContext | src/tracer/propagation/trace_context.cpp:73-99 | writes exactly the 55 characters of the form of section 3.2.2 of W3C Trace Context |
| TraceContexts.ParseInvertsPrint | src/tracer/propagation/trace_context.cpp:9-99 | parsing a printed context, dashes at their places, is the identity |
| TraceContexts.PrintInvertsParse | src/tracer/propagation/trace_context.cpp:9-99 | printing a parsed text gives its first 55 characters in lower case |
| CloudTraces.SerializeCloudTrace | src/tracer/propagation/cloud_trace_propagator.cpp:178-193 | the text and its terminating zero always fit the buffer of 58 characters |
| CloudTraces.ParseCloudTrace | src/tracer/propagation/cloud_trace_propagator.cpp:105-176 | accepted iff of the short, medium or long form; a span id that does not fit is told apart; ids and sampled bit are as the text says |
| CloudTraces.ParseInvertsPrint | src/tracer/propagation/cloud_trace_propagator.cpp:105-193 | a printed context, which ends in slash, number and option as the format says, is accepted and yields the same ids and sampled bit |
| CloudTraces.DecimalIsValue | src/tracer/propagation/cloud_trace_propagator.cpp:147-155 | reading the decimal digits of a number gives it back |
| Base64.Encode | 3rd_party/base64/src/base64.cpp:137-152 | the loop that carries bits over computes the encoding of section 4 of RFC 4648 |
| Base64.TableIsAlphabet | 3rd_party/base64/src/base64.cpp:7-8 | the table is the alphabet of section 4 of RFC 4648 |
| Base64.EncodeBase | 3rd_party/base64/src/base64.cpp:103-119 | one byte, depending on its position in its group |
| Base64.EncodeLast | 3rd_party/base64/src/base64.cpp:121-135 | completes an unfinished group with padding |
| Base64.Decode | 3rd_party/base64/src/base64.cpp:25-101 | decodes canonical text and nothing else |
| Base64.DecodeInvertsEncode | 3rd_party/base64/src/base64.cpp:25-152 | decoding inverts encoding for every byte string |
| Base64.EncodeInvertsDecode | 3rd_party/base64/src/base64.cpp:25-152 | a text decodes to something iff it is an encoding, and encoding gives it back: padding and zero trailing bits included (section 3.5 of RFC 4648) |

## Left out

- CircularBuffers.CircularBuffer.Add: the source retries without bound; the method makes as many passes as its parameter lists and reports when all of them failed. What lets a call return when others run all the time is not stated; without them it is `RingProgress.AloneCall`.
- ConnectionStreams.ConnectionStream.Flush: the span and connection streams hold spans as lists of remaining fragments instead of sharing the heap chains of `ChainedStreams`; what is not captured is that a remnant is the same object that was in the ring. That the ring may be taken for a plain list of buffered spans is `RingProperties.StepRefinesQueue`. The writer is any number of bytes taken; that the gather-write loop is such a writer is `VectorWrite.Write`.
- VectorWrite.Write: the exception after a failed system call is a result value; connections assume writers that do not throw, since a throwing one skips the hand-over of the remnant.
- LegacyManualRecorders.LegacyManualRecorder.FlushOne: transporters that throw from Send are not modelled; the source then leaves the sequence numbers apart. Every report gets exactly one callback.
- ManualRecorders.ManualRecorder.Add: the recorder's ring is the plain queue that `RingProperties.StepRefinesQueue` shows it to be, together with the two counters an offer reads; passes that fail and are repeated are not listed again. Taking the oldest spans is `CircularBuffers.CircularBuffer.Consume`.
- ManualRecorders.ManualRecorder.OnFailure: the two metric updates are one step.
- ManualRecorders.ManualRecorder.FlushWithTimeout: the exception path of a failing allocation is not modelled.
- StreamRecorders.StreamRecorder.RecordSpan: the ring holds elements by address, so that the element put into it is this span is a parameter; as with `Add` the number of passes is bounded.
- StreamRecorders.StreamRecorder.FlushWithTimeout: how long the wait takes; it ends after an arbitrary run of the other threads.
- AutoRecorders.AutoRecorder.FlushOne: times and the loop around it; waiting on a condition variable is an arbitrary run of the other threads.
- SpanSerialization.WriteSpanContext: requires nested lengths below 2^32, as do all size-then-write methods; `WireFormat.LengthRecovered` shows that beyond that a length is not read back.
- CodedStreams.CodedOutputStream: the protobuf library's buffering is reduced to appended bytes and an optional buffer that is part of the output from when it is handed out; its varint and tag functions are modelled by what the wire format says they write.
- ChainedStreams.ChainedStream.SegmentForEachFragment: a chain closed before any block was handed out has an uninitialized block size; the model describes it only when that size happens to be in range.
- Hex.HexToUint64: characters of 128 and above index the source's table out of range; seven-bit text is a precondition here and for Base64, traceparent and cloud trace.
- Timestamps, durations and identifiers reach the serializers as numbers; clocks and random generators are not part of this model.
- JSON texts are opaque: a structured value is known by the text it converts to. Doubles are the eight bytes that are sent.
- Counters are unbounded where the source uses 32- or 64-bit integers: overflow of span, byte and sequence counts is not modelled.
- Metrics messages are an arbitrary function of the number of dropped spans.
- C++ memory orders: steps are sequentially consistent.
- Satellite connections, endpoints, sockets, DNS, event loops, gRPC, the Python bridge, dynamic loading, logging, platform wrappers and option parsing.
- Fork handlers, which discard buffered spans on purpose, and ShutdownWithTimeout.
- Baggage and carrier iteration of the propagators, FlatMap, random numbers, addresses, host headers and status lines: easy members.
