# Models of libcpputil and adapi

This project models the parts of two C/C++ libraries that carry state over many calls, and proves what they
promise. `libcpputil` holds an RTMP server's network layer: a resumable chunk-stream parser, the chunk writer
and AMF0 codec opposite it, the byte queue, the send queue and the intrusive list underneath. `adapi` holds
a thread pool, a block-chained FIFO, a ring buffer, MD5 and SHA-1, a binary search in sorted files, calendar
arithmetic and base64. Where the original changes objects in place the model is a class with methods, each
proved against a specification function; the theorems about whole streams, schedules and runs are lemmas
about those functions. `dafny verify dfyconfig.toml` checks everything.

## Layout

| file | what it holds |
|---|---|
| Bytes | bytes, fixed-width integers and their codecs |
| ObjBuffer | the growable byte queue |
| RtmpParser, RtmpStream | the parser as a function; fragmentation, invariant and handshake theorems |
| RtmpConnection | the parser as the original keeps it, refining that function |
| ChunkWriter | the two chunked writers |
| Amf, AmfRoundTrip, AmfGrammar, AmfBounds, AmfCodec | AMF0 values and codec functions; which values survive; what the decoder accepts and makes of it; when it stays inside its buffer; the imperative codec |
| RtmpWire | a multiplexing sender as a state machine, against the parser |
| RtmpStray, RtmpConforming | bytes not meant as headers; the same sender with repeated extended timestamps |
| RtmpSender, RtmpEndpoint | the library's own sends, against the parser and decoder of the peer |
| SendQueue, IntrusiveList | the send queue; the circular list |
| ThreadPool, ThreadPoolProgress | the hand-off protocol as interleaved steps; what each operation comes to |
| BlockFifo, RingBuffer | the two byte buffers |
| BlockPadding, Sha1, Md5, HashAnswers | the hashes, and their known answers |
| SortedFile, Calendar, Base64 | the remaining algorithms |

Main results, hardest first: `RtmpWire.Demultiplex` and `RtmpWire.ConnectionDemultiplexes`,
`RtmpConforming.UnderstoodThroughout`, `RtmpSender.DeliversExactlyWhatFits`, `RtmpEndpoint.HandedArrives` with
`RtmpEndpoint.SendsArriveSoFar`, `AmfBounds.StaysInside`,
`AmfRoundTrip.RoundTripExactly`, `RtmpStream.FragmentationIndependence`, `RtmpConnections.RtmpConnection.OnReadCompleted`, `ThreadPool.HandOff`
`ThreadPool.NoWriteAfterLeaving` and `ThreadPoolProgress.TaskArrives`, `AmfGrammar.DecodesWire` with `AmfGrammar.Parses`, `SendQueues.Connection.HandleEventWrite`, `BlockFifos.MemoryBuffer2.Read`,
`Md5.Md5Handle.Final`, `Sha1.Sha1Context.Result`, `SortedFiles.BinSearchFromFile`, `Base64.RoundTrip`.

## Where the code is less than its documentation

- Control messages are never cut into chunks, so they arrive only while they fit the peer's chunk size:
  `RtmpSender.DeliversExactlyWhatFits` gives the exact condition, `RtmpSender.SmallChunkSizeLosesControl` an instance.
- AMF0 long strings are read two bytes too early (libcpputil_amf.cpp:259), a null property loses its name
  (libcpputil_amf.cpp:1405), a number starting 00 09 reads as an end mark (libcpputil_amf.cpp:1218):
  `AmfRoundTrip.RoundTripExactly` gives the exact condition, `AmfRoundTrip.LongStringIsLost`,
  `AmfRoundTrip.NullPropertyIsLost` and `AmfRoundTrip.DenormalNumberIsLost` an instance each.
- The decoder's mixed-array, array, string, long-string and AMF3 branches look for a count, a length or a kind before
  any size check, or without one (libcpputil_amf.cpp:1067, 1114, 1005, 1102, 1140): `AmfBounds.StaysInside` gives the
  exact condition on the markers met, `AmfBounds.GuardedMessage` one on the bytes of a message;
  `AmfBounds.LoneMixedArray`, `AmfBounds.LoneString` and `AmfBounds.LoneAmf3` are instances.
- AMF3 integers, strings, dates, arrays and objects are read without size checks (libcpputil_amf.cpp:416):
  `AmfBounds.StaysInside` says exactly when decoding hands over to them, `AmfBounds.IntegerStaysInside` exactly when an
  integer is read inside the buffer. An AMF3 "true" that
  is not inside an AMF3 array or object is refused (libcpputil_amf.cpp:1142).
- The parser does not expect an extended timestamp on type-3 chunks, where section 5.3.1.3 of RTMP 1.0 repeats it:
  `RtmpConforming.UnderstoodThroughout` gives the exact condition on a conforming sender's schedule,
  `RtmpConforming.RepeatsNoneIsUncut` says when nothing is repeated, `RtmpConforming.LastByteIsTheTimestamp` is an
  instance. `RtmpWire.Demultiplex` is about a sender that does not repeat it, like the library's own.
- A Set Buffer Length sends the object number for the length (libcpputil_rtmp.cpp:968):
  `RtmpEndpoint.BufferLengthIsTheObject`.
- `SHA1Input` reports success on the very call that overflows the length counter, and the next call reports it:
  `Sha1.Sha1Context.Input` says for which lengths, `Sha1.OneByteTooMany` is an instance.
- `BinSearchFromFile` returns 0 when the last match shown is the last record of the file:
  `SortedFiles.BinSearchFromFile` says exactly when it returns 0, `SortedFiles.LastRecordMatches` is an instance.
- `Base64Decode` throws its result away when the buffer has no byte to spare behind the full groups:
  `Base64.DecodedEncoding` gives the exact condition on the data, `Base64.FullGroupIsLost` an instance.

## Model

| member | source | states |
|---|---|---|
| RtmpStream.RunAppend | libcpputil/src/libcpputil_rtmp.cpp:2559-2672 | Reading `a` and then `b` ends in the same parser state, log, verdict and unread bytes as reading `a + b`; after an error nothing of `b` is looked at. |
| RtmpStream.StepIgnoresSuffix | libcpputil/src/libcpputil_rtmp.cpp:1958-2477 | A pass that moves depends only on the bytes it consumes: later bytes never change what it did. |
| RtmpStream.FragmentationIndependence | libcpputil/src/libcpputil_rtmp.cpp:2559-2672 | For every byte string, from every connection state, and every way of cutting it into reads, the connection ends like after one read of the whole: same deliveries, same verdict, same residual state, same unread bytes. |
| RtmpStream.PrefixRun | libcpputil/src/libcpputil_rtmp.cpp:2559-2672 | A shorter input delivers a prefix of what a longer one does, and fails only if that one does. |
| RtmpStream.AnyTwoCutsAgree | libcpputil/src/libcpputil_rtmp.cpp:2709-2853 | Two different fragmentations of one stream cannot be told apart, except by how much of the stream an errored connection was still handed. |
| RtmpStream.FiveBytesDecide | libcpputil/src/libcpputil_rtmp.cpp:2709-2853 | Nothing is read before five bytes have come, in however many reads; then all of them are. |
| RtmpStream.RunConserves | libcpputil/src/libcpputil_rtmp.cpp:2559-2672 | Whatever the parser leaves unread is a suffix of what it was given: bytes are consumed from the front, each once. |
| RtmpParser.Step | libcpputil/src/libcpputil_rtmp.cpp:2559-2672 | Every pass either reads a byte, or moves to a phase of lower rank, or stalls in the same phase: the measure by which the loop ends although some passes consume nothing. A finished handshake is never undone. |
| RtmpStream.StepKeepsInv | libcpputil/src/libcpputil_rtmp.cpp:1958-2477 | Each pass keeps the invariant: incoming chunk size at least 1, every pending slot partly filled and within its buffer, a valid remembered header carries the id of its own channel, nothing logged before the handshake. |
| RtmpStream.ReachableInv | libcpputil/src/libcpputil_rtmp.cpp:2559-2672 | That invariant holds in every state reachable from a new connection by any reads whatsoever. |
| RtmpStream.RunKeepsInv | libcpputil/src/libcpputil_rtmp.cpp:2559-2672 | The invariant over a whole run of the loop, from any state that satisfies it. |
| RtmpStream.DataLengthIsPositive | libcpputil/src/libcpputil_rtmp.cpp:2276-2315 | In a reachable state the copy length is at least 1 and the copied bytes fit message and buffer, so the negative-length error branch is dead. |
| RtmpStream.WhenStepFails | libcpputil/src/libcpputil_rtmp.cpp:2249-2557 | The exact list of errors: a wrong version byte, a C2 that differs from S1, a channel id of 125 or more with a payload, or the bytes that complete a message at which the callback refuses or closes; nothing else fails, and the condition is on state and input alone. |
| RtmpStream.WithoutPredecessor | libcpputil/src/libcpputil_rtmp.cpp:2097-2218 | A header of format 1 or 2 on a channel without a valid previous header has zeros for what it leaves out, and without a length waits for no payload. |
| RtmpStream.HandshakeGate | libcpputil/src/libcpputil_rtmp.cpp:2479-2557 | The handshake completes if and only if the stream opens with version 3, then any 1536 bytes, then 1536 bytes equal to the server signature. |
| RtmpStream.HandshakeIsSticky | libcpputil/src/libcpputil_rtmp.cpp:2559-2672 | No input takes a connection back into the handshake. |
| RtmpStream.NoDeliveryBeforeHandshake | libcpputil/src/libcpputil_rtmp.cpp:2950-2967 | Under any fragmentation, if a message was delivered then C2 equalled S1 (section 5.2 of RTMP 1.0). |
| RtmpStream.HandshakeReply | libcpputil/src/libcpputil_rtmp.cpp:2880-2948 | The reply to C0 and C1 is the version byte, S1 and C1 echoed back as S2. |
| RtmpConnections.RtmpConnection.ProcessRecvHandshake0 | libcpputil/src/libcpputil_rtmp.cpp:2479-2513 | On the mutable connection: exactly the specified step of this phase, with the consumed bytes gone from the queue, also when the queue packs itself. |
| RtmpConnections.RtmpConnection.ProcessRecvHandshake1 | libcpputil/src/libcpputil_rtmp.cpp:2515-2557 | On the mutable connection: exactly the specified step of the C2 phase, which compares 1536 bytes with the server signature and completes the handshake or fails. |
| RtmpConnections.RtmpConnection.ProcessInitialHeader | libcpputil/src/libcpputil_rtmp.cpp:1958-2060 | On the mutable connection: exactly the specified step of the basic header, including the straight jump to the data when a one-byte header finds a valid predecessor. |
| RtmpConnections.RtmpConnection.ProcessExtHeader | libcpputil/src/libcpputil_rtmp.cpp:2062-2095 | On the mutable connection: exactly the specified step of the longer channel ids, one or two further bytes. |
| RtmpConnections.RtmpConnection.ProcessRemainingHeader | libcpputil/src/libcpputil_rtmp.cpp:2097-2218 | On the mutable connection: exactly the specified step of the message header: inheritance from the channel's previous header, the fields each size overwrites, and the extended-timestamp test. |
| RtmpConnections.RtmpConnection.ProcessExtTimer | libcpputil/src/libcpputil_rtmp.cpp:2220-2247 | On the mutable connection: exactly the specified step of the extended timestamp. |
| RtmpConnections.RtmpConnection.ProcessData | libcpputil/src/libcpputil_rtmp.cpp:2249-2477 | On the mutable connection: exactly the specified step of the chunk data: allocation on demand, partial copy, completion, Set Chunk Size, delivery, and a callback that refuses the message or closes the connection. |
| RtmpConnections.RtmpConnection.FinishMessage | libcpputil/src/libcpputil_rtmp.cpp:2320-2348 | Completing a message frees its slot, takes over a new chunk size and appends to the delivery log; the callback may refuse, or close. |
| RtmpConnections.RtmpConnection.Consume | libcpputil/src/libcpputil_rtmp.cpp:1985-2018 | Advancing the read position and packing leaves exactly the rest of the unread bytes. |
| RtmpConnections.RtmpConnection.ProcessInputBuffer | libcpputil/src/libcpputil_rtmp.cpp:2559-2672 | The nested dispatch loop, from any valid state and buffer, ends exactly where the specified run ends, with the same verdict, also when a callback closes the connection in the middle of a buffer. |
| RtmpConnections.RtmpConnection.OpenRtmp | libcpputil/src/libcpputil_rtmp.cpp:2791-2816 | When the protocol is settled the held-back bytes move to the RTMP queue, none lost. |
| RtmpConnections.RtmpConnection.OnReadCompleted | libcpputil/src/libcpputil_rtmp.cpp:2709-2853 | The read callback moves the connection as the read function of the stream theorems does, so those theorems hold of the imperative connection. |
| RtmpConnections.RunOnce | libcpputil/src/libcpputil_rtmp.cpp:2559-2672 | One call that did what a step says takes the specified run one step on, and makes progress by the loop measure. |
| RtmpWire.ReadsEvent | libcpputil/src/libcpputil_rtmp.cpp:1958-2477 | One chunk of any admissible format (full, compressed to any degree, or a continuation, with short or long channel id): the parser reads exactly its bytes and again mirrors the sender, channel by channel. |
| RtmpWire.Demultiplex | libcpputil/src/libcpputil_rtmp.cpp:1958-2477 | For every interleaving of chunked messages on channels 2 to 124, cut at the chunk size in force and changing it on the way, the parser consumes the whole stream without error and holds for each channel what the sender has underway there; the finished messages are in the log, in order, byte for byte. |
| RtmpWire.ReadsAll | libcpputil/src/libcpputil_rtmp.cpp:2559-2672 | Any multiplexed schedule with arbitrary bytes behind it: the parser reads the schedule, mirrors the sender, and goes on with exactly those bytes. |
| RtmpWire.CutSchedule | libcpputil/src/libcpputil_rtmp.cpp:2249-2348 | Any multiplexed schedule cut off after any byte: nothing has failed, and exactly the messages whose last byte has come are delivered. |
| RtmpWire.ChannelOrder | libcpputil/src/libcpputil_rtmp.cpp:2276-2348 | Per channel, the finished messages and the one underway are exactly those begun there, in order: no other channel's chunks intrude. |
| RtmpWire.HandshakeThenIdle | libcpputil/src/libcpputil_rtmp.cpp:2479-2557 | After a good handshake the parser mirrors a sender that has sent nothing. |
| RtmpWire.ConnectionDemultiplexes | libcpputil/src/libcpputil_rtmp.cpp:2709-2853 | End to end: a new connection fed a handshake and any multiplexed schedule in reads of any size stays open, has read everything, and has every channel's messages in order. |
| RtmpConforming.UnderstoodThroughout | libcpputil/src/libcpputil_rtmp.cpp:1985-2218 | Against a sender that keeps to section 5.3.1.3 of RTMP 1.0 and repeats an extended timestamp on every type-3 chunk, for every multiplexed schedule: after each chunk the parser has read it all and holds what the sender means it to hold, if and only if every repetition is harmless, that is, the payload goes on like the timestamp bytes and the four bytes pushed out of the chunk are whole headers without a length on unused channels. |
| RtmpConforming.UnderstoodExactly | libcpputil/src/libcpputil_rtmp.cpp:1985-2018 | The same at the end of the schedule alone, provided that the first harmful repetition is not echoed by the payload: the parser ends with exactly the sender's messages if and only if every repetition is harmless; otherwise what the channel of the repeated timestamp delivers first, or still collects, begins with other bytes than the message that is due there, whatever follows. |
| RtmpConforming.ConformingConnection | libcpputil/src/libcpputil_rtmp.cpp:2709-2853 | From the first byte of a new connection, in reads of any size: a schedule whose repetitions are all harmless is understood and read to the end with the connection open; one whose first harmful repetition is not echoed loses its message. |
| RtmpConforming.RepeatsNoneIsUncut | libcpputil/src/libcpputil_rtmp.cpp:2097-2218 | In a schedule that leaves no message with an extended timestamp half sent, nothing is repeated if and only if every such message has a timestamp field of its own and fits the chunk size in force. |
| RtmpConforming.RepeatedIsReadExactlyWhenEchoed | libcpputil/src/libcpputil_rtmp.cpp:2298-2318 | After one chunk with a repeated timestamp the parser mirrors the sender if and only if the payload goes on like the four timestamp bytes. |
| RtmpConforming.ReadsRepeated | libcpputil/src/libcpputil_rtmp.cpp:1985-2018 | Of such a chunk the parser takes the timestamp bytes for payload, and its last four bytes for chunk headers. |
| RtmpStray.StrayExactly | libcpputil/src/libcpputil_rtmp.cpp:1985-2121 | Up to four bytes between chunks that were not meant as headers do no harm if and only if they are whole type-3 headers on channels not used so far, or one type-2 header on such a channel whose timestamp is not an extended one. |
| RtmpStray.RunKeepsSpoilt | libcpputil/src/libcpputil_rtmp.cpp:2320-2348 | Wrong bytes once collected on a channel stay at the front of what is collected or delivered there, whatever the stream goes on with. |
| RtmpConforming.LastByteIsTheTimestamp | libcpputil/src/libcpputil_rtmp.cpp:2298-2348 | An instance that fails: 129 bytes with the timestamp 0x01000000, cut at 128, are delivered with 01 for their last byte. |
| RtmpConforming.EchoCanHideIt | libcpputil/src/libcpputil_rtmp.cpp:1985-2018 | An instance that does not although a timestamp is repeated: 129 bytes ending in C5, with the timestamp 0xC5C5C5C5. |
| RtmpSender.TooLongIsNotDelivered | libcpputil/src/libcpputil_rtmp.cpp:908-983 | A control message longer than the chunk size in force is not delivered on its channel by its own bytes: it goes out uncut and the peer takes its tail for chunk headers. |
| RtmpSender.Starved | libcpputil/src/libcpputil_rtmp.cpp:2298-2311 | While a channel waits for more bytes than remain, no message is delivered on it, whatever the bytes are. |
| RtmpSender.DeliversOne | libcpputil/src/libcpputil_rtmp.cpp:2249-2348 | One send is delivered, with both chunk sizes equal afterwards, if its control payload fits; otherwise its message is not what arrives. |
| RtmpSender.DeliversExactlyWhatFits | libcpputil/src/libcpputil_rtmp.cpp:985-1025 | For any sequence of control, chunk-size and invoke sends: the peer delivers exactly each message at each message boundary, with its incoming chunk size equal to the sender's outgoing one, if and only if every control payload fits the chunk size in force when it is sent. |
| RtmpSender.TwoEndpoints | libcpputil/src/libcpputil_rtmp.cpp:908-1025 | A run of sends that fits is consumed to the last byte and delivers its messages in order. |
| RtmpSender.TwoEndpointsSoFar | libcpputil/src/libcpputil_rtmp.cpp:2249-2348 | Any part of the bytes of a fitting run, cut off anywhere, also inside a header or a chunk: nothing has failed, and exactly the sends whose last byte has come are delivered, in order. |
| RtmpSender.SmallChunkSizeLosesControl | libcpputil/src/libcpputil_rtmp.cpp:985-1025 | A concrete run that does not: Set Chunk Size 4 followed by a six-byte user control message. |
| RtmpEndpoint.SendsArrive | libcpputil/src/libcpputil_rtmp.cpp:1217-1279 | From the encoders through any fragmentation to the decoder: after a handshake and any fitting run of sends, the log holds exactly the messages sent, and every invoke with encodable arguments decodes to those arguments. |
| RtmpEndpoint.SendsArriveSoFar | libcpputil/src/libcpputil_rtmp.cpp:2709-2853 | At any moment, in reads of any size: a new connection has delivered exactly the messages whose last byte it has been fed, none before the handshake is whole, and every encodable invoke among them decodes to its arguments. |
| RtmpEndpoint.HandedArrives | libcpputil/src/libcpputil_net_select.cpp:368-467 | Sender, send queue, socket, parser and decoder together: whatever the socket has taken so far, by partial writes, also after the connection closed on an error, the peer has delivered exactly the sends whose last byte was taken; all of them when the open connection has an empty queue. |
| RtmpEndpoint.InvokeDecodes | libcpputil/src/libcpputil_amf.cpp:1208-1285 | A delivered invoke decodes to the encoded arguments, to the last byte. |
| RtmpEndpoint.PutHead | libcpputil/src/libcpputil_rtmp.cpp:1258-1268 | The twelve header bytes written in place leave the payload behind them untouched. |
| RtmpEndpoint.Endpoint.SendChunkSize | libcpputil/src/libcpputil_rtmp.cpp:985-1025 | The wire gains the header of a type-1 message of four bytes and the new size, 128 if zero was asked for, which is adopted for what follows. |
| RtmpEndpoint.Endpoint.SendCtrl | libcpputil/src/libcpputil_rtmp.cpp:908-983 | The wire gains, byte for byte, the message of each kind of user control: the payload length and fields of its branch, also of the two kinds with bytes that are never set; the time passed in never shows. |
| RtmpEndpoint.BufferLengthIsTheObject | libcpputil/src/libcpputil_rtmp.cpp:959-970 | A Set Buffer Length carries the object number twice, so the length asked for arrives if and only if it equals the object number. |
| RtmpEndpoint.Endpoint.SendBytesRead | libcpputil/src/libcpputil_rtmp.cpp:767-809 | The wire gains the header of a type-3 message of four bytes and the count, most significant byte first. |
| RtmpEndpoint.Endpoint.SendWindowAck | libcpputil/src/libcpputil_rtmp.cpp:811-853 | The wire gains the header of a type-5 message of four bytes on channel 2, and the window size, most significant byte first. |
| RtmpEndpoint.Endpoint.SendSetPeerBandwidth | libcpputil/src/libcpputil_rtmp.cpp:855-906 | The wire gains the header of a type-6 message, the bandwidth, and the limit type unless it is 255. |
| RtmpEndpoint.Endpoint.SendInvoke | libcpputil/src/libcpputil_rtmp.cpp:1217-1279 | Refuses an empty method name; otherwise the wire gains, byte for byte, the twelve header bytes and the chunked payload: name, transaction, a null, and a null, the string or the number the variable converts to; these are the bytes the two-endpoint theorems are about. |
| RtmpEndpoint.LastArgument | libcpputil/src/libcpputil_rtmp.cpp:1238-1253 | The encoding of an invoke ends in the null marker for a null, in the encoded string for a string, and in the number marker and eight bytes for everything else. |
| RtmpEndpoint.NumberArrives | libcpputil/src/libcpputil_rtmp.cpp:1238-1253 | The receiver of an invoke with such another value decodes it to the name, the transaction, a null, and the number. |
| ChunkWriters.ChunkedClosedForm | libcpputil/src/libcpputil_amf.cpp:1351-1375 | n payload bytes become n + (n-1)/size bytes, with 0xC0 or-ed with the channel exactly before the payload offsets k*size, k at least 1, and every payload byte at offset k + k/size. |
| ChunkWriters.ChunkedIsChunks | libcpputil/src/libcpputil_amf.cpp:1351-1375 | The byte-by-byte description equals cutting the payload into chunks from the front (section 5.3.1 of RTMP 1.0). |
| ChunkWriters.AmfBuffer.Write | libcpputil/src/libcpputil_amf.cpp:1351-1375 | However the payload is divided among writes, the buffer holds the chunked form of the concatenation, behind the header room. |
| ChunkWriters.AmfBuffer.constructor | libcpputil/src/libcpputil_amf.cpp:1327-1349 | A fresh writer starts past the room left for the header. |
| ChunkWriters.SharedMemoryWriter.Write | libcpputil/src/libcpputil_rtmp.cpp:231-254 | The fixed-capacity writer always holds a prefix of what the unbounded one would, reports the bytes copied, and leaves the memory before it alone. |
| ChunkWriters.SharedMemoryWriter.Put | libcpputil/src/libcpputil_rtmp.cpp:219-226 | One copy keeps that prefix property also when it is cut short. |
| AmfRoundTrip.RoundTripExactly | libcpputil/src/libcpputil_amf.cpp:1208-1285 | Decoding undoes encoding for any top-level list, anywhere in any buffer and whatever follows, if and only if the list is encodable: no string with a trailing NUL, property names of 1 to 65535 bytes, no null property, no top-level number starting 00 09, no string of 65536 bytes or more unless it repeats the low bytes of its length. |
| AmfRoundTrip.EncodableRoundTrips | libcpputil/src/libcpputil_amf.cpp:956-1064 | The "if" half: same tree, exactly the encoding consumed, decoding goes on right behind it. |
| AmfRoundTrip.RoundTripsEncodable | libcpputil/src/libcpputil_amf.cpp:1401-1451 | The "only if" half, by counting: encoding never takes more bytes than the faithful size of a value, decoding never gains any. |
| AmfRoundTrip.DecodesList | libcpputil/src/libcpputil_amf.cpp:1208-1285 | What a plain list decodes to also where long strings come back garbled. |
| AmfRoundTrip.DecodesValue | libcpputil/src/libcpputil_amf.cpp:956-1064 | Every plain value, nested to any depth, is read back from its encoding with the exact length used. |
| AmfRoundTrip.DecodesProps | libcpputil/src/libcpputil_amf.cpp:1576-1593 | The properties of an object are read back up to and including the end mark. |
| AmfRoundTrip.DecodingLoses | libcpputil/src/libcpputil_amf.cpp:956-1064 | A value read without reaching the end of the buffer is no larger than the bytes read; if it is as large, it has no empty names and no trailing NULs. |
| AmfRoundTrip.DecodingLosesList | libcpputil/src/libcpputil_amf.cpp:1208-1285 | A top-level list that stopped before the end of the buffer is no larger than the bytes read; if it is as large, its values have no empty names and no trailing NULs and none of its numbers reads as an end mark. |
| AmfRoundTrip.EncodingFits | libcpputil/src/libcpputil_amf.cpp:1401-1451 | An encoding is no longer than the faithful size, and as long only if no null hides behind a name. |
| AmfRoundTrip.GarbledIsSame | libcpputil/src/libcpputil_amf.cpp:249-263 | A long string survives being read two bytes early exactly when its bytes echo its length. |
| AmfRoundTrip.DenormalNumberIsLost | libcpputil/src/libcpputil_amf.cpp:1208-1230 | The number with the pattern 00 09 followed by zeros is read as the end of the list. |
| AmfRoundTrip.NullPropertyIsLost | libcpputil/src/libcpputil_amf.cpp:1401-1410 | An object with a null property loses the name and cannot be read back. |
| AmfRoundTrip.LongStringIsLost | libcpputil/src/libcpputil_amf.cpp:249-262 | A string of 65536 letters does not come back. |
| AmfRoundTrip.TrimDropsOneNul | libcpputil/src/libcpputil_var.cpp:137-165 | One trailing NUL of a text is dropped, and no more than one. |
| AmfGrammar.DecodesWire | libcpputil/src/libcpputil_amf.cpp:985-1205 | Everything the AMF0 decoder accepts, also what the encoder never writes, nested to any depth: each form of a grammar with literal markers (numbers, booleans of any non-zero byte, short and long strings, null, undefined, dates, objects, mixed arrays whatever their count, arrays of as many values as they announce, and AMF3 null, false and double) is read as the value it means, to its exact length. |
| AmfGrammar.DecodesMessage | libcpputil/src/libcpputil_amf.cpp:1208-1285 | A message of such values is read to its last byte, each value in order. |
| AmfGrammar.DecodesWireProps | libcpputil/src/libcpputil_amf.cpp:1208-1285 | Properties up to their end mark; where one does not decode, the bytes up to the next mark are dropped and the properties before it kept. |
| AmfGrammar.Parses | libcpputil/src/libcpputil_amf.cpp:956-1285 | The converse: whatever decodes to a value inside its buffer is a form of the grammar, with undecodable bytes only in front of the first end mark, and without the mark only at the end of the buffer; its meaning is the value read. |
| AmfGrammar.EncodesWire | libcpputil/src/libcpputil_amf.cpp:1401-1451 | What the encoder writes for a plain value, byte for byte, is the form of the grammar that means it. |
| AmfGrammar.TextsAreWritten | libcpputil/src/libcpputil_amf.cpp:1774-1792 | Strings in the short form below 65536 bytes and in the long form from there on, names with their two-byte length or not at all, whatever bytes are in them. |
| AmfGrammar.SkipFindsFirst | libcpputil/src/libcpputil_amf.cpp:1218-1232 | The search after an error ends behind the first end mark, or fails at the end of the buffer if there is none. |
| AmfBounds.StaysInside | libcpputil/src/libcpputil_amf.cpp:956-1207 | The AMF0 decoder looks at no byte behind its buffer, and claims to end at none, if and only if no marker it meets is unguarded: a mixed array, array or long string whose four-byte count is cut off by the end, a string whose two-byte length is, an AMF3 marker without its kind, or a long string so long that the size check wraps around. It hands over to the unchecked part of the AMF3 decoder if and only if it meets an AMF3 marker of such a kind. |
| AmfBounds.ListStaysInside | libcpputil/src/libcpputil_amf.cpp:1208-1285 | A list, with its recovery after errors, stays inside its buffer, and within AMF0, under the same exact conditions on the markers it meets. |
| AmfBounds.GuardedMessage | libcpputil/src/libcpputil_amf.cpp:1646-1657 | A message in which no byte could be an unguarded marker or one that hands over is decoded inside its bytes, to an end or an error they decide alone: what a caller can look at. |
| AmfBounds.IntegerStaysInside | libcpputil/src/libcpputil_amf.cpp:295-332 | An AMF3 integer, read without a size check, is read inside the buffer if and only if a byte without the high bit, or a fourth byte, comes before the end. |
| AmfBounds.LoneMixedArray | libcpputil/src/libcpputil_amf.cpp:1065-1086 | The message that is one mixed-array marker decodes to an empty object, five bytes long. |
| AmfBounds.LoneString | libcpputil/src/libcpputil_amf.cpp:1003-1015 | The message that is one string marker is refused after two bytes behind it were read. |
| AmfBounds.LoneAmf3 | libcpputil/src/libcpputil_amf.cpp:1138-1186 | The message that is one AMF3 marker takes its kind from the byte behind it; followed by the kind of an integer, it takes that from behind; followed by the kind of "true", it is refused, because the switch takes 3 for an object marker. |
| AmfCodec.WriteString | libcpputil/src/libcpputil_amf.cpp:1774-1792 | The payload gains the short form below 65536 bytes and the long form from there on. |
| AmfCodec.WriteNumber | libcpputil/src/libcpputil_amf.cpp:1868-1893 | Whatever chunk boundaries fall inside, the payload gains the number marker and its eight bytes. |
| AmfCodec.WriteBoolean | libcpputil/src/libcpputil_amf.cpp:1938-1946 | The payload gains the boolean marker and 0 or 1. |
| AmfCodec.WriteNull | libcpputil/src/libcpputil_amf.cpp:1954-1958 | The payload gains the null marker. |
| AmfCodec.WriteValue | libcpputil/src/libcpputil_amf.cpp:1401-1451 | For any value tree the payload gains exactly its encoding, however deep and wherever chunks are cut. |
| AmfCodec.WriteProp | libcpputil/src/libcpputil_amf.cpp:1401-1451 | Appends a property's name, if it is written at all, and its value. |
| AmfCodec.WriteObject | libcpputil/src/libcpputil_amf.cpp:1576-1593 | Appends object marker, properties and end mark. |
| AmfCodec.WriteProps | libcpputil/src/libcpputil_amf.cpp:1576-1593 | The property loop appends the encodings in order. |
| AmfCodec.ValueDecode | libcpputil/src/libcpputil_amf.cpp:985-1205 | The decoder's branches on the value with the size checks they have, and have not: a mixed array may end behind the buffer; a count, length or marker sought behind it, and the hand-over to AMF3, are outcomes of their own. |
| AmfCodec.Amf3Decode | libcpputil/src/libcpputil_amf.cpp:1138-1186 | The AMF3 switch: null, false and doubles are decoded, "true" and unknown kinds refused, a kind sought behind the buffer is an overrun, everything else is handed over. |
| AmfCodec.PropDecode | libcpputil/src/libcpputil_amf.cpp:956-984 | The name in front of a property, its size checks and error exits included, and then the value, against the specified decoder. |
| AmfCodec.ListDecode | libcpputil/src/libcpputil_amf.cpp:1208-1285 | The object loop, with its byte-by-byte recovery up to the next end mark after an error, against its recursive specification. |
| AmfCodec.ArrayDecode | libcpputil/src/libcpputil_amf.cpp:904-955 | The array loop ends as its specification does, and with the same elements unless it fails. |
| Bytes.RoundTrip16 | libcpputil/src/libcpputil_amf.cpp:1744-1750 | Two-byte big-endian decode after encode is the value modulo 2 to the 16. |
| Bytes.RoundTrip24 | libcpputil/src/libcpputil_amf.cpp:1751-1758 | Three-byte big-endian decode after encode is the value modulo 2 to the 24. |
| Bytes.RoundTrip32 | libcpputil/src/libcpputil_amf.cpp:1759-1765 | Four-byte big-endian decode after encode is the value modulo 2 to the 32, also read as a signed number. |
| Bytes.RoundTrip32LE | libcpputil/src/libcpputil_amf.cpp:1766-1773 | Four-byte little-endian decode after encode is the value modulo 2 to the 32. |
| Bytes.DecodersReadInOrder | libcpputil/src/libcpputil_amf.cpp:1726-1773 | The decoders read their bytes most significant first, and the little-endian one least significant first: the value of the byte string as a number in base 256. |
| Bytes.RoundsToMultiple | libcpputil/src/libcpputil_obj.cpp:539-545 | To a power of two, rounding up is to a multiple of it. |
| Bytes.RoundUp | libcpputil/src/libcpputil_obj.cpp:539-545 | Rounding by clearing bits never yields less than was asked for nor an alignment more, for every alignment of at least 1, power of two or not. |
| ObjBuffers.ObjBuffer.Alloc | libcpputil/src/libcpputil_obj.cpp:534-573 | Growth is to the rounded size and keeps every written byte and both positions. |
| ObjBuffers.ObjBuffer.Write | libcpputil/src/libcpputil_obj.cpp:574-588 | Unread bytes gain exactly the written ones. |
| ObjBuffers.ObjBuffer.Read | libcpputil/src/libcpputil_obj.cpp:589-599 | Hands out the next bytes, or nothing and changes nothing. |
| ObjBuffers.ObjBuffer.Pack | libcpputil/src/libcpputil_obj.cpp:600-614 | Moves all but the first bytes to the front: what is unread is what was, from there on. |
| ObjBuffers.ObjBuffer.PackIfFar | libcpputil/src/libcpputil_rtmp.cpp:76-83 | Packs exactly when the read position is past a third of the alignment, and never changes the unread bytes. |
| ObjBuffers.ObjBuffer.Terminate | libcpputil/src/libcpputil_rtmp.cpp:2779-2788 | The NUL behind the data is not counted and not delivered. |
| SendQueues.Connection.Send | libcpputil/src/libcpputil_net_select.cpp:368-467 | Exactly when a buffer is accepted: the connection is open, no more than the maximum of buffers wait, and the unsent bytes are below their limit; otherwise nothing changes, except that too many waiting buffers close the connection. An accepted buffer goes to the end of the queue; it is written at once, until the socket would block, exactly when nothing waited before it, and the call fails only if the socket failed then. While the connection is open, the bytes handed to the socket followed by the unsent bytes of the queue are the concatenation of everything accepted; the cached counter equals the unsent bytes and stays below the limit plus the largest buffer accepted. |
| SendQueues.Connection.HandleEventWrite | libcpputil/src/libcpputil_net_select.cpp:941-1088 | The write loop keeps that, with arbitrary partial writes and re-entrant sends and closes from the completion callback; each buffer is reported complete once, in order, when it is written. It returns with everything written and reported, or blocked by the socket, and says whether the queue moved; the connection is closed only if the socket failed, the callback closed it, or a send found too many buffers waiting. What the socket has taken is the front of what was accepted, also after an error. |
| SendQueues.Connection.OnWriteCompleted | libcpputil/src/libcpputil_net_select.cpp:1039-1058 | The completed buffer is reported, once; sends made from inside the callback keep the invariant, and the connection stays open unless one of three causes closes it. |
| SendQueues.Connection.Account | libcpputil/src/libcpputil_net_select.cpp:414-420 | The counter never goes negative: the "system bug" branch is dead. |
| SendQueues.Connection.LoopSend | libcpputil/src/libcpputil_ext.cpp:28-69 | What was taken is a prefix of what was offered, and a short one only because the socket failed or would block; it is an error exactly when the socket failed. |
| SendQueues.Connection.WriteAlone | libcpputil/src/libcpputil_net_select.cpp:408-440 | Writing a buffer that is alone in the queue moves exactly the bytes the socket took. |
| SendQueues.Connection.WriteSome | libcpputil/src/libcpputil_net_select.cpp:1004-1039 | One buffer written on as far as the socket goes; what is left means that the socket would block. |
| SendQueues.PendingAppend | libcpputil/src/libcpputil_net_select.cpp:403-405 | Queueing a buffer appends its unsent bytes. |
| IntrusiveLists.Obj.ListAddHead | libcpputil/src/libcpputil_obj.cpp:107-110 | The ring gains the object in front; all links of both directions and the count follow. |
| IntrusiveLists.Obj.ListAddTail | libcpputil/src/libcpputil_obj.cpp:111-115 | The ring gains the object at the back; all links of both directions and the count follow. |
| IntrusiveLists.Obj.Insert | libcpputil/src/libcpputil_obj.cpp:82-95 | Splicing in after the first k items leaves a ring with the object there, and all links right. |
| IntrusiveLists.Obj.ListDel | libcpputil/src/libcpputil_obj.cpp:116-126 | Removes an item of the list and leaves it linked to itself; an object on no list is refused and nothing changes. |
| IntrusiveLists.Obj.ListMoveHead | libcpputil/src/libcpputil_obj.cpp:127-157 | The item goes to the front, the others keep their order, the count is untouched. |
| IntrusiveLists.Obj.ListMoveTail | libcpputil/src/libcpputil_obj.cpp:158-193 | The item goes to the back, the others keep their order, the count is untouched. |
| IntrusiveLists.Obj.ListRemoveHead | libcpputil/src/libcpputil_obj.cpp:209-220 | Null on an empty list, else the first item, unlinked. |
| IntrusiveLists.Obj.ListRemoveTail | libcpputil/src/libcpputil_obj.cpp:198-208 | Null on an empty list, else the last item, unlinked. |
| IntrusiveLists.Obj.ListItemsCount | libcpputil/src/libcpputil_obj.cpp:45-48 | The cached count is the length of the ring. |
| IntrusiveLists.LinksAgree | libcpputil/src/libcpputil_obj.cpp:82-106 | Forward and backward links are inverse all the way round. |
| IntrusiveLists.WalkVisits | libcpputil/src/libcpputil_obj.cpp:82-106 | Following the forward links from the head visits the items in order and comes back to the head. |
| ThreadPool.DoKeepsInv | adapi/src/thread_pool.c:172-333 | Every single access to shared memory by any waiter, runner or canceller keeps the invariant that ties stack, lock, blocks and the progress of every thread together. |
| ThreadPool.RunInv | adapi/src/thread_pool.c:172-333 | The invariant holds in every state of every interleaving of any number of threads. |
| ThreadPool.PointerInRange | adapi/src/thread_pool.c:198-227 | The stack pointer stays between -1 and the last index. |
| ThreadPool.TakenOnce | adapi/src/thread_pool.c:198-227 | A parked block is popped by one task or cancelled by one canceller, once in the whole run: its fate never changes afterwards. |
| ThreadPool.FateIsFinal | adapi/src/thread_pool.c:318-331 | No step changes the fate of a block that has one. |
| ThreadPool.HandsAreDisjoint | adapi/src/thread_pool.c:198-227 | Two tasks never hold the same waiting thread. |
| ThreadPool.HandOff | adapi/src/thread_pool.c:198-299 | A waiter that was resumed read the parameter of the one task that popped it; a cancelled one was popped by nobody; there is no third way out of the wait. |
| ThreadPool.OnlyWrittenChange | adapi/src/thread_pool.c:198-331 | A step changes no block but the one it writes. |
| ThreadPool.NoWriteAfterLeaving | adapi/src/thread_pool.c:198-331 | No block is written once its waiter has left: the block is on the waiter's own stack frame. |
| ThreadPool.RunPopTakes | adapi/src/thread_pool.c:198-215 | The block a task pops is parked, untaken and spinning. |
| ThreadPool.CancelTarget | adapi/src/thread_pool.c:318-331 | The block a canceller is about to mark is parked, spinning, and taken by nobody but itself. |
| ThreadPoolProgress.TaskArrives | adapi/src/thread_pool.c:172-307 | Under any interleaving with any other threads: a task that finds a thread parked when it has the lock has, after seven moves of its own and three of that thread, reached the thread on top of the stack, which has left with that task as its parameter. |
| ThreadPoolProgress.TaskIsHandedOver | adapi/src/thread_pool.c:201-226 | The first half: the runner keeps that thread whatever the others do, and hands over in seven moves of its own. |
| ThreadPoolProgress.WaiterLeavesWithTask | adapi/src/thread_pool.c:281-298 | The second half: a thread that was handed a task leaves with it in three moves of its own. |
| ThreadPoolProgress.CancelledLeaves | adapi/src/thread_pool.c:281-291 | A thread that was told to leave does, in two moves of its own, whatever the others do. |
| ThreadPoolProgress.RunTaskPops | adapi/src/thread_pool.c:197-226 | The whole operation, alone: the block on top of the stack is popped, gets its task, the short wait and the status, the stack is one lower, the lock is free, and no other block is touched. |
| ThreadPoolProgress.RunTaskFindsNone | adapi/src/thread_pool.c:197-205 | With nobody parked a task is for a new thread, and the pool is as it was. |
| ThreadPoolProgress.WaitTaskParks | adapi/src/thread_pool.c:262-281 | With room a waiting thread is parked on top, suspended and without a parameter, releases the lock, and spins. |
| ThreadPoolProgress.WaitTaskFindsFull | adapi/src/thread_pool.c:262-268 | Without room it is turned away, and the pool is as it was. |
| ThreadPoolProgress.CancelAllMarks | adapi/src/thread_pool.c:321-331 | Every block parked when the lock was taken is told to leave, no other is touched, and the stack is empty. |
| ThreadPoolProgress.Enters | adapi/src/thread_pool.c:192-200 | The first move of each operation: the lock where it is free; what the code does instead where the lock fails, or the pool-only option holds. |
| BlockFifos.MemoryBuffer2.Write | adapi/src/memory_buffer2.c:617-673 | The written bytes are appended to the stream of all written bytes and reading is not disturbed; a write takes everything, or exactly the room in the last block, the recycled blocks and the new ones, and new blocks are not used while recycled ones are left. |
| BlockFifos.MemoryBuffer2.Read | adapi/src/memory_buffer2.c:402-511 | Exactly the next unread bytes, as many as asked for or all there are; position and total stay the sums over the chain; at least min(consumed, seek length) and at most seek length plus a block of consumed bytes stay behind; blocks given up are recycled up to the maximum. |
| BlockFifos.MemoryBuffer2.ReadBlocks | adapi/src/memory_buffer2.c:430-486 | The reading loop delivers consecutive stretches of the stream and keeps the history bound at every block change. |
| BlockFifos.MemoryBuffer2.CopyOut | adapi/src/memory_buffer2.c:433-444 | One stretch of the current block is the next stretch of the stream. |
| BlockFifos.MemoryBuffer2.NextBlock | adapi/src/memory_buffer2.c:453-459 | An exhausted block with more to come has a successor, and moving on neither skips nor repeats bytes. |
| BlockFifos.MemoryBuffer2.Evict | adapi/src/memory_buffer2.c:461-482 | Recycling the first block takes away no unread byte and leaves at least the seek length behind. |
| BlockFifos.MemoryBuffer2.TrimHistory | adapi/src/memory_buffer2.c:488-505 | After trimming, the history is within both bounds. |
| BlockFifos.MemoryBuffer2.AddBlock | adapi/src/memory_buffer2.c:651-666 | A chained block carries on the stream. |
| BlockFifos.MemoryBuffer2.FillTail | adapi/src/memory_buffer2.c:635-646 | Filling the tail block, as far as it goes, carries on the stream. |
| BlockFifos.FlatAround | adapi/src/memory_buffer2.c:402-511 | The bytes of a chain, split at any block. |
| BlockFifos.FlatGrow | adapi/src/memory_buffer2.c:617-673 | Filling the last block appends to the bytes of the chain. |
| RingBuffers.MemoryBuffer.Write | adapi/src/memory_buffer.c:180-251 | All or nothing across the wrap; a full self-clearing buffer is emptied first, if the bytes then fit. |
| RingBuffers.MemoryBuffer.Read | adapi/src/memory_buffer.c:110-179 | Takes min(asked, held) bytes, oldest first, across the wrap. |
| RingBuffers.MemoryBuffer.Reset | adapi/src/memory_buffer.c:83-96 | Whatever was held is gone: the queue is empty and still valid. |
| Sha1.Sha1Context.ProcessMessageBlock | adapi/src/sha1.c:221-304 | The array schedule and the four loops of twenty rounds compute the compression function of section 6.1.2 of FIPS 180-4. |
| Sha1.Sha1Context.constructor | adapi/src/sha1.c:63-84 | A fresh context stands for the empty message. |
| Sha1.OneByteTooMany | adapi/src/sha1.c:87-135 | An instance: one byte short of the limit, a byte is taken with success, and the next is refused. |
| Sha1.Sha1Context.Input | adapi/src/sha1.c:87-135 | However the data is cut into inputs, the context stands for the concatenation: hash of the whole blocks, tail in the block buffer, bit counter in two words; exactly when the total reaches 2 to the 61 bytes it turns corrupted and takes no more, though this call still reports success; input after the result is refused. |
| Sha1.Sha1Context.InputByte | adapi/src/sha1.c:111-132 | One byte more: the context stands for the message with that byte, through counter carries and full blocks. |
| Sha1.Sha1Context.CountByte | adapi/src/sha1.c:115-125 | The two length words count bits, and the carry out of the high word is noticed exactly at 2 to the 61 bytes. |
| Sha1.Sha1Context.PadMessage | adapi/src/sha1.c:179-218 | One block or two, the hash becomes that of the message padded as in section 5.1.1 of FIPS 180-4. |
| Sha1.Sha1Context.Result | adapi/src/sha1.c:139-175 | The digest of everything fed, the same when asked again; nothing but the status when the context is corrupted. |
| Sha1.GetSha1 | adapi/src/sha1.c:309-338 | The digest of the padded message given, cut to the caller's buffer. |
| HashAnswers.ShaOfAbc | adapi/src/sha1.c:64-330 | The digest of "abc" is that of the one-block example of FIPS 180-4. |
| Sha1.OrForms | adapi/src/sha1.c:262-287 | The code's "or" forms of choice and majority are the standard's "exclusive or" forms. |
| Sha1.FoldBlock | adapi/src/sha1.c:221-304 | The hash of one more block is the compression function applied to the hash so far. |
| BlockPadding.PadFills | adapi/src/sha1.c:179-218 | Padding fills a whole number of blocks, the least that fits. |
| BlockPadding.PaddedByBlocks | adapi/src/sha1.c:179-218 | The padded message, cut where the block buffer begins: one last block up to 55 bytes, two beyond. |
| BlockPadding.PaddedIsInjective | adapi/src/md5.c:335-361 | Messages padded alike are alike: padding loses nothing. |
| Md5.Md5Handle.Transform | adapi/src/md5.c:131-293 | The sixty-four unrolled operations compute the compression function given as a loop over the tables of section 3.4 of RFC 1321. |
| Md5.Round1 | adapi/src/md5.c:143-161 | The first sixteen unrolled operations, with their constants, message words and rotations, are sixteen turns of the loop of RFC 1321. |
| Md5.Round2 | adapi/src/md5.c:163-179 | Operations 17 to 32, with their constants, message words and rotations, are the next sixteen turns of that loop. |
| Md5.Round3 | adapi/src/md5.c:181-197 | Operations 33 to 48, with their constants, message words and rotations, are the next sixteen turns of that loop. |
| Md5.Round4 | adapi/src/md5.c:199-215 | Operations 49 to 64, with their constants, message words and rotations, are the last sixteen turns of that loop. |
| Md5.Md5Handle.constructor | adapi/src/md5.c:12-22 | A fresh handle stands for the empty message. |
| Md5.Md5Handle.Update | adapi/src/md5.c:294-334 | However the data is cut into updates, the handle stands for the concatenation. |
| Md5.AddBits | adapi/src/md5.c:303-312 | The two-word counter is eight times the bytes fed modulo 2 to the 64, through the carry test and the high part of the length. |
| Md5.CarryOnce | adapi/src/md5.c:305-308 | The sum comes out below the addend exactly when there is a carry. |
| Md5.IndexFromCount | adapi/src/md5.c:300-301 | The low word alone tells how full the buffer is. |
| Md5.Md5Handle.Final | adapi/src/md5.c:335-392 | Padding and length fed through updates give the digest of the padded message in hexadecimal, cut to the caller's buffer as the loop cuts it. |
| Md5.HexOut | adapi/src/md5.c:361-390 | The three cases of the output loop print two digits a byte, and stop with two characters or fewer to spare. |
| Md5.HexBytesFit | adapi/src/md5.c:361-390 | The loop prints as many bytes, up to sixteen, as leave room for a terminator. |
| Md5.GetMd5 | adapi/src/md5.c:395-405 | The hexadecimal digest of the padded message given, cut to the caller's buffer. |
| HashAnswers.Md5OfAbc | adapi/src/md5.c:8-392 | The digest of "abc" is the one of appendix A.5 of RFC 1321. |
| HashAnswers.Md5Start | adapi/src/md5.c:12-22 | The registers start as the sixteen bytes of section 3.3 of RFC 1321. |
| Md5.GetMd5File | adapi/src/md5.c:407-432 | The digest of a file does not depend on how many bytes each read returns. |
| SortedFiles.BinSearchFromFile | adapi/src/adapi.c:573-772 | In a sorted file with duplicates the callback sees exactly the matching records, in file order from the first, cut short only by itself; in any file it sees only matching ones; and exactly when zero is returned. |
| SortedFiles.ShowMatches | adapi/src/adapi.c:689-743 | From one match on: consecutive matching records, up to the first that does not match, the end, or the callback's refusal. |
| SortedFiles.LastRecordMatches | adapi/src/adapi.c:689-743 | An instance: in a file of one matching record it is shown, and zero is returned. |
| SortedFiles.RunIsShown | adapi/src/adapi.c:689-743 | In a sorted file such a run from the first match is all the matches there are. |
| Calendar.DateAddDay | adapi/src/date.c:75-91 | A valid date comes out whose Gregorian day number is larger by exactly n, for any signed n. |
| Calendar.DateSubDay | adapi/src/date.c:92-108 | A valid date comes out whose Gregorian day number is smaller by exactly n, for any signed n. |
| Calendar.DateAddMonth | adapi/src/date.c:51-74 | 12 * year + month moves by exactly n, and the day is clamped to the month reached. |
| Calendar.DateSubMonth | adapi/src/date.c:32-50 | 12 * year + month moves back by exactly n, through borrowed years, and the day is clamped to the month reached. |
| Calendar.DayNumberDetermines | adapi/src/date.c:75-108 | A date is determined by its day number, so the two results above leave no choice. |
| Calendar.DaysCompose | adapi/src/date.c:75-108 | Moving by a and then by b is moving by a + b, and moving back undoes it. |
| Calendar.MonthFollowsMonth | adapi/src/date.c:6-30 | The month lengths fit the day number: the first of a month follows the last of the one before. |
| Calendar.KnownMonths | adapi/src/date.c:6-30 | The first days of the twelve months of 2024 have their known day numbers. |
| Calendar.KnownYears | adapi/src/date.c:6-30 | Four years of the calendar start at their known day numbers. |
| Calendar.LeapYears | adapi/src/date.c:6-30 | 1900 was no leap year, 2000 was one. |
| Base64.RoundTrip | adapi/src/base64.1.c:43-236 | Decoding either encoder's text gives back the data, for every length, also with a NUL and arbitrary bytes behind. |
| Base64.DecodedEncoding | adapi/src/base64.1.c:286-361 | Into a buffer that can hold the data, an encoder's text decodes to the data if and only if there is a byte to spare or the length is no multiple of three. |
| Base64.FullGroupIsLost | adapi/src/base64.1.c:286-361 | An instance: the text of three bytes does not come back through a buffer of three. |
| Base64.RoundTripFrom | adapi/src/base64.1.c:135-236 | Decoding either encoder's text from any group on gives back the data from there on, line breaks skipped. |
| Base64.DigitsAreBase64 | adapi/src/base64.1.c:66-125 | The shifts and masks of the encoder are the six-bit digits of the 24-bit group (section 4 of RFC 4648). |
| Base64.GroupRoundTrip | adapi/src/base64.1.c:300-357 | The decoder's shifts put each group of one to three bytes together again. |
| Base64.AlphabetRoundTrip | adapi/src/base64.1.c:5-42 | The index function inverts the character function. |
| Base64.AlphabetIs | adapi/src/base64.1.c:5-42 | The digits are A to Z, a to z, 0 to 9, plus and slash, padded with equals signs (section 4 of RFC 4648). |
| Base64.IndexInverts | adapi/src/base64.1.c:5-42 | Every byte with an index is the character of that index. |
| Base64.KnownAnswers | adapi/src/base64.1.c:43-133 | Test vectors of section 10 of RFC 4648, one for each kind of last group. |
| Base64.BreaksIntoLines | adapi/src/base64.1.c:135-236 | The line-breaking encoder writes the plain text in lines of 72 characters, except that a last group of four never gets a line of its own. |
| Base64.OthersAreSkipped | adapi/src/base64.1.c:261-285 | A byte that is neither a digit nor the terminator is skipped, wherever it stands in a text. |
| Base64.Base64Encode | adapi/src/base64.1.c:43-236 | Both encoders write the specified text and its terminator into the caller's buffer. |
| Base64.Fetch4Code | adapi/src/base64.1.c:261-285 | The next four digits, whatever lies between them, or as many as are left. |
| Base64.Base64Decode | adapi/src/base64.1.c:286-361 | Writes exactly what the text decodes to for a buffer of this size: nothing, if there is no byte to spare behind the full groups. |

## Left out

- RtmpConnections.RtmpConnection.OnReadCompleted: leaves out the cut-off on pending bytes (libcpputil_rtmp.cpp:2758), which makes the outcome depend on the sizes of the reads; a wrong or missing context and the closing of the socket are one flag.
- RtmpConnections.RtmpConnection.ProcessData: a message buffer is a value in the slot table, so sharing of its memory with the callback is not captured; a failed allocation of one is not modelled; whether the callback refuses or closes is a function of the delivery log.
- RtmpStream.ReachableInv: four bytes of unset memory, which a Set Chunk Size message shorter than four bytes would read, are an arbitrary parameter.
- RtmpWire.Demultiplex: messages of type 0 and empty messages are not sent, because the parser forgets the header of the former and never delivers the latter; a Set Chunk Size payload has at least four bytes.
- RtmpConforming.UnderstoodExactly: schedules whose first harmful repetition is echoed by the payload are excluded at the end of the schedule, because stray bytes taken for headers swallow later chunks and may, with the right payloads there, come out right again; `RtmpConforming.UnderstoodThroughout` covers them at the chunk where the harm is done.
- RtmpConforming.ConformingConnection: says nothing of those same schedules.
- RtmpSender.DeliversExactlyWhatFits: negative sizes passed to `SendChunkSize` are not modelled; types and payloads of the control sends are any the wire admits.
- RtmpEndpoint.Endpoint.SendChunkSize: negative sizes are excluded: the chunk writer would then cut with a negative length, whose behaviour is undefined.
- RtmpEndpoint.Endpoint.SendInvoke: the number a variable of another type converts to is a parameter; the other invoke replies build the same kind of buffer with other arguments.
- AmfRoundTrip.RoundTripExactly: lists whose encoding is within a few bytes of 2 to the 31, where the library's `int` lengths end, are excluded.
- AmfCodec.ValueDecode: AMF3 integers, strings, dates, arrays and objects are one outcome, a hand-over, and what becomes of the bytes behind is not modelled: the loop over dynamic members (libcpputil_amf.cpp:864) adds a failed decode's -1 to its pointer, so it can go backwards and need not end. What the decoder does once it has looked for a count, a length or a marker behind the buffer depends on memory that is not the message's, and is one outcome too; a date keeps its number and drops its time zone.
- AmfBounds.StaysInside: what is looked at behind a hand-over to AMF3 is left out, for the same reason; integers have their own exact condition.
- ChunkWriters.AmfBuffer.Write: needs room below 2 to the 31, as the `int` positions do; a failed allocation is not modelled.
- ObjBuffers.ObjBuffer.Alloc: a failed allocation is not modelled.
- SendQueues.Connection.HandleEventWrite: the queue is a sequence and a buffer a value (the linked form is the intrusive list's own model); the loop's two completion paths are one; the socket is a list of answers and the callback a list of reactions. The `errno` that a send of no bytes looks at is that of the last send, so it never closes an open connection.
- IntrusiveLists.Obj.ListDel: an object that sits on another list is excluded, because the original would then correct the wrong count; `operator=` of lists, which counts items twice, is left out.
- IntrusiveLists.Obj.ListMoveHead: an object that sits on another list is excluded, because the original would move it over and leave both counts wrong.
- IntrusiveLists.Obj.ListMoveTail: an object that sits on another list is excluded, because the original would move it over and leave both counts wrong.
- ThreadPool.HandOff: thread creation, the thread counters, the wait times as delays, fairness of the scheduler and of the lock are left out; every step is one memory access in a sequentially consistent order.
- ThreadPoolProgress.TaskArrives: starts where the runner has the lock; that it gets it is up to the scheduler.
- BlockFifos.MemoryBuffer2.Read: blocks are values in sequences, so reuse of the same memory is not captured; `MemoryBuffer2Seek` and `MemoryBuffer2ReadRef` are left out, and rewinding can break the position sum.
- Md5.Md5Handle.Update: one piece is shorter than 2 to the 31 bytes, the `int` length both entry points take; close to 2 to the 32 the loop test `i + 63` would wrap.
- Md5.GetMd5File: a read error is the end of the file, as in the original; opening is left out.
- Sha1.GetSha1: null pointers, and a length of -1 for a NUL-terminated text, are left out.
- SortedFiles.BinSearchFromFile: bounds given by the caller, files that are not a whole number of records, and keys that reach past their record are left out; a record is its result under the comparator.
- Calendar.DateAddDay: `int` overflow is left out, as in the three others.
- Base64.Base64Encode: buffers too small for the text are left out; so is the decoder with a list of stop characters.
- Base64.Base64Decode: buffers shorter than the decoded bytes, which the original writes past, are left out.
- RTMPT over HTTP, session timeouts, accepting and connecting sockets, logging, and the platform layers.
- `queue.c`, `ini.c`, `str.c`, `base64ex.c` and the reference counters: easy, or copies of what is modelled.
