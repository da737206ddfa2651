# ORD/1 transport and frame path: a Dafny verification

This project models the framed transport of OpenRemoteDisplay, from the frames the
Linux host takes off its encoder channel to the frames the Android decoder polls, and
proves what the parts promise on their own and together. `dafny verify dfyconfig.toml`
checks everything.

How it is laid out, bottom up:

- `Bytes`, `Seqs`, `Wrappers`: little-endian integers, two's complement, facts about
  concatenation, Option and Result.
- `Packets`: the 16-byte header and the packet codec of the host.
- `Scanning`: what the host's two parsers compute, as functions of the bytes. `Scan`
  drops one byte at a bad header, `StrictScan` stops there.
- `Window`: what the client's four-byte sliding-window reader computes, Kotlin's signed
  view of a packet, and how the client's reader and the host's scan agree. `StaleBytes`:
  what bytes left over from an earlier session do to the packets after them.
- `UsbReadWorker`, `FramedStreams`, `AndroidTransports`, `UsbWriter`: the four readers and
  the USB writer as objects and loops over buffers, each proved against those functions.
- `VideoFrames`, `EncoderChannel`: the frames the encoder produces and the 16-slot channel
  in which they wait for the session loop.
- `UsbPipeline`: session loop, 120-slot channel, write worker, wire, receive buffer and
  reader as one system of concurrent steps. `UsbAccounting` counts what the session loop
  sends, `UsbHistory` states it by message types and packet fields and how a session ends,
  `UsbProgress` shows what the system can always still do, `UsbSession` is session loop and
  write worker as an object that executes whole runs of the system. `TcpSession` is the TCP
  session loop, `TcpHistory` what it makes of its inputs by message types and packet fields.
- `FrameRing`: the drop-until-keyframe buffer, with the decoder polling between any two
  steps of `offer`.
- `ClientSession`, `HostStreams`: the client's HELLO_ACK wait and packet read loop, and
  what they make of a host's packets after stale ones.
- `EndToEnd`, `LeftBehind`, `KeepingUp`, `LostReference`: encoder channel, pipeline, read
  loop and buffer running together; the read loop reads on only when `offer` has returned,
  as the one coroutine does. `TcpEndToEnd`: the same path over TCP. `ReferenceChain`: the
  chain of references behind a frame, for both.
- `Recovery`, `AoaWatcher`: display recovery, the USB watcher. `InputEvents`, `InputPath`:
  the input event codec and the way of touch events to the host.

Runs are finite sequences of events; an event that cannot happen in a state leaves the
state as it is, so a statement about `Run(Init(..), events)` is a statement about every
reachable state under every interleaving. The operating system is nondeterministic
throughout: any read size, any accepted write length, timeouts, errors, failing display
and pipeline creation are events or arguments.

Findings worth knowing:

- The client's frame buffer keeps its reference-frame promise under every interleaving
  with the decoder, but the promise does not hold end to end. The host drops frames in two
  places without looking at keyframes, and the frame that refers to a dropped one may
  still be sent and polled: the session loop on its full output channel
  (`LostReference.LoopCanLoseReference`), and the encoder's callback on the full encoder
  channel, which leaves no gap in the sequence numbers
  (`LostReference.EncoderCanLoseReference`). The exact condition for one link is
  `EndToEnd.ReferenceReachesDecoderIffKept`: a polled P-frame follows the frame produced
  before it if and only if that frame met room in the encoder channel, was not left there
  by a recovery, and was queued; frames lost in either way or in a recovery are never
  polled (`LeftBehind`). For the whole chain back to a keyframe it is
  `EndToEnd.ChainReachesDecoderIffKept`. Over TCP only the encoder channel loses frames
  (`TcpEndToEnd.ChainReachesDecoderIffEntered`).
- The wait for HELLO_ACK discards whole packets of an earlier session, but not a packet
  of which only the front is left on the wire: it takes the bytes it lacks from the new
  session, the HELLO_ACK among them (`StaleBytes.CutPacketSwallows`). The exact condition
  is `StaleBytes.StaleIsHarmlessIff`: no length in the stale bytes is rejected, and what
  follows their last complete packet holds no ORD1. Among the stale packets themselves
  there must be no VIDEO_DATA and no DISCONNECT after a HELLO_ACK
  (`HostStreams.UnnoticedIff`). The pipeline keeps all bytes in order in any case
  (`UsbPipeline.BytesAreConserved`).
- Nothing on the sending side bounds payloads by 16 MB. Both receivers read a packet back
  exactly when its payload is within the bound (`Packets.RoundTripIffWithinBound`,
  `Window.ClientReadsIffWithinBound`); the pipeline results are for such payloads.
- The client accepts any protocol version and the host only version 1, so their scanners
  agree exactly on streams of version 1 (`Window.ScannersAgreeIffVersionOne`).
- A recovery that creates a display but cannot build a pipeline leaves the loop with a
  frame channel that has no sender, and the next receive ends the session; one that cannot
  even create a display does not (`Recovery.RecoveryOutcomes`, with the exact condition).
- A create that fails after the compositor has started the display leaves it to the
  compositor: nothing in the session remembers it (`Recovery.StrayDisplaysAreCounted`).
- docs/architecture.md gives the frame buffer a depth of 3; the code's default is 16 and
  the application uses 10. The model takes the capacity as a parameter. A comment in
  host/src/protocol/types.rs calls the input event 16 bytes; the code and
  docs/protocol.md have 14, and so does the model.

## Model

| member | source | states |
|---|---|---|
| Packets.EncodeHeader | host/src/protocol/packet.rs:48-58 | filling the 16-byte buffer field by field leaves exactly the magic, the version and type bytes and the little-endian fields |
| Packets.EncodePacket | host/src/protocol/packet.rs:115-120 | the encoded packet is the header bytes followed by the payload |
| Packets.HeaderFields | host/src/protocol/packet.rs:60-96 | whatever follows a header in the buffer, reading at the decoder's offsets gives back every field |
| Packets.HeaderLayout | host/src/protocol/packet.rs:48-58 | byte for byte what is on the wire: 4F 52 44 31, version, type, and then flags, sequence and length with their low bytes first |
| Packets.HeaderVerdicts | host/src/protocol/packet.rs:60-96 | every header whatever follows it decodes to itself, or is refused for a version other than 1 or else a length above 16,777,216, with that value in the error |
| Packets.DecodeInvertsEncode | host/src/protocol/packet.rs:115-135 | decoding a well-formed packet followed by any bytes returns that packet |
| Packets.EncodeInvertsDecode | host/src/protocol/packet.rs:122-135 | whatever decodes is well formed and encodes to exactly the bytes consumed |
| Packets.CutPacketVerdict | host/src/protocol/packet.rs:122-135 | a packet cut anywhere is incomplete, and the error says how many bytes are expected and there |
| Packets.RoundTripIffWithinBound | host/src/protocol/packet.rs:107-135 | a packet the host builds survives the round trip if and only if its payload is at most 16 MB, also where the 32-bit length cast wraps |
| Scanning.LookIsStable | host/src/protocol/packet.rs:60-96 | a verdict on the front of the buffer does not change when more bytes arrive |
| Scanning.ScanAppend | host/src/session/mod.rs:156-182 | scanning in two parts, carrying the leftover over, is scanning the whole |
| Scanning.ScanLeavesLessThanOnePacket | host/src/session/mod.rs:161-178 | the drain loop leaves fewer than 16 + 16 MB bytes, waiting for an incomplete packet, and emits only well-formed packets |
| Scanning.ScanOfEncodings | host/src/session/mod.rs:161-178 | a run of encoded packets followed by anything yields those packets first |
| Scanning.ScanRecoversAfterGarbage | host/src/session/mod.rs:174-177 | garbage without ORD1 in front of packets costs none of them and leaves nothing over |
| Scanning.ScanHealsMidStream | host/src/session/mod.rs:161-178 | the same in mid-stream: packets before and after the garbage all come out |
| Scanning.StrictScanAppend | host/src/transport/tcp.rs:27-49 | the strict parser is chunk independent up to its first error and takes nothing after it |
| Scanning.StrictScanConserves | host/src/transport/tcp.rs:30-38 | packets returned, re-encoded, plus the bytes kept are exactly the bytes received |
| Scanning.StrictIsPrefixOfScan | host/src/transport/tcp.rs:28-39 | the strict parser's packets are a prefix of the resynchronising parser's, and all of them without an error |
| Scanning.ScanIsLosslessIffStrict | host/src/session/mod.rs:174-177 | the resynchronising parser drops no byte if and only if the strict parser meets no bad header |
| UsbReadWorker.ReadWorker.Feed | host/src/session/mod.rs:158-179 | after each read the packets sent and the accumulator are those of one scan of all bytes fed, and the accumulator stays bounded |
| UsbReadWorker.ReadWorker.TakeFront | host/src/session/mod.rs:162-177 | one turn of the drain loop takes the packet at the front, or drops one byte, or finds it incomplete |
| UsbReadWorker.ReadWorker.Run | host/src/session/mod.rs:154-183 | the worker consumes the reads up to the first empty one, unless its receiver is gone earlier |
| UsbReadWorker.ReceivedUpToEmpty | host/src/session/mod.rs:158-181 | the bytes that reach the accumulator are those of all reads up to the first empty one; nothing read after it counts |
| UsbReadWorker.DrainedBytesDecode | host/src/session/mod.rs:163-166 | the bytes drained for a complete header always decode to its packet |
| UsbReadWorker.ChunkingIsInvisible | host/src/session/mod.rs:156-182 | however the input is cut into non-empty reads, packets and leftover are those of one scan of the whole input |
| FramedStreams.CancelSafety | host/src/transport/tcp.rs:27-49 | dropping the read future at its await, any number of times and anywhere, changes neither the packets nor the final error |
| FramedStreams.DriveIsStrictScan | host/src/session/mod.rs:398-467 | whatever the chunking and the cancellations, the session gets the packets of one strict scan of the bytes received, then the scan's error or the stream's |
| FramedStreams.ReceivedUpToEnd | host/src/transport/tcp.rs:41-46 | the bytes received are those of all reads, cancelled ones aside, up to a read of no bytes or a failing one; these are the errors ConnectionClosed and Io, and nothing after them counts |
| FramedStreams.StrictReaderIsPrefixOfAccumulator | host/src/transport/tcp.rs:28-39 | on the same bytes the TCP reader returns a prefix of what the USB accumulator emits, and all of it unless a header is malformed |
| FramedStreams.FramedStream.ReadPacket | host/src/transport/tcp.rs:27-49 | one call returns, fails, is dropped or waits as the model says; packets returned plus read_buf are all bytes received, and read_buf is bounded |
| FramedStreams.FramedStream.TakeBuffered | host/src/transport/tcp.rs:29-39 | a complete buffered packet is drained and returned, a bad header is the error, anything else needs more bytes |
| FramedStreams.FramedStream.Serve | host/src/session/mod.rs:398-467 | calling read_packet again after each packet and each cancellation gives exactly the driven session |
| FramedStreams.FramedStream.WritePacket | host/src/transport/tcp.rs:52-57 | the socket grows by the encoding, or by a prefix of it when it fails |
| FramedStreams.FramedStream.WriteFrameData | host/src/transport/tcp.rs:60-73 | the copy-free path writes the bytes of the ordinary encoding of a VIDEO_DATA packet |
| Window.HeaderTestsAgree | android/app/src/main/java/org/ord/client/transport/TcpClient.kt:54-75 | on the same sixteen bytes the signed length test is the host's unsigned one, and the verdicts differ only by the version |
| Window.WindowReadIsOnline | android/app/src/main/java/org/ord/client/transport/TcpClient.kt:34-76 | a read that has seen part of a packet is still waiting, and one that has seen all of it holds it, whatever came after |
| Window.WindowRecoversAfterGarbage | android/app/src/main/java/org/ord/client/transport/UsbAccessoryTransport.kt:70-85 | garbage without ORD1 in front of packets costs the client none of them |
| Window.ReadAllAppend | android/app/src/main/java/org/ord/client/transport/UsbAccessoryTransport.kt:67-109 | reading the front of a stream and then on into the rest of it is reading the whole; once a length has been rejected nothing more is read |
| StaleBytes.ReadAllAfterStale | android/app/src/main/java/org/ord/client/ui/DisplayFragment.kt:188-197 | after stale bytes whose remainder holds no ORD1 the client reads the stale packets and then every packet of the session |
| StaleBytes.StaleIsHarmlessIff | android/app/src/main/java/org/ord/client/ui/DisplayFragment.kt:188-197 | stale bytes cost no session after them a packet if and only if no length in them is rejected and what follows their last complete packet holds no ORD1 |
| StaleBytes.CutPacketSwallows | android/app/src/main/java/org/ord/client/transport/UsbAccessoryTransport.kt:87-108 | a stale packet cut off inside its payload takes the bytes it lacks from the new session, its HELLO_ACK first |
| Window.ScannersAgreeIffVersionOne | android/app/src/main/java/org/ord/client/transport/TcpClient.kt:37-75 | on a stream the client reads to its exact end, the host's accumulator emits the same packets with nothing left if and only if all are version 1 |
| Window.ClientReadsIffWithinBound | android/app/src/main/java/org/ord/client/transport/UsbAccessoryTransport.kt:98-108 | the client reads back a packet the host built if and only if its payload is at most 16 MB |
| Window.EncodersAgree | android/app/src/main/java/org/ord/client/protocol/OrdPacket.kt:48-59 | the client's two's-complement encoding is byte for byte the host's encoding of the unsigned fields |
| Window.HostDecodesClientPacket | android/app/src/main/java/org/ord/client/transport/TcpClient.kt:85-91 | the host decodes what sendRaw sends to the same unsigned fields if and only if the payload is within the bound |
| Window.EncodeClientPacket | android/app/src/main/java/org/ord/client/protocol/OrdPacket.kt:48-59 | putting the fields into the ByteBuffer in order gives that encoding |
| Window.ClientStreamScans | host/src/session/mod.rs:161-178 | what the client writes scans on the host into the same packets with unsigned fields, nothing left over |
| UsbReadWorker.ClientPacketsReachSession | host/src/session/mod.rs:154-183 | from the client's encoder through any chunking of the reads, the session gets exactly the packets sent, in order |
| AndroidTransports.TcpClient.ReadPacket | android/app/src/main/java/org/ord/client/transport/TcpClient.kt:34-76 | the sliding-window loop returns, rejects or hits the end as WindowRead does on the bytes to come, and leaves what WindowRead leaves |
| AndroidTransports.UsbAccessoryTransport.ReadNextByte | android/app/src/main/java/org/ord/client/transport/UsbAccessoryTransport.kt:39-47 | takes the next unread byte, refilling if needed; at the end returns -1 and leaves rxHead 0 with the old rxTail |
| AndroidTransports.UsbAccessoryTransport.ReadExact | android/app/src/main/java/org/ord/client/transport/UsbAccessoryTransport.kt:49-65 | fills the slice from the unread bytes if and only if there are enough, touching nothing else, for any sequence of read sizes |
| AndroidTransports.UsbAccessoryTransport.ReadPacket | android/app/src/main/java/org/ord/client/transport/UsbAccessoryTransport.kt:67-109 | through the 64 KB buffer and any read sizes, returns what TcpClient.readPacket returns on the same bytes |
| AndroidTransports.WindowAdvances | android/app/src/main/java/org/ord/client/transport/UsbAccessoryTransport.kt:70-85 | shifting a byte into the zero-filled window matches exactly at the first ORD1 of the stream |
| UsbWriter.UsbAccessoryStream.WritePacketSync | host/src/transport/usb.rs:64-82 | Done means the wire grew by exactly the packet, anything else by a prefix; a failure closes the stream and a closed stream takes nothing |
| UsbWriter.TransferAddsUp | host/src/transport/usb.rs:70-80 | a write is done once its bulk transfers have taken as many bytes as the packet has, timeouts not counting, and fails at the first error before that |
| UsbWriter.UsbAccessoryStream.Work | host/src/session/mod.rs:187-193 | the write worker puts packets on the wire in channel order up to the first write that does not finish |
| UsbWriter.CutWireDeliversWholePackets | host/src/transport/usb.rs:75-78 | a wire cut inside a packet gives both kinds of receiver every packet before it and nothing else |
| EncoderChannel.FramesComeOutInOrder | host/src/encoder/pipeline.rs:116-126 | frames come out of the 16-slot encoder channel in the order they were produced, each once, and the callback drops a frame if and only if it meets a full channel |
| EncoderChannel.EarlierIsReceived | host/src/encoder/pipeline.rs:116-126 | a frame produced before one the session loop has received has been received before it, unless it overflowed the channel or was abandoned; which frames these are is stated by the next two |
| EncoderChannel.ReplaceAbandonsWaiting | host/src/session/mod.rs:488-490 | a recovery abandons exactly the frames that wait, leaves an empty channel and all other frames as they are, and whatever happens after it none of those frames is ever received |
| EncoderChannel.OverflowedNeverComesOut | host/src/encoder/pipeline.rs:116-126 | a frame produced while 16 others wait is never received, whatever happens after it |
| EncoderChannel.WaitingComesOut | host/src/session/mod.rs:311-313 | the frames that wait come out in order with as many receives |
| UsbPipeline.StepKeepsFlow | host/src/session/mod.rs:294-376 | every step of every stage keeps the invariant that ties the bytes in all stages and the packets returned together, for any stale bytes and payloads |
| UsbPipeline.BulkRunIsTransfer | host/src/transport/usb.rs:64-82 | the steps of the write worker for one packet, in a row, are the write loop of the stream |
| UsbPipeline.ReturnedIsPrefixOfAccepted | android/app/src/main/java/org/ord/client/transport/UsbAccessoryTransport.kt:67-109 | in every reachable state with harmless stale bytes the packets returned are a prefix of the stale packets followed by those accepted into the channel, and the reader has not thrown |
| UsbPipeline.BytesAreConserved | host/src/session/mod.rs:187-193 | in every reachable state, whatever was on the wire before, the stale bytes and the encodings of all accepted packets are the bytes read, buffered, on the wire, unwritten and queued, in that order; the packets returned are those of the bytes read; channel and buffer are within bounds |
| UsbPipeline.NothingInFlightMeansAllReturned | host/src/session/mod.rs:187-193 | once nothing is in flight every stale and every accepted packet has been returned |
| UsbProgress.CanAlwaysDeliver | host/src/transport/usb.rs:64-82 | from every reachable state with the stream open, the transport alone can bring every accepted packet to the client |
| UsbProgress.DroppedReferenceIsReachable | host/src/session/mod.rs:322-332 | whatever the bodies of the greeting, a run in which the loop drops a P-frame on the full channel and queues the next one |
| UsbAccounting.SequenceGapCountsDrops | host/src/session/mod.rs:313-332 | between consecutive accepted video packets the sequence gap minus one is the number of frames taken and then dropped on the full output channel, modulo 2^32 |
| UsbAccounting.VideoPacketsCarryTheirFrames | host/src/session/mod.rs:313-325 | the k-th video packet accepted is that of the k-th queued frame, numbered by its position among all frames taken |
| UsbAccounting.PongsAnswerPings | host/src/session/mod.rs:359-362 | the k-th PONG accepted has type 0x31, flags 0 and the sequence and payload of the k-th PING consumed; there are as many as PINGs, but for the one being sent, while the writer lives, and never more |
| UsbHistory.RecordsAreTrue | host/src/session/mod.rs:311-362 | the frames taken and the PINGs consumed are exactly the frames and the packets of type 0x30 that the run offers the loop while it is at its select! |
| UsbHistory.VideoPacketsShowFrames | host/src/session/mod.rs:314-321 | in bits: the k-th video packet has flag bit 0 if and only if the k-th queued frame is a keyframe, always flag bit 1 and no other, its payload, and the number of its position among all frames taken, wrapping at 32 bits |
| UsbHistory.OneFrame | host/src/session/mod.rs:313-332 | in every reachable state one frame is queued as such a packet while fewer than 120 wait, dropped otherwise, and ends the loop once the writer is gone |
| UsbHistory.OnePing | host/src/session/mod.rs:359-362 | however long the transport takes to make room, the loop stays with a PING and sends nothing else; then exactly the echo of that PING, and it serves again |
| UsbHistory.OneOtherPacket | host/src/session/mod.rs:352-373 | of all other types 0xFF and 0x01 end the session and close the stream, and the rest change nothing |
| UsbHistory.GreetingIsSentFirst | host/src/session/mod.rs:248-260 | whatever comes after, the first two packets are the HELLO_ACK and DISPLAY_CONFIG with sequences 0 and 1 and the bodies given |
| UsbHistory.OverIffEnded | host/src/session/mod.rs:329-379 | the loop is over if and only if the run has met a DISCONNECT, a new HELLO, a frame for a writer that is gone, or the end of its inputs, and then the stream is closed |
| UsbHistory.NothingAfterOver | host/src/session/mod.rs:378-383 | after its end the loop takes no frame and no PING and sends nothing |
| UsbHistory.CloseStopsWriting | host/src/transport/usb.rs:64-67 | once the stream is closed no packet is begun: over any continuation at most the rest of the one being written leaves the host |
| UsbSession.UsbHost.HandleFrame | host/src/session/mod.rs:313-332 | numbers the frame and, if there is room, queues a packet with its payload, its keyframe bit in flag bit 0, flag bit 1 set and no other; drops it on a full channel, leaves the loop on a closed one |
| UsbSession.UsbHost.HandlePacket | host/src/session/mod.rs:352-373 | type 0x30 starts a PONG with the sequence and payload of the packet, types 0xFF and 0x01 end the session, everything else changes nothing |
| UsbSession.UsbHost.SendAwaiting | host/src/session/mod.rs:248-260 | a greeting packet or a PONG is queued and the loop goes on as soon as there is room; only a gone worker loses it |
| UsbSession.UsbHost.TakeNext | host/src/session/mod.rs:187-193 | the write worker takes the oldest queued packet, and stops with it on a closed stream |
| UsbSession.UsbHost.WriteSome | host/src/transport/usb.rs:64-82 | one bulk write moves that many of the unwritten bytes out, and an error closes the stream |
| UsbSession.UsbHost.SentIsFront | host/src/session/mod.rs:187-193 | at any time the bytes sent are a front part of the encodings of the packets accepted, all of them once worker and channel are empty |
| UsbSession.UsbHost.Follow | host/src/session/mod.rs:187-376 | over any whole run of the system the object, executing the steps of loop and worker itself, stays in step with it and keeps that order of bytes |
| TcpSession.RunSessionLoop | host/src/session/mod.rs:388-470 | on a socket that fails after any number of bytes, what is written is that front part of the encodings of the loop's output, which the TcpHistory rows state by message types; a failed frame or PONG ends the loop, a failed METRICS report does not |
| TcpSession.SurvivesIffFits | host/src/session/mod.rs:412-452 | the loop meets no write error if and only if the socket has room for all its output up to a METRICS report at the very end |
| TcpHistory.GoesOn | host/src/session/mod.rs:398-461 | while no read has failed and no packet of type 0xFF has come, every frame is taken and every PING answered, and what is written for further inputs follows on what was written before |
| TcpHistory.StopsAt | host/src/session/mod.rs:453-466 | a packet of type 0xFF or a failing read ends the session: nothing is taken, answered or written for what comes after |
| TcpHistory.OneInput | host/src/session/mod.rs:401-460 | a frame is written with its payload, both flag bits and its number, a METRICS report after it with the same number and the body given, a PONG with the sequence and payload of its PING, and nothing for any other packet |
| TcpHistory.VideoPacketsShowFrames | host/src/session/mod.rs:402-412 | in bits, as over USB: the k-th video packet of a session shows the k-th frame taken, with number k + 1 |
| TcpEndToEnd.EveryFrameTakenIsOffered | host/src/session/mod.rs:92-137 | however much of a session's bytes gets through, the frames the client's read loop offers are the first of those the session took, in order, and all of them if all gets through |
| TcpEndToEnd.OfferedCarriesTaken | android/app/src/main/java/org/ord/client/ui/DisplayFragment.kt:217-226 | the k-th of them has the payload and both flag bits of the k-th frame taken and number k + 1, wrapping at 32 bits |
| TcpEndToEnd.GreetingIsSentFirst | host/src/session/mod.rs:92-104 | a TCP session starts with the HELLO_ACK and DISPLAY_CONFIG with sequences 0 and 1 and the bodies given, and then writes its output |
| TcpEndToEnd.HostMissesNothing | host/src/session/mod.rs:398-440 | every frame encoded has been produced into the channel, and every packet and read error that came in is an input of the session, in order |
| TcpEndToEnd.WaitingFramesAreTaken | host/src/session/mod.rs:401-402 | a session that has not ended takes the waiting frames in order with as many receives |
| TcpEndToEnd.ReferenceReachesDecoderIffEntered | host/src/encoder/pipeline.rs:116-126 | over TCP a polled P-frame comes directly after the frame the encoder produced before it if and only if that one met room in the encoder channel |
| TcpEndToEnd.ChainReachesDecoderIffEntered | host/src/encoder/pipeline.rs:116-126 | over TCP the decoder gets a frame and directly before it, back to a keyframe, every frame it depends on, if and only if a keyframe and every frame produced from there to this one met room in the encoder channel |
| TcpSession.EveryFrameIsWritten | host/src/session/mod.rs:401-412 | the TCP session loop drops no frame it has taken: the video packets are those frames, numbered without a gap, whatever is written between them; it takes all up to the end of the session (TcpHistory.GoesOn, StopsAt) |
| TcpSession.NumberedAt | host/src/session/mod.rs:402-412 | the k-th of them carries the k-th frame and sequence k + 1, wrapping at 32 bits |
| TcpSession.EveryPingIsAnswered | host/src/session/mod.rs:449-452 | as many PONGs are written as PINGs are read, the k-th with type 0x31, flags 0 and the sequence and payload of the k-th PING |
| FrameRing.ReferenceContinuity | android/app/src/main/java/org/ord/client/decoder/FrameRingBuffer.kt:24-48 | under every interleaving of the steps of offer with polls, a polled P-frame other than the first frame offered comes directly after the frame offered directly before it |
| FrameRing.PolledInOrder | android/app/src/main/java/org/ord/client/decoder/FrameRingBuffer.kt:24-48 | frames are polled in offering order and none twice |
| FrameRing.FramesAreConserved | android/app/src/main/java/org/ord/client/decoder/FrameRingBuffer.kt:20-48 | each offered frame is in exactly one of polled, queued, rejected, cleared and pending; the queue is bounded, no keyframe is rejected, the final queue.offer never fails |
| FrameRing.NothingLostIffNoStepLoses | android/app/src/main/java/org/ord/client/decoder/FrameRingBuffer.kt:26-42 | nothing has been rejected or cleared if and only if no P-frame met a dropping buffer or a full queue and no keyframe cleared frames away; until then all frames offered are polled, queued or being offered, in that order |
| FrameRing.NothingLostWhileNeverFull | android/app/src/main/java/org/ord/client/decoder/FrameRingBuffer.kt:33-42 | in every run in which no capacity test meets a full queue, nothing is lost and all frames offered are polled, queued or being offered, in that order |
| FrameRing.UncontendedOffer | android/app/src/main/java/org/ord/client/decoder/FrameRingBuffer.kt:24-44 | without polls in between, a keyframe always gets in, clearing a full queue, and a P-frame gets in if and only if nothing is being dropped and there is room |
| FrameRing.OfferExtendsRun | android/app/src/main/java/org/ord/client/decoder/FrameRingBuffer.kt:24-44 | a whole offer with its interleaved polls is a run of the modelled steps |
| FrameRing.FrameRingBuffer.Offer | android/app/src/main/java/org/ord/client/decoder/FrameRingBuffer.kt:24-44 | the method takes the buffer through exactly those steps and returns whether the frame was enqueued |
| FrameRing.FrameRingBuffer.MakeRoom | android/app/src/main/java/org/ord/client/decoder/FrameRingBuffer.kt:33-42 | the capacity test clears the queue for a keyframe and starts dropping for a P-frame |
| FrameRing.FrameRingBuffer.Poll | android/app/src/main/java/org/ord/client/decoder/FrameRingBuffer.kt:46-48 | returns and removes the oldest queued frame |
| ClientSession.DisplaySession.Run | android/app/src/main/java/org/ord/client/ui/DisplayFragment.kt:188-247 | over either transport and with any polls around each offer, the frames offered and the PONGs sent are those of the packets the stream holds from the first HELLO_ACK to the first DISCONNECT, the end of the stream, or the packet whose handling throws |
| ClientSession.DisplaySession.AwaitHelloAck | android/app/src/main/java/org/ord/client/ui/DisplayFragment.kt:190-197 | everything before the HELLO_ACK is discarded |
| ClientSession.DisplaySession.HandlePacket | android/app/src/main/java/org/ord/client/ui/DisplayFragment.kt:217-246 | VIDEO_DATA becomes one offered frame, PING one PONG with its sequence and payload, DISCONNECT ends the loop |
| ClientSession.DisplaySession.Turn | android/app/src/main/java/org/ord/client/ui/DisplayFragment.kt:215-249 | one turn reads the next packet and handles it, and an exception in either changes neither buffer nor replies |
| ClientSession.NothingAfterTheEnd | android/app/src/main/java/org/ord/client/ui/DisplayFragment.kt:242-245 | no packet after a DISCONNECT becomes a frame |
| ClientSession.AckStartsStream | android/app/src/main/java/org/ord/client/ui/DisplayFragment.kt:190-241 | by message types: nothing before the first 0x02 counts; from it on, while no 0xFF has come, every 0x11 becomes a frame with its sequence, flags and payload, and every 0x30 is answered in order by a 0x31 with its sequence and payload |
| ClientSession.DisconnectEndsStream | android/app/src/main/java/org/ord/client/ui/DisplayFragment.kt:242-245 | a 0xFF after it ends that: no frame and no PONG comes of any later packet |
| HostStreams.FramesOfHostStream | android/app/src/main/java/org/ord/client/ui/DisplayFragment.kt:188-226 | on what the host sends after any stale packets, the read loop turns exactly the video packets into frames, unless a stale DISCONNECT has ended it |
| HostStreams.UnnoticedIff | android/app/src/main/java/org/ord/client/ui/DisplayFragment.kt:188-197 | whatever the host sends after some stale packets, exactly its frames are offered, if and only if none of those packets is a VIDEO_DATA or DISCONNECT that comes after a HELLO_ACK |
| HostStreams.UnnoticedMeans | android/app/src/main/java/org/ord/client/ui/DisplayFragment.kt:190-247 | such packets, and no others, put no frame into the buffer and do not end the read loop |
| HostStreams.FlagsSurvive | android/app/src/main/java/org/ord/client/decoder/FrameRingBuffer.kt:7-15 | payload, sequence and both flag bits survive the unsigned-to-Short conversion, and no other bit is set |
| EndToEnd.FramePathIntegrity | host/src/session/mod.rs:311-333 | after stale bytes the session does not notice, frames polled by the decoder are an in-order, duplicate-free subsequence of the frames the encoder produced, payload and both flag bits intact |
| EndToEnd.ReferenceReachesDecoderIffKept | host/src/session/mod.rs:322-332 | over USB a polled P-frame comes directly after the frame the encoder produced before it if and only if that one met room in the encoder channel, was not left behind there by a recovery, and was queued by the session loop |
| LeftBehind.RecoveryLosesWaiting | host/src/session/mod.rs:488-490 | no frame that waits in the encoder channel when a recovery replaces it is ever polled, in any run that goes on from there; a loop that does not serve recovers nothing |
| LeftBehind.FullEncoderChannelLoses | host/src/encoder/pipeline.rs:116-126 | nor is a frame produced while 16 others wait there |
| LeftBehind.FullOutputChannelLoses | host/src/session/mod.rs:324-328 | nor one taken while 120 packets wait in the output channel |
| EndToEnd.ReadLoopWaitsForOffer | android/app/src/main/java/org/ord/client/ui/DisplayFragment.kt:215-226 | in every run the read loop is at most one frame ahead of the buffer, and only while no offer is under way |
| EndToEnd.ChainReachesDecoderIffKept | host/src/session/mod.rs:322-332 | over USB the decoder gets a frame and directly before it, back to a keyframe, every frame it depends on, if and only if a keyframe and every frame produced from there to this one passed the encoder channel and was queued |
| ReferenceChain.ShowsIffKept | android/app/src/main/java/org/ord/client/decoder/FrameRingBuffer.kt:24-48 | if each polled frame follows the one produced before it exactly when that one was kept, it comes with its whole chain of references exactly when all frames since a keyframe were kept |
| UsbAccounting.StepKeepsCounts | host/src/session/mod.rs:294-376 | every step of the pipeline keeps the counts of frames, video packets, PINGs and PONGs in agreement |
| UsbAccounting.BetweenQueuedAllDropped | host/src/session/mod.rs:322-332 | between two consecutive queued frames every frame was dropped on a full channel |
| FrameRing.StepKeepsInv | android/app/src/main/java/org/ord/client/decoder/FrameRingBuffer.kt:24-48 | every sub-step of offer and every poll keeps order, continuity and conservation |
| Recovery.RunKeepsPairing | host/src/session/mod.rs:472-507 | display, pipeline and channel stay paired through every step of every run |
| KeepingUp.KeepingUpGetsEveryFrame | android/app/src/main/java/org/ord/client/decoder/H264Decoder.kt:111-114 | in every run in which no capacity test meets a full queue, the frames polled, queued and being offered are all those read so far, in order, and carry frames the encoder produced |
| KeepingUp.EveryAcceptedFrameCanBeDecoded | host/src/session/mod.rs:294-376 | from every reachable state with an open stream in which the buffer has lost nothing, wherever read loop and offer stand, there is a way on by which every accepted video packet is polled, in order |
| LostReference.LoopCanLoseReference | host/src/session/mod.rs:325-328 | a run of a stream that starts with a keyframe in which a decoder that keeps up polls a P-frame whose predecessor the session loop dropped |
| LostReference.EncoderCanLoseReference | host/src/encoder/pipeline.rs:116-126 | a run in which the session loop queues all it takes, so that no sequence number is missing, and a decoder that keeps up polls a P-frame whose predecessor the encoder's callback dropped |
| Recovery.AtMostOneOfEach | host/src/session/mod.rs:294-381 | under every schedule of errors and failures at most one display and one started pipeline are live at any step, paired with each other and with the loop's frame channel, and none after the clean-up, apart from displays that a late failing create has left behind |
| Recovery.CleanUpLeavesNothing | host/src/session/mod.rs:376-381 | from every reachable state the clean-up after the loop leaves no started pipeline, no backend display and nothing live but displays left behind by failed creates, and that is final; a loop that runs can be left |
| Recovery.SessionResources.CleanUp | host/src/session/mod.rs:380-381 | the method stops the pipeline and destroys the display |
| Recovery.SessionStartsPlaying | host/src/session/mod.rs:286-288 | a session starts with one display and one pipeline that plays it, and the first frame produced is sent |
| Recovery.WaitingFramesAreSent | host/src/session/mod.rs:311-325 | in the loop, as many receives as frames wait send all of them, in order |
| Recovery.ProducedFrameIsSent | host/src/encoder/pipeline.rs:116-126 | in every reachable state of the loop a frame of the playing pipeline is sent after those that wait before it, unless 16 do |
| Recovery.StrayDisplaysAreCounted | host/src/display/mutter.rs:95-131 | displays are left behind exactly as often as a create fails after it has started the display |
| Recovery.NoStaleFrames | host/src/session/mod.rs:482-501 | frames of different pipelines are never mixed, and after a successful recovery no older pipeline's frame is sent |
| Recovery.RecoveredExtendsRun | host/src/session/mod.rs:472-507 | a whole recovery is a run of the modelled steps, so what holds of every run holds after any number of recoveries |
| Recovery.RecoveryOutcomes | host/src/session/mod.rs:472-507 | what each way a recovery can end leaves live; the next receive leaves the loop if and only if a display came without a pipeline, or no display came, no frame waits and an earlier recovery had already taken the channel's sender away |
| Recovery.SessionResources.RecoverDisplay | host/src/session/mod.rs:472-507 | the method, statement by statement, takes the resources through the modelled steps |
| AoaWatcher.SwitchesAreSpaced | host/src/daemon.rs:70-162 | over every run two successful switches are at least 3000 ms apart, 13500 ms when the first one timed out, and the waiting counter is at most 8500 |
| AoaWatcher.SessionIsLeftAlone | host/src/daemon.rs:76-80 | while a session is active the idle or connected watcher neither looks nor switches |
| AoaWatcher.CooldownIsWaitedOut | host/src/daemon.rs:82-86 | nor does it during a cooldown, whatever the USB calls would find |
| AoaWatcher.IdleTurn | host/src/daemon.rs:88-119 | an accessory that is there is connected and nothing switched; else a phone that can be is switched; else it sleeps 1500 ms |
| AoaWatcher.WaitingEnds | host/src/daemon.rs:122-150 | after a switch it looks every 500 ms, session or not: it connects the first time it finds the accessory, and after 17 looks in vain is idle with a cooldown of 5000 ms |
| AoaWatcher.SessionEnds | host/src/daemon.rs:153-160 | the end of a session starts a cooldown of 2000 ms |
| AoaWatcher.QuickSpacingIsTight | host/src/daemon.rs:122-160 | the 3000 ms are attained from every idle state without cooldown |
| AoaWatcher.SlowSpacingIsTight | host/src/daemon.rs:122-151 | so are the 13500 ms |
| AoaWatcher.Watch | host/src/daemon.rs:70-162 | the watcher loop, for any finite number of turns, keeps those spacings |
| InputEvents.DecodeInvertsEncode | host/src/protocol/types.rs:118-150 | decoding an encoded event, followed by anything, returns it |
| InputEvents.EncodeInvertsDecode | host/src/protocol/types.rs:130-150 | exactly the long enough payloads with an assigned type code decode, and they encode back to their first 14 bytes |
| InputEvents.EventLayout | host/src/protocol/types.rs:118-128 | byte for byte what is on the wire: type code, slot, and the four fields with their low bytes first |
| InputEvents.HostDecodesClientEvent | android/app/src/main/java/org/ord/client/protocol/OrdMessages.kt:114-124 | the host reads back every field of the client's event, the coordinates modulo 65536 and so the client's own if and only if they are in 0..65535 |
| InputPath.TouchesReachUsbSession | android/app/src/main/java/org/ord/client/input/TouchInputHandler.kt:24-39 | over USB, however the bytes are cut into reads and wherever they end, the input backend is handed the first of the events touched, in order, and all of them once all bytes have been read |
| InputPath.TouchesReachTcpSession | host/src/session/mod.rs:440-448 | the same over TCP, also when the read is dropped at its await |
| InputPath.HandedOverUpToEnd | host/src/session/mod.rs:353-370 | the backend is handed the events of all packets of type 0x20 that decode, up to a 0xFF, or over USB a 0x01, and none after it |
| InputEvents.EncodeInto | host/src/protocol/types.rs:118-128 | filling the 14-byte buffer field by field gives that encoding |

## Left out

- UsbWriter.UsbAccessoryStream.WritePacketSync: the retry loop has no bound, so a run is followed for as many bulk writes as are given; that it ever ends is not claimed, because a device that keeps timing out keeps it going.
- The TCP socket is one that takes a given number of bytes and fails for good after them; a write that blocks forever is not modelled.
- The client's two senders, touch worker and read loop: each sendRaw is one write, and writes are taken not to interleave.
- AndroidTransports.UsbAccessoryTransport.ReadNextByte: nothing is promised about reads after the first end of the stream, where stale buffered bytes would be served again.
- ClientSession.DisplaySession.Run: an exception or a cancellation strikes between two packets or while one is being handled, at a place given as an argument, and leaves no trace of that packet; a cancellation in the middle of an offer, or a PONG of which only a part is sent, is not modelled.
- Recovery.AtMostOneOfEach: destroying a display is taken to succeed, as the backend reports; a D-Bus failure that leaves the compositor's display alive is not seen. A display left behind by a failed create is counted as live for good, although the compositor may remove it when the connection that started it is dropped. Stopping a pipeline is one step.
- The HELLO exchange before the HELLO_ACK: runs of the pipeline start at the HELLO_ACK, with any bytes of an earlier session on the wire.
- A second display session of one fragment, which reuses the frame buffer with what it holds: the results of FrameRing hold over the whole life of a buffer, those of EndToEnd start with an empty one.
- FrameRingBuffer.clear(): resets the dropping flag without a keyframe, so continuity is claimed without it; the application does not call it.
- The decoder's later loss of a frame when no codec input buffer is free: continuity is claimed up to poll.
- One session across USB and TCP, and the return of the USB session handler: the flag is read and set around awaits, and the writer can stay blocked on its channel.
- Bit operations on flags are written as sums, quotients and parity; the two flag bits are distinct.
- JSON bodies of HELLO, HELLO_ACK and METRICS, metrics arithmetic, logging, clocks: payloads are opaque, the host's inputs are taken to parse, a body the client cannot parse is the exception in DisplaySession.Run, and time is an argument.
- Coordinate mapping and touch normalisation.
- Kotlin's OrdPacket.decode(ByteBuffer): not used by the transports.
- Frames lost inside GStreamer before the callback sees them: what the callback pulls counts as produced.
- GStreamer, D-Bus, rusb, MediaCodec, discovery, configuration and the rest of the user interface.
