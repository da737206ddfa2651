// The USB session end to end, as a system of concurrent steps: the host's session
// loop, its bounded output channel, the write worker with partial bulk writes, the
// wire, and the client's receive buffer and packet reader.
module UsbPipeline {
  import opened Bytes
  import opened Packets
  import opened Seqs
  import opened StaleBytes
  import opened UsbWriter
  import opened VideoFrames
  import opened Window

  const CHANNEL_SIZE: nat := 120

  // What became of a frame taken from the encoder: queued, dropped on a full
  // channel, or refused because the write worker is gone.
  datatype Fate = Queued | Dropped | Refused

  datatype Loop = SendingAck | SendingConfig | Serving | Ponging(pong: Packet) | Over

  datatype Worker = Idle | Writing(data: seq<byte>, written: nat) | Stopped(unsent: seq<byte>)

  // A readPacket call that has consumed some bytes, or one that threw.
  datatype Reader = Reading(consumed: seq<byte>) | Threw

  datatype State = State(
    loop: Loop,
    frameSeq: u32,
    taken: seq<VideoFrame>,     // frames received from the encoder channel
    fates: seq<Fate>,           // what became of each
    pings: seq<Packet>,         // PINGs the loop has consumed
    accepted: seq<Packet>,      // packets the channel has accepted
    channel: seq<seq<byte>>,
    worker: Worker,
    closed: bool,               // the stream's is_closed flag
    wire: seq<byte>,
    rx: seq<byte>,              // rxBuffer[rxHead..rxTail]
    reader: Reader,
    read: seq<byte>,            // all bytes the reader has taken
    returned: seq<KPacket>)     // packets readPacket has returned

  datatype Event =
    | Greet(payload: seq<byte>)       // HELLO_ACK, then DISPLAY_CONFIG
    | TakeFrame(frame: VideoFrame)
    | FromClient(packet: Packet)
    | SendPong
    | EndSession
    | TakeFromChannel
    | BulkWrite(bulk: Bulk)
    | FinishWrite
    | ReadSideFails
    | Refill(n: nat)
    | ReadByte

  // The wire may still hold bytes of an earlier session.
  function Init(stale: seq<byte>): State {
    State(SendingAck, 0, [], [], [], [], [], Idle, false, stale, [], Reading([]), [], [])
  }

  function FlagsOf(frame: VideoFrame): u16 {
    if frame.isKeyframe then FLAG_KEYFRAME + FLAG_END_OF_FRAME else FLAG_END_OF_FRAME
  }

  function VideoPacket(frame: VideoFrame, sequence: u32): Packet {
    NewPacket(MSG_VIDEO_DATA, FlagsOf(frame), sequence, frame.data)
  }

  lemma FrameInFields(frame: VideoFrame, number: nat)
    ensures ShowsFrame(VideoPacket(frame, number % 0x1_0000_0000), frame.isKeyframe, frame.data, number)
  {
  }

  function PongFor(ping: Packet): Packet {
    NewPacket(MSG_PONG, 0, ping.header.sequence, ping.payload)
  }

  function Accept(s: State, p: Packet): State {
    s.(accepted := s.accepted + [p], channel := s.channel + [Encode(p)])
  }

  predicate CanSend(s: State) {
    s.worker.Stopped? || |s.channel| < CHANNEL_SIZE
  }

  // send().await once it can complete; its error on a closed channel is ignored.
  function Send(s: State, p: Packet): State {
    if s.worker.Stopped? then s else Accept(s, p)
  }

  // One step. An event that cannot happen in a state leaves it as it is.
  function Step(s: State, e: Event): State {
    match e
    case Greet(payload) => OnGreet(s, payload)
    case TakeFrame(frame) => if s.loop.Serving? then OnFrame(s, frame) else s
    case FromClient(packet) => if s.loop.Serving? then OnPacket(s, packet) else s
    case SendPong => OnSendPong(s)
    case EndSession => if s.loop.Serving? then Leave(s) else s
    case TakeFromChannel => if s.worker.Idle? && s.channel != [] then OnTake(s) else s
    case BulkWrite(bulk) => if s.worker.Writing? && s.worker.written < |s.worker.data| then OnBulk(s, bulk) else s
    case FinishWrite => if s.worker.Writing? && s.worker.written == |s.worker.data| then s.(worker := Idle) else s
    case ReadSideFails => s.(closed := true)
    case Refill(n) => if s.rx == [] then OnRefill(s, n) else s
    case ReadByte => if s.rx != [] && s.reader.Reading? then OnByte(s) else s
  }

  function OnGreet(s: State, payload: seq<byte>): State {
    if s.loop.SendingAck? && CanSend(s) then
      Send(s, NewPacket(MSG_HELLO_ACK, 0, 0, payload)).(loop := SendingConfig)
    else if s.loop.SendingConfig? && CanSend(s) then
      Send(s, NewPacket(MSG_DISPLAY_CONFIG, 0, 1, payload)).(loop := Serving)
    else s
  }

  function OnSendPong(s: State): State {
    if s.loop.Ponging? && CanSend(s) then Send(s, s.loop.pong).(loop := Serving) else s
  }

  function Leave(s: State): State {
    s.(loop := Over, closed := true)
  }

  function OnTake(s: State): State
    requires s.worker.Idle? && s.channel != []
  {
    var data := s.channel[0];
    s.(channel := s.channel[1..], worker := if s.closed then Stopped(data) else Writing(data, 0))
  }

  function OnRefill(s: State, n: nat): State {
    var m := Min(Min(n, RX_SIZE), |s.wire|);
    s.(rx := s.wire[..m], wire := s.wire[m..])
  }

  // try_send: a full channel drops the frame, a closed one ends the loop.
  function OnFrame(s: State, frame: VideoFrame): State {
    var sequence := (s.frameSeq + 1) % 0x1_0000_0000;
    if s.worker.Stopped? then Leave(Record(s, frame, Refused))
    else if |s.channel| < CHANNEL_SIZE then Accept(Record(s, frame, Queued), VideoPacket(frame, sequence))
    else Record(s, frame, Dropped)
  }

  function Record(s: State, frame: VideoFrame, fate: Fate): State {
    s.(frameSeq := (s.frameSeq + 1) % 0x1_0000_0000, taken := s.taken + [frame], fates := s.fates + [fate])
  }

  function OnPacket(s: State, p: Packet): State {
    if p.header.msgType == MSG_PING then
      s.(pings := s.pings + [p], loop := Ponging(PongFor(p)))
    else if p.header.msgType == MSG_DISCONNECT || p.header.msgType == MSG_HELLO then
      Leave(s)
    else
      s
  }

  function OnBulk(s: State, bulk: Bulk): State
    requires s.worker.Writing? && s.worker.written < |s.worker.data|
  {
    var data, written := s.worker.data, s.worker.written;
    match bulk
    case Timeout => s
    case Taken(n) =>
      var m := Min(n, |data| - written);
      s.(wire := s.wire + data[written..][..m], worker := Writing(data, written + m))
    case Error(n) =>
      var m := Min(n, |data| - written);
      s.(wire := s.wire + data[written..][..m], worker := Stopped(data[written..][m..]), closed := true)
  }

  // The reader takes one more byte: readPacket returns, throws or goes on exactly
  // when it would on the bytes it has consumed so far.
  function OnByte(s: State): State
    requires s.rx != [] && s.reader.Reading?
  {
    var consumed := s.reader.consumed + [s.rx[0]];
    var s := s.(rx := s.rx[1..], read := s.read + [s.rx[0]]);
    match WindowRead(consumed)
    case Eof => s.(reader := Reading(consumed))
    case BadLength(_, _) => s.(reader := Threw)
    case Got(k, _) => s.(reader := Reading([]), returned := s.returned + [k])
  }

  lemma StepOnlyReturnsMore(s: State, e: Event)
    ensures s.returned <= Step(s, e).returned
  {
  }

  lemma OnlyTakeFrameTakes(s: State, e: Event)
    ensures !e.TakeFrame? ==> Step(s, e).taken == s.taken
    ensures e.TakeFrame? && s.loop.Serving? ==> Step(s, e).taken == s.taken + [e.frame]
  {
  }

  function Run(s: State, events: seq<Event>): State {
    if events == [] then s
    else Step(Run(s, events[..|events| - 1]), events[|events| - 1])
  }

  lemma RunSnoc(s: State, events: seq<Event>, e: Event)
    ensures Run(s, events + [e]) == Step(Run(s, events), e)
  {
    DropFront(events, [e]);
  }

  // Payloads handed to the host's packet constructor stay within the bound.
  predicate Bounded(e: Event) {
    match e
    case Greet(payload) => |payload| <= MAX_PAYLOAD_SIZE
    case TakeFrame(frame) => |frame.data| <= MAX_PAYLOAD_SIZE
    case FromClient(packet) => |packet.payload| <= MAX_PAYLOAD_SIZE
    case _ => true
  }

  // ----- the flow invariant -----

  function Flatten(chunks: seq<seq<byte>>): seq<byte> {
    if chunks == [] then [] else chunks[0] + Flatten(chunks[1..])
  }

  function Unsent(w: Worker): seq<byte> {
    match w
    case Idle => []
    case Writing(data, written) => if written <= |data| then data[written..] else []
    case Stopped(unsent) => unsent
  }

  // Everything on its way to the reader, nearest first.
  function InFlight(s: State): seq<byte> {
    s.rx + (s.wire + (Unsent(s.worker) + Flatten(s.channel)))
  }

  // Every byte is in exactly one place, in order, and nothing outgrows its bound.
  ghost predicate BytesInv(s: State, stale: seq<byte>) {
    && s.read + InFlight(s) == stale + EncodeAll(s.accepted)
    && (s.worker.Writing? ==> s.worker.written <= |s.worker.data|)
    && |s.channel| <= CHANNEL_SIZE && |s.rx| <= RX_SIZE
  }

  // The packets returned are those of the bytes taken so far.
  ghost predicate ReaderInv(s: State) {
    match s.reader
    case Reading(consumed) => ReadAll(s.read) == Session(s.returned, consumed, false)
    case Threw => ReadAll(s.read).threw && ReadAll(s.read).packets == s.returned
  }

  ghost predicate FlowInv(s: State, stale: seq<byte>) {
    BytesInv(s, stale) && ReaderInv(s)
  }

  // Payloads within the bound make packets that can be read back.
  ghost predicate SizesInv(s: State) {
    AllWellFormed(s.accepted) && (s.loop.Ponging? ==> WellFormed(s.loop.pong))
  }

  lemma {:induction false} FlattenSnoc(chunks: seq<seq<byte>>, c: seq<byte>)
    ensures Flatten(chunks + [c]) == Flatten(chunks) + c
  {
    if chunks == [] {
      Unit([c]);
      Unit(c);
      assert Flatten([c]) == c + Flatten([]);
    } else {
      DropWithin(chunks, [c], 1);
      FlattenSnoc(chunks[1..], c);
      Assoc(chunks[0], Flatten(chunks[1..]), c);
    }
  }

  // Accepting a packet appends its bytes at the far end of the flow.
  lemma AcceptKeepsBytes(s: State, p: Packet, stale: seq<byte>)
    requires BytesInv(s, stale) && |s.channel| < CHANNEL_SIZE
    ensures BytesInv(Accept(s, p), stale)
  {
    var e := Encode(p);
    EncodeAllSnoc(s.accepted, p);
    Assoc(stale, EncodeAll(s.accepted), e);
    FlattenSnoc(s.channel, e);
    Assoc(Unsent(s.worker), Flatten(s.channel), e);
    Assoc(s.wire, Unsent(s.worker) + Flatten(s.channel), e);
    Assoc(s.rx, s.wire + (Unsent(s.worker) + Flatten(s.channel)), e);
    Assoc(s.read, InFlight(s), e);
  }

  lemma TakeMovesBytes(s: State)
    requires s.worker.Idle? && s.channel != []
    ensures InFlight(OnTake(s)) == InFlight(s)
  {
    Unit(s.channel[0]);
    Unit(Flatten(s.channel));
    assert s.channel[0][0..] == s.channel[0];
  }

  // m more bytes of data on the wire, the rest of it still to go.
  lemma MoveToWire(wire: seq<byte>, data: seq<byte>, written: nat, m: nat, tail: seq<byte>)
    requires written + m <= |data|
    ensures (wire + data[written..][..m]) + (data[written..][m..] + tail) == wire + (data[written..] + tail)
    ensures data[written..][m..] == data[written + m..]
  {
    var left := data[written..];
    Cut(left, m);
    DropDrop(data, written, m);
    Assoc(left[..m], left[m..], tail);
    Assoc(wire, left[..m], left[m..] + tail);
  }

  lemma WritingMovesBytes(s: State, m: nat, t: State)
    requires s.worker.Writing? && s.worker.written + m <= |s.worker.data|
    requires t.rx == s.rx && t.channel == s.channel
    requires var left := s.worker.data[s.worker.written..];
             t.wire == s.wire + left[..m] && Unsent(t.worker) == left[m..]
    ensures InFlight(t) == InFlight(s)
  {
    MoveToWire(s.wire, s.worker.data, s.worker.written, m, Flatten(s.channel));
  }

  lemma BulkMovesBytes(s: State, bulk: Bulk)
    requires s.worker.Writing? && s.worker.written < |s.worker.data|
    ensures InFlight(OnBulk(s, bulk)) == InFlight(s)
  {
    if !bulk.Timeout? {
      var m := Min(bulk.n, |s.worker.data| - s.worker.written);
      DropDrop(s.worker.data, s.worker.written, m);
      WritingMovesBytes(s, m, OnBulk(s, bulk));
    }
  }

  lemma FinishMovesBytes(s: State)
    requires s.worker.Writing? && s.worker.written == |s.worker.data|
    ensures InFlight(s.(worker := Idle)) == InFlight(s)
  {
    assert s.worker.data[s.worker.written..] == [];
  }

  lemma RefillMovesBytes(s: State, n: nat)
    requires s.rx == []
    ensures InFlight(OnRefill(s, n)) == InFlight(s)
  {
    var m := Min(Min(n, RX_SIZE), |s.wire|);
    var tail := Unsent(s.worker) + Flatten(s.channel);
    Cut(s.wire, m);
    Assoc(s.wire[..m], s.wire[m..], tail);
    Unit(s.wire + tail);
  }

  predicate OfTransport(e: Event) {
    e.TakeFromChannel? || e.BulkWrite? || e.FinishWrite? || e.ReadSideFails? || e.Refill?
  }

  lemma TransportMovesBytes(s: State, e: Event)
    requires OfTransport(e)
    ensures InFlight(Step(s, e)) == InFlight(s)
  {
    match e
    case TakeFromChannel =>
      if s.worker.Idle? && s.channel != [] {
        TakeMovesBytes(s);
      }
    case BulkWrite(bulk) =>
      if s.worker.Writing? && s.worker.written < |s.worker.data| {
        BulkMovesBytes(s, bulk);
      }
    case FinishWrite =>
      if s.worker.Writing? && s.worker.written == |s.worker.data| {
        FinishMovesBytes(s);
      }
    case Refill(n) =>
      if s.rx == [] {
        RefillMovesBytes(s, n);
      }
    case ReadSideFails =>
  }

  lemma TransportKeepsBounds(s: State, e: Event)
    requires OfTransport(e)
    ensures var t := Step(s, e);
            && t.reader == s.reader && t.read == s.read && t.returned == s.returned && t.accepted == s.accepted
            && |t.channel| <= |s.channel| && (|t.rx| <= |s.rx| || |t.rx| <= RX_SIZE)
            && ((s.worker.Writing? ==> s.worker.written <= |s.worker.data|) ==>
                  (t.worker.Writing? ==> t.worker.written <= |t.worker.data|))
  {
  }

  // A step that only moves bytes on keeps the flow.
  lemma MovingBytesKeepsFlow(s: State, t: State, stale: seq<byte>)
    requires FlowInv(s, stale) && InFlight(t) == InFlight(s)
    requires t.reader == s.reader && t.read == s.read && t.returned == s.returned && t.accepted == s.accepted
    requires |t.channel| <= CHANNEL_SIZE && |t.rx| <= RX_SIZE
    requires t.worker.Writing? ==> t.worker.written <= |t.worker.data|
    ensures FlowInv(t, stale)
  {
  }

  lemma TransportKeepsFlow(s: State, e: Event, stale: seq<byte>)
    requires FlowInv(s, stale) && OfTransport(e)
    ensures FlowInv(Step(s, e), stale)
  {
    TransportMovesBytes(s, e);
    TransportKeepsBounds(s, e);
    MovingBytesKeepsFlow(s, Step(s, e), stale);
  }

  lemma ByteKeepsBytes(s: State, stale: seq<byte>)
    requires BytesInv(s, stale) && s.rx != [] && s.reader.Reading?
    ensures BytesInv(OnByte(s), stale)
  {
    var beyond := s.wire + (Unsent(s.worker) + Flatten(s.channel));
    HeadTail(s.rx);
    Assoc([s.rx[0]], s.rx[1..], beyond);
    Assoc(s.read, [s.rx[0]], s.rx[1..] + beyond);
  }

  // A packet completed by a byte ends with it.
  lemma OneByteDecides(c: seq<byte>, b: byte)
    requires WindowRead(c).Eof? && WindowRead(c + [b]).Got?
    ensures WindowRead(c + [b]).rest == []
  {
    DropFront(c, [b]);
    WindowReadIsOnline(c + [b], c);
  }

  // What one more byte does to a reader that has read these bytes.
  lemma ReadOneMore(read: seq<byte>, returned: seq<KPacket>, c: seq<byte>, b: byte)
    requires ReadAll(read) == Session(returned, c, false)
    ensures match WindowRead(c + [b])
            case Eof => ReadAll(read + [b]) == Session(returned, c + [b], false)
            case BadLength(_, _) => ReadAll(read + [b]).threw && ReadAll(read + [b]).packets == returned
            case Got(k, _) => ReadAll(read + [b]) == Session(returned + [k], [], false)
  {
    ReadAllAppend(read, [b]);
    ReadAllStopsWaiting(read);
    Unit(returned);
    var r := WindowRead(c + [b]);
    if r.Got? {
      OneByteDecides(c, b);
      assert ReadAll([]) == Session([], [], false);
      Unit([r.packet]);
    }
  }

  lemma ByteKeepsReader(s: State)
    requires ReaderInv(s) && s.rx != [] && s.reader.Reading?
    ensures ReaderInv(OnByte(s))
  {
    ReadOneMore(s.read, s.returned, s.reader.consumed, s.rx[0]);
  }

  // The session loop's own records do not matter to the flow.
  lemma RecordsDoNotMatter(s: State, t: State, stale: seq<byte>)
    requires FlowInv(s, stale)
    requires t.rx == s.rx && t.wire == s.wire && t.worker == s.worker && t.channel == s.channel
    requires t.reader == s.reader && t.read == s.read && t.returned == s.returned && t.accepted == s.accepted
    ensures FlowInv(t, stale)
  {
  }

  lemma AcceptKeepsFlow(s: State, p: Packet, stale: seq<byte>)
    requires FlowInv(s, stale) && |s.channel| < CHANNEL_SIZE
    ensures FlowInv(Accept(s, p), stale)
  {
    AcceptKeepsBytes(s, p, stale);
  }

  lemma SendKeepsFlow(s: State, p: Packet, stale: seq<byte>)
    requires FlowInv(s, stale) && CanSend(s)
    ensures FlowInv(Send(s, p), stale)
  {
    if !s.worker.Stopped? {
      AcceptKeepsFlow(s, p, stale);
    }
  }

  lemma PacketKeepsFlow(s: State, packet: Packet, stale: seq<byte>)
    requires FlowInv(s, stale)
    ensures FlowInv(OnPacket(s, packet), stale)
  {
    RecordsDoNotMatter(s, OnPacket(s, packet), stale);
  }

  lemma LeaveKeepsFlow(s: State, stale: seq<byte>)
    requires FlowInv(s, stale)
    ensures FlowInv(Leave(s), stale)
  {
    RecordsDoNotMatter(s, Leave(s), stale);
  }

  lemma RecordKeepsFlow(s: State, frame: VideoFrame, fate: Fate, stale: seq<byte>)
    requires FlowInv(s, stale)
    ensures FlowInv(Record(s, frame, fate), stale)
  {
    RecordsDoNotMatter(s, Record(s, frame, fate), stale);
  }

  lemma FrameKeepsFlow(s: State, frame: VideoFrame, stale: seq<byte>)
    requires FlowInv(s, stale)
    ensures FlowInv(OnFrame(s, frame), stale)
  {
    if s.worker.Stopped? {
      RecordKeepsFlow(s, frame, Refused, stale);
      LeaveKeepsFlow(Record(s, frame, Refused), stale);
    } else if |s.channel| < CHANNEL_SIZE {
      RecordKeepsFlow(s, frame, Queued, stale);
      AcceptKeepsFlow(Record(s, frame, Queued), VideoPacket(frame, (s.frameSeq + 1) % 0x1_0000_0000), stale);
    } else {
      RecordKeepsFlow(s, frame, Dropped, stale);
    }
  }

  lemma GreetingKeepsFlow(s: State, payload: seq<byte>, stale: seq<byte>)
    requires FlowInv(s, stale)
    ensures FlowInv(OnGreet(s, payload), stale)
  {
    if (s.loop.SendingAck? || s.loop.SendingConfig?) && CanSend(s) {
      var p := if s.loop.SendingAck? then NewPacket(MSG_HELLO_ACK, 0, 0, payload)
               else NewPacket(MSG_DISPLAY_CONFIG, 0, 1, payload);
      SendKeepsFlow(s, p, stale);
      RecordsDoNotMatter(Send(s, p), OnGreet(s, payload), stale);
    }
  }

  lemma PongKeepsFlow(s: State, stale: seq<byte>)
    requires FlowInv(s, stale)
    ensures FlowInv(OnSendPong(s), stale)
  {
    if s.loop.Ponging? && CanSend(s) {
      SendKeepsFlow(s, s.loop.pong, stale);
      RecordsDoNotMatter(Send(s, s.loop.pong), OnSendPong(s), stale);
    }
  }

  lemma LoopStepKeepsFlow(s: State, e: Event, stale: seq<byte>)
    requires FlowInv(s, stale) && !OfTransport(e) && !e.ReadByte?
    ensures FlowInv(Step(s, e), stale)
  {
    match e
    case Greet(payload) => GreetingKeepsFlow(s, payload, stale);
    case TakeFrame(frame) => FrameKeepsFlow(s, frame, stale);
    case SendPong => PongKeepsFlow(s, stale);
    case FromClient(packet) => PacketKeepsFlow(s, packet, stale);
    case EndSession => LeaveKeepsFlow(s, stale);
  }

  lemma StepKeepsFlow(s: State, e: Event, stale: seq<byte>)
    requires FlowInv(s, stale)
    ensures FlowInv(Step(s, e), stale)
  {
    if OfTransport(e) {
      TransportKeepsFlow(s, e, stale);
    } else if e.ReadByte? {
      if s.rx != [] && s.reader.Reading? {
        ByteKeepsBytes(s, stale);
        ByteKeepsReader(s);
      }
    } else {
      LoopStepKeepsFlow(s, e, stale);
    }
  }

  lemma {:induction false} RunKeepsFlow(stale: seq<byte>, events: seq<Event>)
    ensures FlowInv(Run(Init(stale), events), stale)
  {
    if events == [] {
      Unit(stale);
      Unit(EncodeAll([]));
    } else {
      var n := |events| - 1;
      RunKeepsFlow(stale, events[..n]);
      StepKeepsFlow(Run(Init(stale), events[..n]), events[n], stale);
    }
  }

  lemma AcceptKeepsSizes(s: State, p: Packet)
    requires SizesInv(s) && WellFormed(p)
    ensures SizesInv(Accept(s, p))
  {
  }

  lemma LoopStepKeepsSizes(s: State, e: Event)
    requires SizesInv(s) && Bounded(e)
    requires !OfTransport(e) && !e.ReadByte?
    ensures SizesInv(Step(s, e))
  {
    match e
    case Greet(payload) =>
      AcceptKeepsSizes(s, NewPacket(MSG_HELLO_ACK, 0, 0, payload));
      AcceptKeepsSizes(s, NewPacket(MSG_DISPLAY_CONFIG, 0, 1, payload));
    case TakeFrame(frame) =>
      AcceptKeepsSizes(Record(s, frame, Queued), VideoPacket(frame, (s.frameSeq + 1) % 0x1_0000_0000));
    case SendPong =>
      if s.loop.Ponging? {
        AcceptKeepsSizes(s, s.loop.pong);
      }
    case _ =>
  }

  lemma StepKeepsSizes(s: State, e: Event)
    requires SizesInv(s) && Bounded(e)
    ensures SizesInv(Step(s, e))
  {
    if OfTransport(e) || e.ReadByte? {
      assert Step(s, e).accepted == s.accepted && Step(s, e).loop == s.loop;
    } else {
      LoopStepKeepsSizes(s, e);
    }
  }

  lemma {:induction false} RunKeepsSizes(stale: seq<byte>, events: seq<Event>)
    requires forall e <- events :: Bounded(e)
    ensures SizesInv(Run(Init(stale), events))
  {
    if events != [] {
      var n := |events| - 1;
      RunKeepsSizes(stale, events[..n]);
      assert events[n] in events;
      StepKeepsSizes(Run(Init(stale), events[..n]), events[n]);
    }
  }

  // ----- delivery -----

  // Every byte of the earlier session and of every accepted packet has been read or
  // is in exactly one place on its way, in order; the reader has returned what those
  // it has read hold. True of all stale bytes and all payloads.
  lemma BytesAreConserved(stale: seq<byte>, events: seq<Event>, s: State)
    requires s == Run(Init(stale), events)
    ensures s.read + (s.rx + (s.wire + (Unsent(s.worker) + Flatten(s.channel)))) == stale + EncodeAll(s.accepted)
    ensures s.returned == ReadAll(s.read).packets && (s.reader.Threw? <==> ReadAll(s.read).threw)
    ensures |s.channel| <= CHANNEL_SIZE && |s.rx| <= RX_SIZE
  {
    RunKeepsFlow(stale, events);
  }

  // While what follows the complete stale packets holds no ORD1, the reader neither
  // throws nor returns anything but those packets and then the accepted ones.
  lemma DeliveredInOrder(s: State, stale: seq<byte>)
    requires FlowInv(s, stale) && SizesInv(s) && Harmless(stale)
    ensures s.reader.Reading? && s.returned <= Readable(stale, s.accepted)
    ensures InFlight(s) == [] ==> s.returned == Readable(stale, s.accepted)
  {
    var whole := stale + EncodeAll(s.accepted);
    DropFront(s.read, InFlight(s));
    ReadAllAfterStale(stale, s.accepted);
    ReadAllOfPrefix(s.read, whole);
    Unit(s.read);
  }

  // In every reachable state the packets readPacket has returned are a prefix of the
  // stale ones followed by those the channel accepted.
  lemma ReturnedIsPrefixOfAccepted(stale: seq<byte>, events: seq<Event>, s: State)
    requires Harmless(stale) && forall e <- events :: Bounded(e)
    requires s == Run(Init(stale), events)
    ensures s.returned <= Readable(stale, s.accepted)
    ensures s.reader.Reading?
  {
    RunKeepsFlow(stale, events);
    RunKeepsSizes(stale, events);
    DeliveredInOrder(s, stale);
  }

  // Once nothing is in flight, every stale and every accepted packet has been returned.
  lemma NothingInFlightMeansAllReturned(stale: seq<byte>, events: seq<Event>, s: State)
    requires Harmless(stale) && forall e <- events :: Bounded(e)
    requires s == Run(Init(stale), events) && InFlight(s) == []
    ensures s.returned == Readable(stale, s.accepted)
  {
    RunKeepsFlow(stale, events);
    RunKeepsSizes(stale, events);
    DeliveredInOrder(s, stale);
  }

  // ----- the write loop, step by step -----

  function BulkWrites(bulks: seq<Bulk>): seq<Event> {
    if bulks == [] then []
    else
      var n := |bulks| - 1;
      BulkWrites(bulks[..n]) + [BulkWrite(bulks[n])]
  }

  lemma {:induction false} TransferSnoc(length: nat, written: nat, bulks: seq<Bulk>, b: Bulk)
    requires written <= length
    ensures var t := TransferOf(length, written, bulks);
            TransferOf(length, written, bulks + [b])
            == if t.status.StillWriting? then TransferOf(length, t.written, [b]) else t
    decreases |bulks|
  {
    if bulks == [] {
      Unit([b]);
    } else if written < length && !bulks[0].Error? {
      DropWithin(bulks, [b], 1);
      var m := if bulks[0].Taken? then Min(bulks[0].n, length - written) else 0;
      TransferSnoc(length, written + m, bulks[1..], b);
    }
  }

  // What the bulk writes of one packet have made of the state before them.
  function AfterTransfer(s: State, data: seq<byte>, t: Transfer): State
    requires t.written <= |data|
  {
    var u := s.(wire := s.wire + data[..t.written]);
    if t.status.Failed? then u.(worker := Stopped(data[t.written..]), closed := true)
    else u.(worker := Writing(data, t.written))
  }

  lemma MoreOnWire(wire: seq<byte>, data: seq<byte>, w: nat, m: nat)
    requires w + m <= |data|
    ensures (wire + data[..w]) + data[w..][..m] == wire + data[..w + m]
    ensures data[w..][m..] == data[w + m..]
  {
    DropDrop(data, w, m);
    SplitTake(data, w, m);
    Assoc(wire, data[..w], data[w..][..m]);
  }

  // What one bulk write makes of a packet of which w bytes are out.
  function OneTransfer(length: nat, w: nat, b: Bulk): Transfer
    requires w < length
  {
    var m := if b.Timeout? then 0 else Min(b.n, length - w);
    Transfer(if b.Error? then Failed else if w + m == length then Done else StillWriting, w + m)
  }

  lemma TransferOne(length: nat, w: nat, b: Bulk)
    requires w < length
    ensures TransferOf(length, w, [b]) == OneTransfer(length, w, b)
  {
  }

  lemma TakenBulk(s: State, data: seq<byte>, w: nat, n: nat)
    requires w < |data|
    ensures OnBulk(AfterTransfer(s, data, Transfer(StillWriting, w)), Taken(n))
         == AfterTransfer(s, data, OneTransfer(|data|, w, Taken(n)))
  {
    MoreOnWire(s.wire, data, w, Min(n, |data| - w));
  }

  lemma ErrorBulk(s: State, data: seq<byte>, w: nat, n: nat)
    requires w < |data|
    ensures OnBulk(AfterTransfer(s, data, Transfer(StillWriting, w)), Error(n))
         == AfterTransfer(s, data, OneTransfer(|data|, w, Error(n)))
  {
    MoreOnWire(s.wire, data, w, Min(n, |data| - w));
  }

  lemma BulkStep(s: State, data: seq<byte>, t: Transfer, b: Bulk)
    requires t.written <= |data| && (t.status.Done? <==> t.written == |data| && !t.status.Failed?)
    ensures Step(AfterTransfer(s, data, t), BulkWrite(b))
         == AfterTransfer(s, data, if t.status.StillWriting? then OneTransfer(|data|, t.written, b) else t)
  {
    if t.status.StillWriting? {
      match b
      case Taken(n) => TakenBulk(s, data, t.written, n);
      case Error(n) => ErrorBulk(s, data, t.written, n);
      case Timeout =>
    }
  }

  // The write worker's steps for one packet add up to the write loop of the stream.
  lemma {:induction false} BulkRunIsTransfer(s: State, data: seq<byte>, bulks: seq<Bulk>)
    requires s.worker == Writing(data, 0)
    ensures Run(s, BulkWrites(bulks)) == AfterTransfer(s, data, TransferOf(|data|, 0, bulks))
  {
    if bulks == [] {
      Unit(s.wire);
    } else {
      var n := |bulks| - 1;
      var t, b := TransferOf(|data|, 0, bulks[..n]), bulks[n];
      BulkRunIsTransfer(s, data, bulks[..n]);
      RunSnoc(s, BulkWrites(bulks[..n]), BulkWrite(b));
      TailAt(bulks, n);
      assert bulks[..n + 1] == bulks;
      TransferSnoc(|data|, 0, bulks[..n], b);
      BulkStep(s, data, t, b);
      if t.status.StillWriting? {
        TransferOne(|data|, t.written, b);
      }
    }
  }
}
