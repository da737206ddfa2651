// The way back: touch events from the client's input worker through either transport
// to the session loop's input backend.
module InputPath {
  import opened Wrappers
  import opened Bytes
  import opened Packets
  import opened Scanning
  import opened Seqs
  import opened Window
  import F = FramedStreams
  import I = InputEvents
  import W = UsbReadWorker

  const K_INPUT_EVENT: i8 := 0x20

  // What the client sends after its HELLO: touch events, and packets of other types.
  datatype ClientMessage = Touch(event: I.KInputEvent) | Other(packet: KPacket)

  function PacketOf(m: ClientMessage): KPacket {
    match m
    case Touch(event) => RawPacket(K_INPUT_EVENT, 0, 0, I.KEncode(event))
    case Other(packet) => packet
  }

  function PacketsOf(ms: seq<ClientMessage>): seq<KPacket> {
    if ms == [] then [] else [PacketOf(ms[0])] + PacketsOf(ms[1..])
  }

  predicate Sendable(m: ClientMessage) {
    m.Other? ==>
      var t := AsHost(m.packet).header.msgType;
      FromSendRaw(m.packet) && t != MSG_INPUT_EVENT && t != MSG_HELLO && t != MSG_DISCONNECT
  }

  // The events touched, as the host sees them.
  function Touched(ms: seq<ClientMessage>): seq<I.InputEvent> {
    if ms == [] then []
    else (if ms[0].Touch? then [I.Narrowed(ms[0].event)] else []) + Touched(ms[1..])
  }

  // The events a session loop hands to its input backend; a new HELLO ends a session
  // over USB.
  function HandedOver(ps: seq<Packet>, usb: bool): seq<I.InputEvent> {
    if ps == [] || ps[0].header.msgType == MSG_DISCONNECT || (usb && ps[0].header.msgType == MSG_HELLO) then []
    else EventIn(ps[0]) + HandedOver(ps[1..], usb)
  }

  function Decoded(payload: seq<byte>): seq<I.InputEvent> {
    match I.Decode(payload)
    case Some(event) => [event]
    case None => []
  }

  function EventIn(p: Packet): seq<I.InputEvent> {
    if p.header.msgType == MSG_INPUT_EVENT then Decoded(p.payload) else []
  }

  // A session is handed the events of all packets up to a DISCONNECT, or over USB a new
  // HELLO, and none after it.
  lemma {:induction false} HandedOverUpToEnd(a: seq<Packet>, d: Packet, b: seq<Packet>, usb: bool)
    requires forall p <- a :: p.header.msgType != 0xFF && (usb ==> p.header.msgType != 0x01)
    requires d.header.msgType == 0xFF || (usb && d.header.msgType == 0x01)
    ensures HandedOver(a + b, usb) == HandedOver(a, usb) + HandedOver(b, usb)
    ensures HandedOver(a + ([d] + b), usb) == HandedOver(a, usb)
    ensures |a| == 1 ==> HandedOver(a, usb) == if a[0].header.msgType == 0x20 then Decoded(a[0].payload) else []
  {
    if a == [] {
      Unit(b);
      Unit(HandedOver(b, usb));
      Unit([d] + b);
      assert ([d] + b)[0] == d;
    } else {
      assert a[0] in a;
      DropWithin(a, b, 1);
      DropWithin(a, [d] + b, 1);
      HandedOverUpToEnd(a[1..], d, b, usb);
      Assoc(EventIn(a[0]), HandedOver(a[1..], usb), HandedOver(b, usb));
      Unit(EventIn(a[0]));
    }
  }

  lemma TouchArrives(event: I.KInputEvent)
    ensures EventIn(AsHost(PacketOf(Touch(event)))) == [I.Narrowed(event)]
  {
    I.NarrowedIsEncoded(event);
    I.DecodeInvertsEncode(I.Narrowed(event), []);
  }

  lemma {:induction false} AllTouchesArrive(ms: seq<ClientMessage>, usb: bool)
    requires forall m <- ms :: Sendable(m)
    ensures HandedOver(AllAsHost(PacketsOf(ms)), usb) == Touched(ms)
  {
    if ms != [] {
      assert ms[0] in ms;
      var k, rest := PacketOf(ms[0]), PacketsOf(ms[1..]);
      DropFront([k], rest);
      DropFront([AsHost(k)], AllAsHost(rest));
      AllTouchesArrive(ms[1..], usb);
      if ms[0].Touch? {
        TouchArrives(ms[0].event);
      }
    }
  }

  lemma {:induction false} HandedOverPrefix(ps: seq<Packet>, qs: seq<Packet>, usb: bool)
    requires ps <= qs
    ensures HandedOver(ps, usb) <= HandedOver(qs, usb)
  {
    if ps != [] {
      HandedOverPrefix(ps[1..], qs[1..], usb);
    }
  }

  lemma {:induction false} SendableFromRaw(ms: seq<ClientMessage>)
    requires forall m <- ms :: Sendable(m)
    ensures AllFromSendRaw(PacketsOf(ms))
  {
    if ms != [] {
      assert ms[0] in ms;
      SendableFromRaw(ms[1..]);
      assert FromSendRaw(PacketOf(ms[0]));
    }
  }

  lemma ScanOfPrefix(c: seq<byte>, s: seq<byte>)
    requires c <= s
    ensures Scan(c).packets <= Scan(s).packets
  {
    Cut(s, |c|);
    SameFront(c, s);
    ScanAppend(c, s[|c|..]);
  }

  // The bytes the client writes for these messages.
  ghost function Written(ms: seq<ClientMessage>): seq<byte>
    requires forall m <- ms :: Sendable(m)
  {
    SendableFromRaw(ms);
    KEncodeAll(PacketsOf(ms))
  }

  lemma WrittenScans(ms: seq<ClientMessage>, usb: bool)
    requires forall m <- ms :: Sendable(m)
    ensures HandedOver(Scan(Written(ms)).packets, usb) == Touched(ms)
    ensures StrictScan(Written(ms)).error.None?
  {
    SendableFromRaw(ms);
    ClientStreamScans(PacketsOf(ms));
    AllTouchesArrive(ms, usb);
    SameLength(PacketsOf(ms));
    ScanIsLosslessIffStrict(Written(ms));
  }

  lemma {:induction false} SameLength(ks: seq<KPacket>)
    requires AllFromSendRaw(ks)
    ensures |EncodeAll(AllAsHost(ks))| == |KEncodeAll(ks)|
  {
    if ks != [] {
      assert ks[0] in ks && forall k <- ks[1..] :: k in ks;
      EncodersAgree(ks[0]);
      DropFront([AsHost(ks[0])], AllAsHost(ks[1..]));
      SameLength(ks[1..]);
    }
  }

  // Over USB, however the bytes are cut into reads and wherever they end, the backend is
  // handed the first of the events touched, in order, and all of them once all bytes have
  // been read.
  lemma TouchesReachUsbSession(ms: seq<ClientMessage>, chunks: seq<seq<byte>>, bytes: seq<byte>,
                               handed: seq<I.InputEvent>)
    requires (forall m <- ms :: Sendable(m)) && (forall c <- chunks :: c != [])
    requires bytes == W.Received(chunks) && bytes <= Written(ms)
    requires handed == HandedOver(W.FeedEach([], chunks).packets, true)
    ensures handed <= Touched(ms) && (bytes == Written(ms) ==> handed == Touched(ms))
  {
    W.ChunkingIsInvisible([], chunks);
    Unit(bytes);
    WrittenScans(ms, true);
    ScanOfPrefix(bytes, Written(ms));
    HandedOverPrefix(Scan(bytes).packets, Scan(Written(ms)).packets, true);
  }

  // The same over TCP, also when the read is dropped at its await any number of times.
  lemma TouchesReachTcpSession(ms: seq<ClientMessage>, events: seq<F.Event>, bytes: seq<byte>,
                               handed: seq<I.InputEvent>)
    requires forall m <- ms :: Sendable(m)
    requires bytes == F.Received(events) && bytes <= Written(ms)
    requires handed == HandedOver(F.Drive([], events).packets, false)
    ensures handed <= Touched(ms) && (bytes == Written(ms) ==> handed == Touched(ms))
  {
    F.DriveIsStrictScan([], events);
    Unit(bytes);
    WrittenScans(ms, false);
    StrictIsPrefixOfScan(bytes);
    ScanOfPrefix(bytes, Written(ms));
    HandedOverPrefix(StrictScan(bytes).packets, Scan(Written(ms)).packets, false);
  }
}
