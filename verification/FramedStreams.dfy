// The host's TCP framing: a strict incremental parser whose read future may be
// dropped at its only await by the session's select! loop, and the two writers.
module FramedStreams {
  import opened Wrappers
  import opened Bytes
  import opened Packets
  import opened Scanning
  import opened Seqs

  const TCP_READ_SIZE: nat := 16384

  // What happens at the await inside read_packet. A read of no bytes is the end
  // of the stream; Cancel is the caller dropping the future there.
  datatype Event = Data(bytes: seq<byte>) | IoError | Cancel

  datatype ReadError = Malformed(error: PacketError) | ConnectionClosed | Io

  datatype Outcome = Returned(packet: Packet) | Failed(error: ReadError) | Cancelled | Pending

  // The outcome of one call, the buffer it leaves and the events still to come.
  datatype Call = Call(outcome: Outcome, buf: seq<byte>, events: seq<Event>)

  function ReadCall(buf: seq<byte>, events: seq<Event>): (c: Call)
    ensures |c.events| <= |events|
    ensures c.outcome.Returned? && |c.events| == |events| ==> |c.buf| < |buf|
    ensures c.outcome.Cancelled? ==> |c.events| < |events|
    decreases |events|
  {
    match Look(buf)
    case Complete(p) => Call(Returned(p), buf[Size(p)..], events)
    case Bad(e) => Call(Failed(Malformed(e)), buf, events)
    case NeedMore =>
      if events == [] then Call(Pending, buf, [])
      else
        match events[0]
        case Cancel => Call(Cancelled, buf, events[1..])
        case IoError => Call(Failed(Io), buf, events[1..])
        case Data(bytes) =>
          if bytes == [] then Call(Failed(ConnectionClosed), buf, events[1..])
          else ReadCall(buf + bytes, events[1..])
  }

  // A session: read_packet is called again after every packet and every
  // cancellation, and no more after an error.
  datatype Driven = Driven(packets: seq<Packet>, error: Option<ReadError>)

  function Drive(buf: seq<byte>, events: seq<Event>): Driven
    decreases |events|, |buf|
  {
    var c := ReadCall(buf, events);
    match c.outcome
    case Returned(p) => var tail := Drive(c.buf, c.events); tail.(packets := [p] + tail.packets)
    case Cancelled => Drive(c.buf, c.events)
    case Failed(e) => Driven([], Some(e))
    case Pending => Driven([], None)
  }

  function Uncancelled(events: seq<Event>): seq<Event> {
    if events == [] then []
    else if events[0].Cancel? then Uncancelled(events[1..])
    else [events[0]] + Uncancelled(events[1..])
  }

  predicate Ends(event: Event) {
    event.IoError? || event == Data([])
  }

  // The bytes the peer's stream delivers before it ends, and how it ends.
  function Received(events: seq<Event>): seq<byte> {
    if events == [] || Ends(events[0]) then []
    else if events[0].Cancel? then Received(events[1..])
    else events[0].bytes + Received(events[1..])
  }

  function Ending(events: seq<Event>): Option<ReadError> {
    if events == [] then None
    else if events[0].IoError? then Some(Io)
    else if events[0] == Data([]) then Some(ConnectionClosed)
    else Ending(events[1..])
  }

  // ----- cancel safety -----

  lemma DriveStep(buf: seq<byte>, events: seq<Event>)
    ensures Look(buf).Complete? ==>
              var p := Look(buf).packet;
              var tail := Drive(buf[Size(p)..], events);
              Drive(buf, events) == tail.(packets := [p] + tail.packets)
    ensures Look(buf).Bad? ==> Drive(buf, events) == Driven([], Some(Malformed(Look(buf).error)))
    ensures Look(buf).NeedMore? && events != [] && events[0].Data? && events[0].bytes != [] ==>
              Drive(buf, events) == Drive(buf + events[0].bytes, events[1..])
  {
  }

  // Dropping the read at its await, any number of times and anywhere, changes
  // neither the packets nor the final error.
  lemma {:induction false} CancelSafety(buf: seq<byte>, events: seq<Event>)
    ensures Drive(buf, events) == Drive(buf, Uncancelled(events))
    decreases |events|, |buf|
  {
    var calm := Uncancelled(events);
    DriveStep(buf, events);
    DriveStep(buf, calm);
    match Look(buf)
    case Complete(p) => CancelSafety(buf[Size(p)..], events);
    case Bad(_) =>
    case NeedMore =>
      if events != [] {
        if events[0].Cancel? {
          CancelSafety(buf, events[1..]);
        } else if events[0].Data? && events[0].bytes != [] {
          DropFront([events[0]], Uncancelled(events[1..]));
          CancelSafety(buf + events[0].bytes, events[1..]);
        }
      }
  }

  // Whatever the chunking and the cancellations, the session gets the packets of
  // one strict scan of the bytes received, then its error, or else the stream's.
  lemma {:induction false} DriveIsStrictScan(buf: seq<byte>, events: seq<Event>)
    ensures var whole := StrictScan(buf + Received(events));
            Drive(buf, events) == Driven(whole.packets,
                                         if whole.error.Some? then Some(Malformed(whole.error.value))
                                         else Ending(events))
    decreases |events|, |buf|
  {
    var more := Received(events);
    DriveStep(buf, events);
    match Look(buf)
    case Complete(p) =>
      LookIsStable(buf, more);
      DropWithin(buf, more, Size(p));
      DriveIsStrictScan(buf[Size(p)..], events);
    case Bad(_) => LookIsStable(buf, more);
    case NeedMore =>
      if events == [] || Ends(events[0]) {
        Unit(buf);
      } else if events[0].Cancel? {
        DriveIsStrictScan(buf, events[1..]);
      } else {
        Assoc(buf, events[0].bytes, Received(events[1..]));
        DriveIsStrictScan(buf + events[0].bytes, events[1..]);
      }
  }

  // Reads add up and cancellations do not count, until a read of no bytes closes the
  // connection or one fails; what is there after it makes no difference.
  lemma {:induction false} ReceivedUpToEnd(a: seq<Event>, b: seq<Event>, io: bool)
    requires forall e <- a :: e.Cancel? || (e.Data? && e.bytes != [])
    ensures Received(a + b) == Received(a) + Received(b) && Ending(a) == None
    ensures var end := if io then IoError else Data([]);
            && Received(a + ([end] + b)) == Received(a)
            && Ending(a + ([end] + b)) == Some(if io then Io else ConnectionClosed)
    ensures |a| == 1 ==> Received(a) == if a[0].Data? then a[0].bytes else []
  {
    var end := if io then IoError else Data([]);
    if a == [] {
      Unit(b);
      Unit(Received(b));
      Unit([end] + b);
      assert ([end] + b)[0] == end;
    } else {
      assert a[0] in a;
      DropWithin(a, b, 1);
      DropWithin(a, [end] + b, 1);
      ReceivedUpToEnd(a[1..], b, io);
      if a[0].Data? {
        Assoc(a[0].bytes, Received(a[1..]), Received(b));
        Unit(a[0].bytes);
      }
    }
  }

  // The TCP parser's packets are a prefix of those the USB accumulator emits on
  // the same bytes, and all of them when it meets no malformed header.
  lemma StrictReaderIsPrefixOfAccumulator(events: seq<Event>)
    ensures Drive([], events).packets <= Scan(Received(events)).packets
    ensures !(Drive([], events).error.Some? && Drive([], events).error.value.Malformed?) ==>
              Drive([], events).packets == Scan(Received(events)).packets
  {
    DriveIsStrictScan([], events);
    Unit(Received(events));
    StrictIsPrefixOfScan(Received(events));
    EndingIsNeverMalformed(events);
  }

  lemma {:induction false} EndingIsNeverMalformed(events: seq<Event>)
    ensures Ending(events).Some? ==> !Ending(events).value.Malformed?
  {
    if events != [] {
      EndingIsNeverMalformed(events[1..]);
    }
  }

  // ----- the object -----

  class FramedStream {
    var readBuf: seq<byte>
    var wire: seq<byte>
    ghost var received: seq<byte>
    ghost var returned: seq<Packet>

    // No byte is lost or repeated, and the buffer stays bounded.
    ghost predicate Valid()
      reads this
    {
      && EncodeAll(returned) + readBuf == received
      && |readBuf| < HEADER_SIZE + MAX_PAYLOAD_SIZE + TCP_READ_SIZE
    }

    constructor ()
      ensures Valid() && readBuf == [] && wire == [] && received == [] && returned == []
    {
      readBuf, wire, received, returned := [], [], [], [];
    }

    method ReadPacket(events: seq<Event>) returns (outcome: Outcome, rest: seq<Event>)
      requires Valid()
      requires forall e <- events :: e.Data? ==> |e.bytes| <= TCP_READ_SIZE
      modifies this`readBuf, this`received, this`returned
      ensures Valid()
      ensures Call(outcome, readBuf, rest) == ReadCall(old(readBuf), events)
      ensures returned == if outcome.Returned? then old(returned) + [outcome.packet] else old(returned)
      ensures |rest| <= |events| && rest == events[|events| - |rest|..]
    {
      var i := 0;
      while true
        invariant 0 <= i <= |events|
        invariant Valid() && returned == old(returned)
        invariant ReadCall(readBuf, events[i..]) == ReadCall(old(readBuf), events)
        decreases |events| - i
      {
        var taken := TakeBuffered();
        if taken.Some? {
          return taken.value, events[i..];
        }
        if i == |events| {
          return Pending, [];
        }
        DropDrop(events, i, 1);
        var event := events[i];
        i := i + 1;
        if event.Cancel? {
          return Cancelled, events[i..];
        } else if event.IoError? {
          return Failed(Io), events[i..];
        } else if event.bytes == [] {
          return Failed(ConnectionClosed), events[i..];
        }
        assert event in events;
        Assoc(EncodeAll(returned), readBuf, event.bytes);
        readBuf := readBuf + event.bytes;
        received := received + event.bytes;
      }
    }

    // The top of the read loop: hand out the packet at the front of the buffer, or
    // fail on its header, or find that more bytes are needed.
    method TakeBuffered() returns (taken: Option<Outcome>)
      requires Valid()
      modifies this`readBuf, this`returned
      ensures Valid()
      ensures match old(Look(readBuf))
              case NeedMore => taken == None && readBuf == old(readBuf) && |readBuf| < HEADER_SIZE + MAX_PAYLOAD_SIZE
              case Bad(e) => taken == Some(Failed(Malformed(e))) && readBuf == old(readBuf)
              case Complete(p) => taken == Some(Returned(p)) && readBuf == old(readBuf)[Size(p)..]
      ensures returned == if taken.Some? && taken.value.Returned? then old(returned) + [taken.value.packet]
                          else old(returned)
    {
      if |readBuf| >= HEADER_SIZE {
        HeaderOfPrefix(readBuf);
        var decoded := DecodeHeader(readBuf[..HEADER_SIZE]);
        if decoded.Failure? {
          return Some(Failed(Malformed(decoded.error)));
        }
        var totalLen := HEADER_SIZE + decoded.value.payloadLen;
        if |readBuf| >= totalLen {
          var packet := Packet(decoded.value, readBuf[HEADER_SIZE..totalLen]);
          TakeFront(returned, readBuf);
          readBuf := readBuf[totalLen..];
          returned := returned + [packet];
          return Some(Returned(packet));
        }
      }
      taken := None;
    }

    // The session loop's use of it: call again after a packet or a cancellation.
    method Serve(events: seq<Event>) returns (packets: seq<Packet>, error: Option<ReadError>)
      requires Valid()
      requires forall e <- events :: e.Data? ==> |e.bytes| <= TCP_READ_SIZE
      modifies this`readBuf, this`received, this`returned
      ensures Valid() && returned == old(returned) + packets
      ensures Driven(packets, error) == Drive(old(readBuf), events)
    {
      packets := [];
      var rest := events;
      Unit(returned);
      Unit(Drive(readBuf, events).packets);
      while true
        invariant Valid() && returned == old(returned) + packets
        invariant forall e <- rest :: e.Data? ==> |e.bytes| <= TCP_READ_SIZE
        invariant var tail := Drive(readBuf, rest);
                  Drive(old(readBuf), events) == tail.(packets := packets + tail.packets)
        decreases |rest|, |readBuf|
      {
        var outcome;
        outcome, rest := ReadPacket(rest);
        match outcome {
          case Returned(p) =>
            Assoc(old(returned), packets, [p]);
            Assoc(packets, [p], Drive(readBuf, rest).packets);
            packets := packets + [p];
          case Cancelled =>
          case Failed(e) => Unit(packets); return packets, Some(e);
          case Pending => Unit(packets); return packets, None;
        }
      }
    }

    // The socket takes room more bytes and then fails.
    method WriteAll(bytes: seq<byte>, room: nat) returns (ok: bool, left: nat)
      modifies this`wire
      ensures ok <==> |bytes| <= room
      ensures wire == old(wire) + if ok then bytes else bytes[..room]
      ensures left == if ok then room - |bytes| else 0
    {
      ok := |bytes| <= room;
      wire := wire + if ok then bytes else bytes[..room];
      left := if ok then room - |bytes| else 0;
    }

    method WritePacket(packet: Packet, room: nat) returns (ok: bool, left: nat)
      modifies this`wire
      ensures ok <==> Size(packet) <= room
      ensures wire == old(wire) + if ok then Encode(packet) else Encode(packet)[..room]
      ensures left == if ok then room - Size(packet) else 0
    {
      var encoded := EncodePacket(packet);
      ok, left := WriteAll(encoded, room);
    }

    // The copy-free path puts the bytes of an ordinary packet on the wire.
    method WriteFrameData(sequence: u32, flags: u16, payload: seq<byte>, room: nat) returns (ok: bool, left: nat)
      modifies this`wire
      ensures var packet := NewPacket(MSG_VIDEO_DATA, flags, sequence, payload);
              && (ok <==> Size(packet) <= room)
              && wire == old(wire) + (if ok then Encode(packet) else Encode(packet)[..room])
              && left == if ok then room - Size(packet) else 0
    {
      ghost var packet := NewPacket(MSG_VIDEO_DATA, flags, sequence, payload);
      var header := Header(PROTOCOL_VERSION, MSG_VIDEO_DATA, flags, sequence, |payload| % 0x1_0000_0000);
      var headerBytes := EncodeHeader(header);
      ghost var wire0, head := wire, headerBytes[..];
      ok, left := WriteAll(headerBytes[..], room);
      if !ok {
        DropWithin(head, payload, room);
        return;
      }
      ok, left := WriteAll(payload, left);
      Assoc(wire0, head, payload);
      if !ok {
        assert Encode(packet)[..room] == head + payload[..room - |head|];
        Assoc(wire0, head, payload[..room - |head|]);
      }
    }
  }

  lemma HeaderOfPrefix(buf: seq<byte>)
    requires |buf| >= HEADER_SIZE
    ensures DecodeHeader(buf[..HEADER_SIZE]) == DecodeHeader(buf)
  {
    var b := buf[..HEADER_SIZE];
    assert b[..4] == buf[..4] && b[6..8] == buf[6..8] && b[8..12] == buf[8..12] && b[12..16] == buf[12..16];
  }

  // Handing out the packet at the front of the buffer moves its bytes over.
  lemma TakeFront(returned: seq<Packet>, buf: seq<byte>)
    requires Look(buf).Complete?
    ensures var p := Look(buf).packet;
            EncodeAll(returned + [p]) + buf[Size(p)..] == EncodeAll(returned) + buf
  {
    var p := Look(buf).packet;
    CompletePacketIsPrefix(buf);
    EncodeAllSnoc(returned, p);
    Assoc(EncodeAll(returned), Encode(p), buf[Size(p)..]);
  }
}
