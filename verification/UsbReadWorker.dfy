// The host's USB read worker: an accumulator that is extended by every bulk read,
// drained packet by packet, and resynchronised one byte at a time.
module UsbReadWorker {
  import opened Wrappers
  import opened Bytes
  import opened Packets
  import opened Scanning
  import opened Seqs
  import opened Window

  const USB_READ_SIZE: nat := 65536

  // What the session is sent from a scan when its receiver takes no more than
  // limit packets before it is dropped.
  function Delivered(packets: seq<Packet>, limit: nat): seq<Packet> {
    if |packets| <= limit then packets else packets[..limit]
  }

  // The bytes that reach the accumulator: reads up to the first empty one.
  function Received(inputs: seq<seq<byte>>): seq<byte> {
    if inputs == [] || inputs[0] == [] then [] else inputs[0] + Received(inputs[1..])
  }

  // Reads add up until an empty one, which ends them.
  lemma {:induction false} ReceivedUpToEmpty(a: seq<seq<byte>>, b: seq<seq<byte>>)
    requires forall c <- a :: c != []
    ensures Received(a + b) == Received(a) + Received(b)
    ensures Received((a + [[]]) + b) == Received(a)
    ensures |a| == 1 ==> Received(a) == a[0]
  {
    Assoc(a, [[]], b);
    if a == [] {
      Seqs.Unit(b);
      Seqs.Unit(Received(b));
      assert ([[]] + b)[0] == [];
    } else {
      assert a[0] in a && forall c <- a[1..] :: c in a;
      DropWithin(a, b, 1);
      DropWithin(a, [[]] + b, 1);
      Assoc(a[1..], [[]], b);
      ReceivedUpToEmpty(a[1..], b);
      Assoc(a[0], Received(a[1..]), Received(b));
      if |a| == 1 {
        Seqs.Unit(a[0]);
      }
    }
  }

  class ReadWorker {
    const limit: nat
    var accumulator: seq<byte>
    var sent: seq<Packet>
    var stopped: bool
    ghost var fed: seq<byte>

    ghost predicate Valid()
      reads this
    {
      && sent == Delivered(Scan(fed).packets, limit)
      && (stopped ==> |Scan(fed).packets| > limit)
      && (!stopped ==> |sent| <= limit && Scan(fed) == Scanned(sent, accumulator))
    }

    constructor (limit: nat)
      ensures Valid() && !stopped && this.limit == limit
      ensures accumulator == [] && sent == [] && fed == []
    {
      this.limit := limit;
      accumulator, sent, stopped, fed := [], [], false, [];
    }

    // One read of n > 0 bytes and the drain loop after it.
    method Feed(chunk: seq<byte>)
      requires Valid() && !stopped && 0 < |chunk| <= USB_READ_SIZE
      modifies this
      ensures Valid() && fed == old(fed) + chunk
      ensures |accumulator| < HEADER_SIZE + MAX_PAYLOAD_SIZE + USB_READ_SIZE
      ensures !stopped ==> |accumulator| < HEADER_SIZE + MAX_PAYLOAD_SIZE
    {
      ScanLeavesLessThanOnePacket(fed);
      ScanAppend(fed, chunk);
      accumulator := accumulator + chunk;
      fed := fed + chunk;
      ScanLeavesLessThanOnePacket(accumulator);
      Drain();
    }

    method Drain()
      requires !stopped && |sent| <= limit
      requires Scan(fed) == Scanned(sent + Scan(accumulator).packets, Scan(accumulator).rest)
      modifies this`accumulator, this`sent, this`stopped
      ensures Valid() && |accumulator| <= old(|accumulator|)
      ensures !stopped ==> accumulator == old(Scan(accumulator).rest)
    {
      var waiting := false;
      while |accumulator| >= HEADER_SIZE && !waiting
        invariant !stopped && |sent| <= limit && |accumulator| <= old(|accumulator|)
        invariant Scan(fed) == Scanned(sent + Scan(accumulator).packets, Scan(accumulator).rest)
        invariant waiting ==> Look(accumulator).NeedMore?
        decreases |accumulator|, !waiting
      {
        var packet;
        waiting, packet := TakeFront();
        if packet.Some? {
          ghost var tail := Scan(accumulator).packets;
          Assoc(sent, [packet.value], tail);
          if |sent| == limit {
            stopped := true; // blocking_send failed: the receiver is gone
            DropFront(sent, [packet.value] + tail);
            return;
          }
          sent := sent + [packet.value];
        }
      }
      Seqs.Unit(sent);
    }

    // The body of the drain loop up to the send: take a packet off the front, or
    // find it incomplete, or drop a byte that starts no valid header.
    method TakeFront() returns (waiting: bool, packet: Option<Packet>)
      modifies this`accumulator
      ensures match old(Look(accumulator))
              case NeedMore => waiting && packet == None && accumulator == old(accumulator)
              case Bad(_) => !waiting && packet == None && accumulator == old(accumulator)[1..]
              case Complete(p) => !waiting && packet == Some(p) && accumulator == old(accumulator)[Size(p)..]
    {
      waiting, packet := false, None;
      if |accumulator| < HEADER_SIZE {
        return true, None;
      }
      var decoded := DecodeHeader(accumulator);
      if decoded.Success? {
        var totalLen := HEADER_SIZE + decoded.value.payloadLen;
        if |accumulator| >= totalLen {
          DrainedBytesDecode(accumulator);
          var drained := DecodePacket(accumulator[..totalLen]);
          accumulator := accumulator[totalLen..];
          if drained.Success? {
            packet := Some(drained.value);
          }
        } else {
          waiting := true;
        }
      } else {
        accumulator := accumulator[1..];
      }
    }

    // The worker's outer loop: an empty read, like an error, ends it.
    method Run(inputs: seq<seq<byte>>)
      requires Valid() && !stopped && fed == []
      requires forall r <- inputs :: |r| <= USB_READ_SIZE
      modifies this
      ensures Valid()
      ensures fed <= Received(inputs) && (!stopped ==> fed == Received(inputs))
    {
      var i := 0;
      Seqs.Unit(Received(inputs));
      while i < |inputs|
        invariant 0 <= i <= |inputs| && Valid() && !stopped
        invariant fed + Received(inputs[i..]) == Received(inputs)
      {
        if inputs[i] == [] {
          break;
        }
        assert inputs[i..][1..] == inputs[i + 1..];
        Assoc(fed, inputs[i], Received(inputs[i + 1..]));
        Feed(inputs[i]);
        if stopped {
          return;
        }
        i := i + 1;
      }
      Seqs.Unit(fed);
    }
  }

  // The bytes drained for a complete packet decode to it.
  lemma DrainedBytesDecode(buf: seq<byte>)
    requires Look(buf).Complete?
    ensures var p := Look(buf).packet;
            DecodePacket(buf[..Size(p)]) == Success(p)
  {
    var p := Look(buf).packet;
    CompletePacketIsPrefix(buf);
    DropFront(Encode(p), buf[Size(p)..]);
    Seqs.Unit(Encode(p));
    DecodeInvertsEncode(p, []);
  }

  // The parser alone, fed chunk by chunk from a given accumulator.
  function FeedEach(accumulator: seq<byte>, chunks: seq<seq<byte>>): Scanned
    decreases |chunks|
  {
    if chunks == [] then
      Scanned([], accumulator)
    else
      var first := Scan(accumulator + chunks[0]);
      var rest := FeedEach(first.rest, chunks[1..]);
      Scanned(first.packets + rest.packets, rest.rest)
  }

  // Chunk independence: however the bytes are cut into reads, the packets emitted
  // and the leftover are those of one scan of the whole input.
  lemma {:induction false} ChunkingIsInvisible(accumulator: seq<byte>, chunks: seq<seq<byte>>)
    requires Look(accumulator).NeedMore?
    requires forall c <- chunks :: c != []
    ensures FeedEach(accumulator, chunks) == Scan(accumulator + Received(chunks))
    decreases |chunks|
  {
    if chunks == [] {
      Seqs.Unit(accumulator);
    } else {
      var first := Scan(accumulator + chunks[0]);
      ScanLeavesLessThanOnePacket(accumulator + chunks[0]);
      assert chunks[0] in chunks && forall c <- chunks[1..] :: c in chunks;
      ChunkingIsInvisible(first.rest, chunks[1..]);
      ScanAppend(accumulator + chunks[0], Received(chunks[1..]));
      Assoc(accumulator, chunks[0], Received(chunks[1..]));
    }
  }

  // From the client's encoder through any chunking of the USB reads into the session:
  // exactly the packets sent, in order.
  lemma ClientPacketsReachSession(chunks: seq<seq<byte>>, ks: seq<KPacket>)
    requires AllFromSendRaw(ks) && (forall c <- chunks :: c != [])
    requires Received(chunks) == KEncodeAll(ks)
    ensures FeedEach([], chunks) == Scanned(AllAsHost(ks), [])
  {
    ChunkingIsInvisible([], chunks);
    Seqs.Unit(Received(chunks));
    ClientStreamScans(ks);
  }
}
