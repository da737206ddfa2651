// What the host's two byte-stream parsers compute, as functions of the bytes:
// Scan resynchronises by dropping one byte at a bad header, StrictScan stops there.
module Scanning {
  import opened Wrappers
  import opened Bytes
  import opened Packets
  import opened Seqs

  // One look at the front of the buffer.
  datatype Front = NeedMore | Bad(error: PacketError) | Complete(packet: Packet)

  function Look(buf: seq<byte>): Front {
    if |buf| < HEADER_SIZE then NeedMore
    else
      match DecodeHeader(buf)
      case Failure(e) => Bad(e)
      case Success(h) =>
        if |buf| < HEADER_SIZE + h.payloadLen then NeedMore
        else Complete(Packet(h, buf[HEADER_SIZE..HEADER_SIZE + h.payloadLen]))
  }

  datatype Scanned = Scanned(packets: seq<Packet>, rest: seq<byte>)

  function Scan(buf: seq<byte>): Scanned
    decreases |buf|
  {
    match Look(buf)
    case NeedMore => Scanned([], buf)
    case Bad(_) => Scan(buf[1..])
    case Complete(p) => var tail := Scan(buf[Size(p)..]); Scanned([p] + tail.packets, tail.rest)
  }

  datatype Parsed = Parsed(packets: seq<Packet>, rest: seq<byte>, error: Option<PacketError>)

  function StrictScan(buf: seq<byte>): Parsed
    decreases |buf|
  {
    match Look(buf)
    case NeedMore => Parsed([], buf, None)
    case Bad(e) => Parsed([], buf, Some(e))
    case Complete(p) => var tail := StrictScan(buf[Size(p)..]); tail.(packets := [p] + tail.packets)
  }

  // ----- one look -----

  // A verdict on the front does not change when more bytes arrive.
  lemma LookIsStable(a: seq<byte>, b: seq<byte>)
    requires !Look(a).NeedMore?
    ensures Look(a + b) == Look(a)
  {
    assert (a + b)[..4] == a[..4];
    assert (a + b)[6..8] == a[6..8];
    assert (a + b)[8..12] == a[8..12];
    assert (a + b)[12..16] == a[12..16];
    if Look(a).Complete? {
      var n := Size(Look(a).packet);
      assert (a + b)[HEADER_SIZE..n] == a[HEADER_SIZE..n];
    }
  }

  lemma LookAgreesWithDecode(buf: seq<byte>)
    ensures Look(buf).Complete? <==> DecodePacket(buf).Success?
    ensures Look(buf).Complete? ==> DecodePacket(buf) == Success(Look(buf).packet)
    ensures Look(buf).NeedMore? <==> DecodePacket(buf).Failure? && DecodePacket(buf).error.IncompletePacket?
  {
  }

  lemma LookAtEncoded(p: Packet, t: seq<byte>)
    requires WellFormed(p)
    ensures Look(Encode(p) + t) == Complete(p)
  {
    DecodeInvertsEncode(p, t);
    LookAgreesWithDecode(Encode(p) + t);
  }

  lemma CompletePacketIsPrefix(buf: seq<byte>)
    requires Look(buf).Complete?
    ensures var p := Look(buf).packet;
            WellFormed(p) && Size(p) <= |buf| && buf == Encode(p) + buf[Size(p)..]
  {
    LookAgreesWithDecode(buf);
    EncodeInvertsDecode(buf);
  }

  // ----- the resynchronising scan -----

  // Chunk independence: scanning a and then the leftover with b appended is
  // scanning a + b in one go.
  lemma {:induction false} ScanAppend(a: seq<byte>, b: seq<byte>)
    ensures var first := Scan(a);
            var second := Scan(first.rest + b);
            Scan(a + b) == Scanned(first.packets + second.packets, second.rest)
    decreases |a|
  {
    match Look(a)
    case NeedMore =>
      Unit(Scan(a + b).packets);
    case Bad(_) =>
      LookIsStable(a, b);
      ScanAppend(a[1..], b);
      DropWithin(a, b, 1);
    case Complete(p) =>
      LookIsStable(a, b);
      var n := Size(p);
      ScanAppend(a[n..], b);
      DropWithin(a, b, n);
      var tail := Scan(a[n..]);
      Assoc([p], tail.packets, Scan(tail.rest + b).packets);
  }

  // Bounded buffering: what is left waits for a packet that is still incomplete.
  lemma {:induction false} ScanLeavesLessThanOnePacket(buf: seq<byte>)
    ensures Look(Scan(buf).rest).NeedMore?
    ensures |Scan(buf).rest| < HEADER_SIZE + MAX_PAYLOAD_SIZE
    ensures AllWellFormed(Scan(buf).packets)
    decreases |buf|
  {
    match Look(buf)
    case NeedMore =>
    case Bad(_) => ScanLeavesLessThanOnePacket(buf[1..]);
    case Complete(p) =>
      CompletePacketIsPrefix(buf);
      ScanLeavesLessThanOnePacket(buf[Size(p)..]);
  }

  lemma ScanOfOneEncoding(p: Packet, t: seq<byte>)
    requires WellFormed(p)
    ensures Scan(Encode(p) + t) == Scanned([p] + Scan(t).packets, Scan(t).rest)
  {
    LookAtEncoded(p, t);
    DropFront(Encode(p), t);
  }

  lemma {:induction false} ScanOfEncodings(ps: seq<Packet>, t: seq<byte>)
    requires AllWellFormed(ps)
    ensures Scan(EncodeAll(ps) + t) == Scanned(ps + Scan(t).packets, Scan(t).rest)
  {
    if ps == [] {
      Unit(t);
      Unit(Scan(t).packets);
    } else {
      Assoc(Encode(ps[0]), EncodeAll(ps[1..]), t);
      ScanOfOneEncoding(ps[0], EncodeAll(ps[1..]) + t);
      ScanOfEncodings(ps[1..], t);
      HeadTail(ps);
      Assoc([ps[0]], ps[1..], Scan(t).packets);
    }
  }

  // ----- recovery after garbage -----

  predicate MagicAt(s: seq<byte>, i: nat) {
    i + 4 <= |s| && s[i] == MAGIC[0] && s[i + 1] == MAGIC[1] && s[i + 2] == MAGIC[2] && s[i + 3] == MAGIC[3]
  }

  ghost predicate NoMagic(s: seq<byte>) {
    forall i: nat :: !MagicAt(s, i)
  }

  // "ORD1" has no border, so no match can straddle the end of the garbage.
  lemma NoMagicStraddles(g: seq<byte>, t: seq<byte>, i: nat)
    requires NoMagic(g) && i < |g|
    requires |t| < 4 ==> t == []
    requires |t| >= 4 ==> MagicAt(t, 0)
    ensures !MagicAt(g + t, i)
  {
    assert !MagicAt(g, i);
  }

  lemma LookNeedsMagic(buf: seq<byte>)
    requires |buf| >= HEADER_SIZE && !MagicAt(buf, 0)
    ensures Look(buf).Bad?
  {
  }

  lemma EncodingStartsWithMagic(p: Packet, t: seq<byte>)
    ensures MagicAt(Encode(p) + t, 0)
  {
  }

  lemma {:induction false} ScanSkipsGarbage(g: seq<byte>, t: seq<byte>)
    requires forall i: nat | i < |g| :: !MagicAt(g + t, i)
    requires |t| >= HEADER_SIZE
    ensures Scan(g + t) == Scan(t)
  {
    if g == [] {
      assert g + t == t;
    } else {
      assert !MagicAt(g + t, 0);
      LookNeedsMagic(g + t);
      assert (g + t)[1..] == g[1..] + t;
      forall i: nat | i < |g[1..]| ensures !MagicAt(g[1..] + t, i) {
        assert !MagicAt(g + t, i + 1);
      }
      ScanSkipsGarbage(g[1..], t);
    }
  }

  // Garbage without ORD1 in front of a non-empty run of packets costs nothing.
  lemma ScanRecoversAfterGarbage(g: seq<byte>, ps: seq<Packet>)
    requires NoMagic(g) && AllWellFormed(ps) && ps != []
    ensures Scan(g + EncodeAll(ps)) == Scanned(ps, [])
  {
    var t := EncodeAll(ps);
    EncodingStartsWithMagic(ps[0], EncodeAll(ps[1..]));
    forall i: nat | i < |g| ensures !MagicAt(g + t, i) {
      NoMagicStraddles(g, t, i);
    }
    ScanSkipsGarbage(g, t);
    ScanOfEncodings(ps, []);
    assert t + [] == t;
    assert ps + Scan([]).packets == ps;
  }

  // The same in mid-stream: the packets on both sides of the garbage come out.
  lemma ScanHealsMidStream(ps: seq<Packet>, g: seq<byte>, qs: seq<Packet>)
    requires NoMagic(g) && AllWellFormed(ps) && AllWellFormed(qs) && qs != []
    ensures Scan(EncodeAll(ps) + (g + EncodeAll(qs))) == Scanned(ps + qs, [])
  {
    ScanOfEncodings(ps, g + EncodeAll(qs));
    ScanRecoversAfterGarbage(g, qs);
  }

  // ----- the strict scan -----

  lemma {:induction false} StrictScanAppend(a: seq<byte>, b: seq<byte>)
    ensures var first := StrictScan(a);
            first.error.None? ==>
              var second := StrictScan(first.rest + b);
              StrictScan(a + b) == second.(packets := first.packets + second.packets)
    ensures StrictScan(a).error.Some? ==>
              StrictScan(a + b) == StrictScan(a).(rest := StrictScan(a).rest + b)
    decreases |a|
  {
    match Look(a)
    case NeedMore =>
      Unit(StrictScan(a + b).packets);
    case Bad(_) =>
      LookIsStable(a, b);
    case Complete(p) =>
      LookIsStable(a, b);
      var n := Size(p);
      StrictScanAppend(a[n..], b);
      DropWithin(a, b, n);
      var tail := StrictScan(a[n..]);
      Assoc([p], tail.packets, StrictScan(tail.rest + b).packets);
  }

  // The strict parser neither loses nor invents a byte.
  lemma {:induction false} StrictScanConserves(buf: seq<byte>, r: Parsed)
    requires r == StrictScan(buf)
    ensures EncodeAll(r.packets) + r.rest == buf
    decreases |buf|
  {
    if Look(buf).Complete? {
      var p := Look(buf).packet;
      CompletePacketIsPrefix(buf);
      var tail := StrictScan(buf[Size(p)..]);
      StrictScanConserves(buf[Size(p)..], tail);
      DropFront([p], tail.packets);
      Assoc(Encode(p), EncodeAll(tail.packets), tail.rest);
    } else {
      Unit(buf);
    }
  }

  // Up to its first error the strict parser agrees with the resynchronising one.
  lemma {:induction false} StrictIsPrefixOfScan(buf: seq<byte>)
    ensures StrictScan(buf).packets <= Scan(buf).packets
    ensures StrictScan(buf).error.None? ==>
              Scan(buf) == Scanned(StrictScan(buf).packets, StrictScan(buf).rest)
    decreases |buf|
  {
    if Look(buf).Complete? {
      StrictIsPrefixOfScan(buf[Size(Look(buf).packet)..]);
    }
  }

  lemma {:induction false} ScanNeverGrows(buf: seq<byte>)
    ensures |EncodeAll(Scan(buf).packets)| + |Scan(buf).rest| <= |buf|
    decreases |buf|
  {
    match Look(buf)
    case NeedMore =>
    case Bad(_) => ScanNeverGrows(buf[1..]);
    case Complete(p) => ScanNeverGrows(buf[Size(p)..]);
  }

  // The resynchronising parser drops no byte exactly on the streams that the
  // strict parser accepts.
  lemma {:induction false} ScanIsLosslessIffStrict(buf: seq<byte>)
    ensures StrictScan(buf).error.None?
       <==> |EncodeAll(Scan(buf).packets)| + |Scan(buf).rest| == |buf|
    decreases |buf|
  {
    match Look(buf)
    case NeedMore =>
    case Bad(_) => ScanNeverGrows(buf[1..]);
    case Complete(p) => ScanIsLosslessIffStrict(buf[Size(p)..]);
  }
}
