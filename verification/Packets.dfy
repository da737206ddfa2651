// The ORD/1 packet: a 16-byte little-endian header followed by the payload.
module Packets {
  import opened Wrappers
  import opened Bytes
  import opened Seqs

  const MAGIC: seq<byte> := [0x4F, 0x52, 0x44, 0x31] // "ORD1"
  const PROTOCOL_VERSION: byte := 1
  const HEADER_SIZE: nat := 16
  const MAX_PAYLOAD_SIZE: nat := 16 * 1024 * 1024

  const MSG_HELLO: byte := 0x01
  const MSG_HELLO_ACK: byte := 0x02
  const MSG_DISPLAY_CONFIG: byte := 0x05
  const MSG_VIDEO_DATA: byte := 0x11
  const MSG_INPUT_EVENT: byte := 0x20
  const MSG_PING: byte := 0x30
  const MSG_PONG: byte := 0x31
  const MSG_METRICS: byte := 0x40
  const MSG_DISCONNECT: byte := 0xFF

  const FLAG_KEYFRAME: u16 := 0x0001
  const FLAG_END_OF_FRAME: u16 := 0x0002

  datatype Header = Header(version: byte, msgType: byte, flags: u16, sequence: u32, payloadLen: u32)

  datatype Packet = Packet(header: Header, payload: seq<byte>)

  datatype PacketError =
    | InvalidMagic(found: seq<byte>)
    | UnsupportedVersion(version: byte)
    | IncompletePacket(expected: nat, available: nat)
    | PayloadTooLarge(size: nat)

  // The constructor casts the length to 32 bits, so it wraps for huge payloads.
  function NewPacket(msgType: byte, flags: u16, sequence: u32, payload: seq<byte>): Packet {
    Packet(Header(PROTOCOL_VERSION, msgType, flags, sequence, |payload| % 0x1_0000_0000), payload)
  }

  function HeaderBytes(h: Header): (bytes: seq<byte>)
    ensures |bytes| == HEADER_SIZE
  {
    MAGIC + [h.version, h.msgType] + LE(h.flags, 2) + LE(h.sequence, 4) + LE(h.payloadLen, 4)
  }

  function Encode(p: Packet): (bytes: seq<byte>)
    ensures |bytes| == Size(p)
  {
    HeaderBytes(p.header) + p.payload
  }

  function Size(p: Packet): nat {
    HEADER_SIZE + |p.payload|
  }

  function EncodeAll(ps: seq<Packet>): seq<byte> {
    if ps == [] then [] else Encode(ps[0]) + EncodeAll(ps[1..])
  }

  function DecodeHeader(bytes: seq<byte>): Result<Header, PacketError> {
    if |bytes| < HEADER_SIZE then
      Failure(IncompletePacket(HEADER_SIZE, |bytes|))
    else if bytes[..4] != MAGIC then
      Failure(InvalidMagic(bytes[..4]))
    else if bytes[4] != PROTOCOL_VERSION then
      Failure(UnsupportedVersion(bytes[4]))
    else
      var payloadLen := U32At(bytes, 12);
      if payloadLen > MAX_PAYLOAD_SIZE then
        Failure(PayloadTooLarge(payloadLen))
      else
        Success(Header(bytes[4], bytes[5], U16At(bytes, 6), U32At(bytes, 8), payloadLen))
  }

  function DecodePacket(bytes: seq<byte>): Result<Packet, PacketError> {
    match DecodeHeader(bytes)
    case Failure(e) => Failure(e)
    case Success(header) =>
      var totalLen := HEADER_SIZE + header.payloadLen;
      if |bytes| < totalLen then
        Failure(IncompletePacket(totalLen, |bytes|))
      else
        Success(Packet(header, bytes[HEADER_SIZE..totalLen]))
  }

  // The packets a decoder can hand out, and the ones that survive a round trip.
  predicate WellFormed(p: Packet) {
    && p.header.version == PROTOCOL_VERSION
    && p.header.payloadLen == |p.payload| <= MAX_PAYLOAD_SIZE
  }

  ghost predicate AllWellFormed(ps: seq<Packet>) {
    forall p <- ps :: WellFormed(p)
  }

  // ----- the header codec -----

  lemma HeaderFields(h: Header, t: seq<byte>)
    ensures var b := HeaderBytes(h) + t;
            && b[..4] == MAGIC && b[4] == h.version && b[5] == h.msgType
            && U16At(b, 6) == h.flags && U32At(b, 8) == h.sequence && U32At(b, 12) == h.payloadLen
  {
    Pow256Values();
    var b := HeaderBytes(h) + t;
    assert b[..4] == MAGIC;
    assert b[6..8] == LE(h.flags, 2);
    assert b[8..12] == LE(h.sequence, 4);
    assert b[12..16] == LE(h.payloadLen, 4);
    FromLEInvertsLE(h.flags, 2);
    FromLEInvertsLE(h.sequence, 4);
    FromLEInvertsLE(h.payloadLen, 4);
  }

  lemma DecodedHeaderBytes(bytes: seq<byte>)
    requires DecodeHeader(bytes).Success?
    ensures HeaderBytes(DecodeHeader(bytes).value) == bytes[..HEADER_SIZE]
  {
    var h := DecodeHeader(bytes).value;
    LEInvertsFromLE(bytes[6..8]);
    LEInvertsFromLE(bytes[8..12]);
    LEInvertsFromLE(bytes[12..16]);
    assert bytes[..HEADER_SIZE]
        == bytes[..4] + [bytes[4], bytes[5]] + bytes[6..8] + bytes[8..12] + bytes[12..16];
  }

  // On the wire the low byte of every field comes first.
  lemma HeaderLayout(h: Header)
    ensures var b := HeaderBytes(h);
            && b[..6] == [0x4F, 0x52, 0x44, 0x31, h.version, h.msgType]
            && h.flags == LowFirst2(b[6], b[7])
            && h.sequence == LowFirst4(b[8], b[9], b[10], b[11])
            && h.payloadLen == LowFirst4(b[12], b[13], b[14], b[15])
  {
    var b := HeaderBytes(h);
    TwoBytes(h.flags);
    FourBytes(h.sequence);
    FourBytes(h.payloadLen);
    assert b[6..8] == LE(h.flags, 2) && b[8..12] == LE(h.sequence, 4) && b[12..16] == LE(h.payloadLen, 4);
  }

  // A header decodes to itself, or is refused for its version first and its length then.
  lemma HeaderVerdicts(h: Header, t: seq<byte>)
    ensures DecodeHeader(HeaderBytes(h) + t)
         == if h.version != 1 then Failure(UnsupportedVersion(h.version))
            else if h.payloadLen > 0x100_0000 then Failure(PayloadTooLarge(h.payloadLen))
            else Success(h)
  {
    HeaderFields(h, t);
  }

  // ----- the packet codec -----

  // Whatever follows a well-formed packet in the buffer, decoding returns it.
  lemma DecodeInvertsEncode(p: Packet, t: seq<byte>)
    requires WellFormed(p)
    ensures DecodePacket(Encode(p) + t) == Success(p)
  {
    assert Encode(p) + t == HeaderBytes(p.header) + (p.payload + t);
    HeaderFields(p.header, p.payload + t);
    assert (Encode(p) + t)[HEADER_SIZE..Size(p)] == p.payload;
  }

  // A decoded packet is well formed and encodes to exactly the bytes it came from.
  lemma EncodeInvertsDecode(bytes: seq<byte>)
    requires DecodePacket(bytes).Success?
    ensures var p := DecodePacket(bytes).value;
            WellFormed(p) && Size(p) <= |bytes| && Encode(p) == bytes[..Size(p)]
  {
    DecodedHeaderBytes(bytes);
    var p := DecodePacket(bytes).value;
    assert bytes[..Size(p)] == bytes[..HEADER_SIZE] + bytes[HEADER_SIZE..Size(p)];
  }

  // A packet of which the end is missing is incomplete, and says what it lacks.
  lemma CutPacketVerdict(p: Packet, n: nat)
    requires WellFormed(p) && n < Size(p)
    ensures DecodePacket(Encode(p)[..n]) == Failure(IncompletePacket(if n < 16 then 16 else 16 + |p.payload|, n))
  {
    if n >= HEADER_SIZE {
      DropWithin(HeaderBytes(p.header), [], HEADER_SIZE);
      assert Encode(p)[..n] == HeaderBytes(p.header) + p.payload[..n - HEADER_SIZE];
      HeaderVerdicts(p.header, p.payload[..n - HEADER_SIZE]);
    }
  }

  // A packet the host builds survives the round trip exactly when its payload
  // is within the 16 MB bound, also where the 32-bit length cast wraps.
  lemma RoundTripIffWithinBound(msgType: byte, flags: u16, sequence: u32, payload: seq<byte>, t: seq<byte>)
    ensures var p := NewPacket(msgType, flags, sequence, payload);
            DecodePacket(Encode(p) + t) == Success(p) <==> |payload| <= MAX_PAYLOAD_SIZE
  {
    var p := NewPacket(msgType, flags, sequence, payload);
    if |payload| <= MAX_PAYLOAD_SIZE {
      DecodeInvertsEncode(p, t);
    } else if DecodePacket(Encode(p) + t) == Success(p) {
      EncodeInvertsDecode(Encode(p) + t);
      assert false;
    }
  }

  // ----- what the packets of a session say -----

  // The packet of a video frame: both flag bits, the number wrapped at 32 bits.
  predicate ShowsFrame(p: Packet, isKeyframe: bool, data: seq<byte>, number: nat) {
    && p.header.version == 1 && p.header.msgType == 0x11 && p.payload == data
    && (p.header.flags % 2 == 1 <==> isKeyframe) && p.header.flags / 2 % 2 == 1 && p.header.flags < 4
    && p.header.sequence == number % 0x1_0000_0000
    && p.header.payloadLen == |data| % 0x1_0000_0000
  }

  // The PONG that echoes a PING.
  predicate Answers(pong: Packet, ping: Packet) {
    && pong.header == Header(1, 0x31, 0, ping.header.sequence, |ping.payload| % 0x1_0000_0000)
    && pong.payload == ping.payload
  }

  // ----- concatenations of encoded packets -----

  lemma {:induction false} EncodeAllAppend(ps: seq<Packet>, qs: seq<Packet>)
    ensures EncodeAll(ps + qs) == EncodeAll(ps) + EncodeAll(qs)
  {
    if ps == [] {
      Unit(qs);
      Unit(EncodeAll(qs));
    } else {
      EncodeAllAppend(ps[1..], qs);
      DropWithin(ps, qs, 1);
      Assoc(Encode(ps[0]), EncodeAll(ps[1..]), EncodeAll(qs));
    }
  }

  lemma EncodeAllSnoc(ps: seq<Packet>, p: Packet)
    ensures EncodeAll(ps + [p]) == EncodeAll(ps) + Encode(p)
  {
    EncodeAllAppend(ps, [p]);
    assert EncodeAll([p]) == Encode(p) + EncodeAll([]);
  }

  lemma EncodeAllOne(p: Packet)
    ensures EncodeAll([p]) == Encode(p)
  {
    EncodeAllSnoc([], p);
    Unit([p]);
    Unit(Encode(p));
  }

  lemma EncodeAllTwo(p: Packet, q: Packet)
    ensures EncodeAll([p] + [q]) == Encode(p) + Encode(q)
  {
    EncodeAllOne(p);
    EncodeAllSnoc([p], q);
  }

  // ----- the buffer-filling encoders -----

  method EncodeHeader(h: Header) returns (buf: array<byte>)
    ensures fresh(buf) && buf[..] == HeaderBytes(h)
  {
    buf := new byte[HEADER_SIZE](_ => 0);
    var pos := WriteAll(buf, 0, MAGIC);
    pos := WriteLE(buf, pos, h.version, 1);
    pos := WriteLE(buf, pos, h.msgType, 1);
    assert buf[..pos] == MAGIC + [h.version, h.msgType];
    pos := WriteLE(buf, pos, h.flags, 2);
    assert buf[..pos] == MAGIC + [h.version, h.msgType] + LE(h.flags, 2);
    pos := WriteLE(buf, pos, h.sequence, 4);
    assert buf[..pos] == MAGIC + [h.version, h.msgType] + LE(h.flags, 2) + LE(h.sequence, 4);
    pos := WriteLE(buf, pos, h.payloadLen, 4);
  }

  method EncodePacket(p: Packet) returns (bytes: seq<byte>)
    ensures bytes == Encode(p)
  {
    var header := EncodeHeader(p.header);
    bytes := [];
    bytes := bytes + header[..];
    bytes := bytes + p.payload;
  }
}
