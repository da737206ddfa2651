// What the Android client's sliding-window packet readers compute, as functions
// of the bytes, and how they relate to the host's parsers.
module Window {
  import opened Bytes
  import opened Packets
  import opened Scanning
  import opened Seqs

  // The size of UsbAccessoryTransport's receive buffer.
  const RX_SIZE: nat := 65536

  // Kotlin's packet: every header field is signed.
  datatype KHeader = KHeader(version: i8, msgType: i8, flags: i16, sequence: i32, payloadLen: i32)

  datatype KPacket = KPacket(header: KHeader, payload: seq<byte>)

  function AsHost(k: KPacket): Packet {
    Packet(Header(Unsigned(k.header.version, 0x100),
                  Unsigned(k.header.msgType, 0x100),
                  Unsigned(k.header.flags, 0x1_0000),
                  Unsigned(k.header.sequence, 0x1_0000_0000),
                  Unsigned(k.header.payloadLen, 0x1_0000_0000)),
           k.payload)
  }

  function AsClient(p: Packet): KPacket {
    KPacket(KHeader(Signed(p.header.version, 0x100),
                    Signed(p.header.msgType, 0x100),
                    Signed(p.header.flags, 0x1_0000),
                    Signed(p.header.sequence, 0x1_0000_0000),
                    Signed(p.header.payloadLen, 0x1_0000_0000)),
            p.payload)
  }

  function AllAsHost(ks: seq<KPacket>): (ps: seq<Packet>)
    ensures |ps| == |ks|
  {
    if ks == [] then [] else [AsHost(ks[0])] + AllAsHost(ks[1..])
  }

  function AllAsClient(ps: seq<Packet>): (ks: seq<KPacket>)
    ensures |ks| == |ps|
  {
    if ps == [] then [] else [AsClient(ps[0])] + AllAsClient(ps[1..])
  }

  // The position of the first "ORD1", or |s| when there is none.
  function FindMagic(s: seq<byte>): (i: nat)
    ensures i <= |s|
    ensures i < |s| <==> MagicAt(s, i)
    ensures forall j: nat | j < i :: !MagicAt(s, j)
  {
    if |s| < 4 then
      |s|
    else if MagicAt(s, 0) then
      0
    else
      var i := FindMagic(s[1..]);
      assert forall j: nat :: MagicAt(s, j + 1) <==> MagicAt(s[1..], j);
      assert forall j: nat | j < i + 1 :: !MagicAt(s, j) by {
        forall j: nat | j < i + 1 ensures !MagicAt(s, j) {
          assert j > 0 ==> (MagicAt(s, (j - 1) + 1) <==> MagicAt(s[1..], j - 1));
        }
      }
      i + 1
  }

  datatype ReadResult =
    | Eof
    | BadLength(length: i32, rest: seq<byte>)
    | Got(packet: KPacket, rest: seq<byte>)

  // What the caller of readPacket sees of it: an exception or a packet.
  datatype Reply = EofException | IllegalLength(length: i32) | Read(packet: KPacket)

  function ReplyOf(r: ReadResult): Reply {
    match r
    case Eof => EofException
    case BadLength(length, _) => IllegalLength(length)
    case Got(packet, _) => Read(packet)
  }

  // The twelve header bytes that follow the magic.
  function RestHeader(t: seq<byte>): KHeader
    requires |t| >= 12
  {
    KHeader(Signed(t[0], 0x100), Signed(t[1], 0x100), Signed(U16At(t, 2), 0x1_0000),
            Signed(U32At(t, 4), 0x1_0000_0000), Signed(U32At(t, 8), 0x1_0000_0000))
  }

  function ReadAfterMagic(t: seq<byte>): ReadResult {
    if |t| < 12 then Eof
    else
      var h := RestHeader(t);
      if h.payloadLen < 0 || h.payloadLen > MAX_PAYLOAD_SIZE then BadLength(h.payloadLen, t[12..])
      else if |t| < 12 + h.payloadLen then Eof
      else Got(KPacket(h, t[12..12 + h.payloadLen]), t[12 + h.payloadLen..])
  }

  // One readPacket call on a stream that will deliver s and then end.
  function WindowRead(s: seq<byte>): (r: ReadResult)
    ensures r.Got? ==> |r.rest| < |s|
  {
    var i := FindMagic(s);
    if i == |s| then Eof else ReadAfterMagic(s[i + 4..])
  }

  datatype Session = Session(packets: seq<KPacket>, rest: seq<byte>, threw: bool)

  // readPacket again and again until it throws.
  function ReadAll(s: seq<byte>): Session
    decreases |s|
  {
    match WindowRead(s)
    case Eof => Session([], s, false)
    case BadLength(_, rest) => Session([], rest, true)
    case Got(k, rest) => var tail := ReadAll(rest); tail.(packets := [k] + tail.packets)
  }

  // The stream ended exactly after a packet and no length was rejected.
  predicate ConsumedExactly(s: seq<byte>) {
    ReadAll(s).rest == [] && !ReadAll(s).threw
  }

  // ----- signed and unsigned views -----

  lemma ViewsAreInverse(k: KPacket, p: Packet)
    ensures AsClient(AsHost(k)) == k && AsHost(AsClient(p)) == p
  {
  }

  lemma {:induction false} AllViewsAreInverse(ps: seq<Packet>)
    ensures AllAsHost(AllAsClient(ps)) == ps
  {
    if ps != [] {
      ViewsAreInverse(AsClient(ps[0]), ps[0]);
      DropFront([AsClient(ps[0])], AllAsClient(ps[1..]));
      AllViewsAreInverse(ps[1..]);
      HeadTail(ps);
    }
  }

  lemma {:induction false} AllAsHostIndex(ks: seq<KPacket>, i: nat)
    requires i < |ks|
    ensures AllAsHost(ks)[i] == AsHost(ks[i])
  {
    if i > 0 {
      AllAsHostIndex(ks[1..], i - 1);
    }
  }

  lemma {:induction false} AllAsHostSnoc(ks: seq<KPacket>, k: KPacket)
    ensures AllAsHost(ks + [k]) == AllAsHost(ks) + [AsHost(k)]
  {
    if ks == [] {
      Unit([k]);
      assert AllAsHost([k]) == [AsHost(k)] + AllAsHost([]);
    } else {
      DropWithin(ks, [k], 1);
      AllAsHostSnoc(ks[1..], k);
      Assoc([AsHost(ks[0])], AllAsHost(ks[1..]), [AsHost(k)]);
    }
  }

  // ----- one window read against one look of the host's parser -----

  // The signed length test is the unsigned one, so on the same sixteen bytes the
  // two sides differ only in that the client accepts any version.
  lemma HeaderTestsAgree(b: seq<byte>)
    requires |b| >= HEADER_SIZE && MagicAt(b, 0)
    ensures var r := ReadAfterMagic(b[4..]);
            if r.BadLength? then Look(b).Bad?
            else if b[4] != PROTOCOL_VERSION then Look(b) == Bad(UnsupportedVersion(b[4]))
            else if r.Eof? then Look(b).NeedMore?
            else Look(b) == Complete(AsHost(r.packet)) && r.rest == b[Size(AsHost(r.packet))..]
    ensures var r := ReadAfterMagic(b[4..]);
            r.Got? ==> Unsigned(r.packet.header.version, 0x100) == b[4]
  {
    var t := b[4..];
    assert b[..4] == MAGIC;
    assert t[2..4] == b[6..8];
    assert t[4..8] == b[8..12];
    assert t[8..12] == b[12..16];
    var h := RestHeader(t);
    if 0 <= h.payloadLen <= MAX_PAYLOAD_SIZE && |t| >= 12 + h.payloadLen {
      DropSlice(b, 4, 12, 12 + h.payloadLen);
      DropDrop(b, 4, 12 + h.payloadLen);
    }
  }

  // ----- reading is online: it consumes the shortest prefix that decides it -----

  lemma FindMagicInPrefix(s: seq<byte>, c: seq<byte>)
    requires c <= s
    ensures FindMagic(c) == if |c| >= FindMagic(s) + 4 then FindMagic(s) else |c|
  {
    var i := FindMagic(s);
    assert forall k: nat | k + 4 <= |c| :: MagicAt(c, k) <==> MagicAt(s, k);
    if |c| >= i + 4 {
      assert MagicAt(c, i);
    }
  }

  lemma ReadAfterMagicInPrefix(t: seq<byte>, c: seq<byte>)
    requires c <= t && ReadAfterMagic(t).Got?
    ensures var n := |t| - |ReadAfterMagic(t).rest|;
            ReadAfterMagic(c) == if |c| < n then Eof else Got(ReadAfterMagic(t).packet, c[n..])
  {
    if |c| >= 12 {
      assert c[2..4] == t[2..4] && c[4..8] == t[4..8] && c[8..12] == t[8..12];
      var n := 12 + RestHeader(t).payloadLen;
      if |c| >= n {
        assert c[12..n] == t[12..n];
      }
    }
  }

  // A reader that has seen only part of a packet is still waiting, and one that
  // has seen all of it holds the packet, whatever came after.
  lemma WindowReadIsOnline(s: seq<byte>, c: seq<byte>)
    requires c <= s && WindowRead(s).Got?
    ensures var n := |s| - |WindowRead(s).rest|;
            WindowRead(c) == if |c| < n then Eof else Got(WindowRead(s).packet, c[n..])
  {
    var i := FindMagic(s);
    FindMagicInPrefix(s, c);
    if |c| >= i + 4 {
      ReadAfterMagicInPrefix(s[i + 4..], c[i + 4..]);
      var n := |s| - |WindowRead(s).rest|;
      if |c| >= n {
        assert c[i + 4..][n - (i + 4)..] == c[n..];
      }
    }
  }

  // ----- reading in two parts -----

  lemma ReadAfterMagicExtends(t: seq<byte>, b: seq<byte>)
    requires !ReadAfterMagic(t).Eof?
    ensures ReadAfterMagic(t + b) == Later(ReadAfterMagic(t), b)
  {
    assert (t + b)[2..4] == t[2..4] && (t + b)[4..8] == t[4..8] && (t + b)[8..12] == t[8..12];
    DropWithin(t, b, 12);
    if ReadAfterMagic(t).Got? {
      var n := 12 + RestHeader(t).payloadLen;
      DropWithin(t, b, n);
      assert (t + b)[12..n] == t[12..n];
    }
  }

  // The same result with b still to come after it.
  function Later(r: ReadResult, b: seq<byte>): ReadResult {
    match r
    case Eof => Eof
    case BadLength(length, rest) => BadLength(length, rest + b)
    case Got(k, rest) => Got(k, rest + b)
  }

  // A call that has returned or thrown would have done so whatever came after.
  lemma WindowReadExtends(a: seq<byte>, b: seq<byte>)
    requires !WindowRead(a).Eof?
    ensures WindowRead(a + b) == Later(WindowRead(a), b)
  {
    var i := FindMagic(a);
    FindMagicInPrefix(a + b, a);
    DropWithin(a, b, i + 4);
    ReadAfterMagicExtends(a[i + 4..], b);
  }

  // Reading a and then, from what that left, on into b is reading a + b; once a
  // length has been rejected nothing more is read.
  lemma {:induction false} ReadAllAppend(a: seq<byte>, b: seq<byte>)
    ensures var first := ReadAll(a);
            ReadAll(a + b) ==
              if first.threw then first.(rest := first.rest + b)
              else var second := ReadAll(first.rest + b); second.(packets := first.packets + second.packets)
    decreases |a|
  {
    var r := WindowRead(a);
    if r.Eof? {
      Unit(ReadAll(a + b).packets);
    } else {
      WindowReadExtends(a, b);
      if r.Got? {
        ReadAllAppend(r.rest, b);
        var tail := ReadAll(r.rest);
        Assoc([r.packet], tail.packets, ReadAll(tail.rest + b).packets);
      }
    }
  }

  lemma {:induction false} ReadAllStopsWaiting(s: seq<byte>)
    ensures !ReadAll(s).threw ==> WindowRead(ReadAll(s).rest).Eof?
    decreases |s|
  {
    if WindowRead(s).Got? {
      ReadAllStopsWaiting(WindowRead(s).rest);
    }
  }

  lemma ReadAllOfPrefix(c: seq<byte>, s: seq<byte>)
    requires c <= s
    ensures ReadAll(c).packets <= ReadAll(s).packets
    ensures !ReadAll(s).threw ==> !ReadAll(c).threw
  {
    Cut(s, |c|);
    SameFront(c, s);
    ReadAllAppend(c, s[|c|..]);
  }

  // ----- the client reads what the host encodes, after any garbage -----

  lemma ReadAfterMagicOfEncoding(p: Packet, t: seq<byte>)
    requires WellFormed(p)
    ensures ReadAfterMagic((Encode(p) + t)[4..]) == Got(AsClient(p), t)
  {
    var b := Encode(p) + t;
    EncodingStartsWithMagic(p, t);
    LookAtEncoded(p, t);
    HeaderTestsAgree(b);
    HeaderFields(p.header, p.payload + t);
    Assoc(HeaderBytes(p.header), p.payload, t);
    DropFront(Encode(p), t);
    ViewsAreInverse(ReadAfterMagic(b[4..]).packet, p);
  }

  lemma FirstMagicAfterGarbage(g: seq<byte>, t: seq<byte>)
    requires NoMagic(g) && MagicAt(t, 0)
    ensures FindMagic(g + t) == |g|
  {
    forall j: nat | j < |g| ensures !MagicAt(g + t, j) {
      NoMagicStraddles(g, t, j);
    }
    assert MagicAt(g + t, |g|);
  }

  lemma WindowReadAfterGarbage(g: seq<byte>, p: Packet, t: seq<byte>)
    requires NoMagic(g) && WellFormed(p)
    ensures WindowRead(g + (Encode(p) + t)) == Got(AsClient(p), t)
  {
    var b := Encode(p) + t;
    EncodingStartsWithMagic(p, t);
    FirstMagicAfterGarbage(g, b);
    assert (g + b)[|g| + 4..] == b[4..];
    ReadAfterMagicOfEncoding(p, t);
  }

  lemma ReadPayloadIsBounded(s: seq<byte>)
    requires WindowRead(s).Got?
    ensures |WindowRead(s).packet.payload| == WindowRead(s).packet.header.payloadLen <= MAX_PAYLOAD_SIZE
  {
  }

  // The client reads back a packet the host built exactly when its payload is within
  // the 16 MB bound; nothing on the sending side enforces that bound.
  lemma ClientReadsIffWithinBound(msgType: byte, flags: u16, sequence: u32, payload: seq<byte>, t: seq<byte>)
    ensures var p := NewPacket(msgType, flags, sequence, payload);
            WindowRead(Encode(p) + t) == Got(AsClient(p), t) <==> |payload| <= MAX_PAYLOAD_SIZE
  {
    var p := NewPacket(msgType, flags, sequence, payload);
    var s := Encode(p) + t;
    if |payload| <= MAX_PAYLOAD_SIZE {
      Unit(s);
      WindowReadAfterGarbage([], p, t);
    } else if WindowRead(s) == Got(AsClient(p), t) {
      ReadPayloadIsBounded(s);
      assert false;
    }
  }

  lemma {:induction false} ReadAllOfEncodings(ps: seq<Packet>)
    requires AllWellFormed(ps)
    ensures ReadAll(EncodeAll(ps)) == Session(AllAsClient(ps), [], false)
  {
    if ps != [] {
      Unit(EncodeAll(ps));
      WindowReadAfterGarbage([], ps[0], EncodeAll(ps[1..]));
      ReadAllOfEncodings(ps[1..]);
    }
  }

  // Recovery on the client: garbage without ORD1 in front costs no packet.
  lemma WindowRecoversAfterGarbage(g: seq<byte>, ps: seq<Packet>)
    requires NoMagic(g) && AllWellFormed(ps) && ps != []
    ensures ReadAll(g + EncodeAll(ps)) == Session(AllAsClient(ps), [], false)
  {
    WindowReadAfterGarbage(g, ps[0], EncodeAll(ps[1..]));
    ReadAllOfEncodings(ps[1..]);
  }

  // ----- the two scanners agree -----

  lemma ScanStepFollowsWindow(s: seq<byte>)
    requires WindowRead(s).Got? && WindowRead(s).packet.header.version == 1
    ensures var p := AsHost(WindowRead(s).packet);
            var tail := Scan(WindowRead(s).rest);
            Scan(s) == Scanned([p] + tail.packets, tail.rest)
  {
    var i := FindMagic(s);
    Cut(s, i);
    var b := s[i..];
    assert b[4..] == s[i + 4..];
    HeaderTestsAgree(b);
    ScanSkipsGarbage(s[..i], b);
  }

  lemma {:induction false} ScanFollowsWindow(s: seq<byte>)
    requires ConsumedExactly(s)
    requires forall k <- ReadAll(s).packets :: k.header.version == 1
    ensures Scan(s) == Scanned(AllAsHost(ReadAll(s).packets), [])
    decreases |s|
  {
    if WindowRead(s).Got? {
      var rest := WindowRead(s).rest;
      var tail := ReadAll(rest).packets;
      DropFront([WindowRead(s).packet], tail);
      assert forall k <- tail :: k in ReadAll(s).packets;
      ScanFollowsWindow(rest);
      ScanStepFollowsWindow(s);
    }
  }

  ghost predicate AllVersionOne(ks: seq<KPacket>) {
    forall k <- ks :: k.header.version == 1
  }

  // The host emits exactly these packets and keeps nothing.
  ghost predicate HostEmits(s: seq<byte>, ks: seq<KPacket>) {
    Scan(s).packets == AllAsHost(ks) && Scan(s).rest == []
  }

  // On a stream the client reads to its exact end, the host's accumulator emits
  // the same packets with nothing left over if and only if all are version 1.
  lemma ScannersAgreeIffVersionOne(s: seq<byte>, ks: seq<KPacket>)
    requires ConsumedExactly(s) && ks == ReadAll(s).packets
    ensures AllVersionOne(ks) <==> HostEmits(s, ks)
  {
    if HostEmits(s, ks) {
      ScanLeavesLessThanOnePacket(s);
      forall k | k in ks ensures k.header.version == 1 {
        var i :| 0 <= i < |ks| && ks[i] == k;
        AllAsHostIndex(ks, i);
        assert WellFormed(AllAsHost(ks)[i]);
      }
    } else if AllVersionOne(ks) {
      ScanFollowsWindow(s);
    }
  }

  // ----- the client's encoder -----

  // The length written is that of the payload, not the header's field.
  function KEncode(k: KPacket): seq<byte>
    requires |k.payload| < 0x8000_0000
  {
    MAGIC
    + LE(Unsigned(k.header.version, 0x100), 1)
    + LE(Unsigned(k.header.msgType, 0x100), 1)
    + LE(Unsigned(k.header.flags, 0x1_0000), 2)
    + LE(Unsigned(k.header.sequence, 0x1_0000_0000), 4)
    + LE(|k.payload|, 4)
    + k.payload
  }

  function RawPacket(msgType: i8, flags: i16, sequence: i32, payload: seq<byte>): KPacket
    requires |payload| < 0x8000_0000
  {
    KPacket(KHeader(1, msgType, flags, sequence, |payload|), payload)
  }

  // What the client sends is byte for byte what the host would have encoded for
  // the same fields read unsigned.
  lemma EncodersAgree(k: KPacket)
    requires |k.payload| < 0x8000_0000
    ensures KEncode(k) == Encode(AsHost(k).(header := AsHost(k).header.(payloadLen := |k.payload|)))
  {
    var h := AsHost(k).header;
    assert LE(h.version, 1) == [h.version];
    assert LE(h.msgType, 1) == [h.msgType];
  }

  // The host decodes a packet sent by the client to the same fields, unsigned,
  // exactly when its payload is within the bound.
  lemma HostDecodesClientPacket(msgType: i8, flags: i16, sequence: i32, payload: seq<byte>, t: seq<byte>)
    requires |payload| < 0x8000_0000
    ensures var k := RawPacket(msgType, flags, sequence, payload);
            Look(KEncode(k) + t) == Complete(AsHost(k)) <==> |payload| <= MAX_PAYLOAD_SIZE
  {
    var k := RawPacket(msgType, flags, sequence, payload);
    EncodersAgree(k);
    if |payload| <= MAX_PAYLOAD_SIZE {
      LookAtEncoded(AsHost(k), t);
    } else if Look(KEncode(k) + t) == Complete(AsHost(k)) {
      CompletePacketIsPrefix(KEncode(k) + t);
      assert false;
    }
  }

  // A packet as sendRaw builds it, within the bound.
  predicate FromSendRaw(k: KPacket) {
    k.header.version == 1 && k.header.payloadLen == |k.payload| <= MAX_PAYLOAD_SIZE
  }

  ghost predicate AllFromSendRaw(ks: seq<KPacket>) {
    forall k <- ks :: FromSendRaw(k)
  }

  ghost function KEncodeAll(ks: seq<KPacket>): seq<byte>
    requires AllFromSendRaw(ks)
  {
    if ks == [] then []
    else
      assert ks[0] in ks;
      KEncode(ks[0]) + KEncodeAll(ks[1..])
  }

  // What the client writes, the host's accumulator takes apart into the same packets
  // with unsigned fields, and keeps nothing back.
  lemma {:induction false} ClientStreamScans(ks: seq<KPacket>)
    requires AllFromSendRaw(ks)
    ensures Scan(KEncodeAll(ks)) == Scanned(AllAsHost(ks), [])
  {
    if ks != [] {
      assert ks[0] in ks && forall k <- ks[1..] :: k in ks;
      EncodersAgree(ks[0]);
      ScanOfOneEncoding(AsHost(ks[0]), KEncodeAll(ks[1..]));
      ClientStreamScans(ks[1..]);
    }
  }

  method EncodeClientPacket(k: KPacket) returns (buf: array<byte>)
    requires |k.payload| < 0x8000_0000
    ensures fresh(buf) && buf[..] == KEncode(k)
  {
    var h := AsHost(k).header;
    buf := new byte[HEADER_SIZE + |k.payload|](_ => 0);
    var pos := WriteAll(buf, 0, MAGIC);
    pos := WriteLE(buf, pos, h.version, 1);
    pos := WriteLE(buf, pos, h.msgType, 1);
    ghost var done := MAGIC + LE(h.version, 1) + LE(h.msgType, 1);
    assert buf[..pos] == done;
    pos := WriteLE(buf, pos, h.flags, 2);
    assert buf[..pos] == done + LE(h.flags, 2);
    done := done + LE(h.flags, 2);
    pos := WriteLE(buf, pos, h.sequence, 4);
    assert buf[..pos] == done + LE(h.sequence, 4);
    done := done + LE(h.sequence, 4);
    pos := WriteLE(buf, pos, |k.payload|, 4);
    assert buf[..pos] == done + LE(|k.payload|, 4);
    done := done + LE(|k.payload|, 4);
    pos := WriteAll(buf, pos, k.payload);
    assert buf[..] == done + k.payload;
  }
}
