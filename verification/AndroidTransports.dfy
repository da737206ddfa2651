// The client's two packet readers: TcpClient over a byte stream, and
// UsbAccessoryTransport over its own 64 KB receive buffer.
module AndroidTransports {
  import opened Bytes
  import opened Packets
  import opened Scanning
  import opened Seqs
  import opened Window

  // A stream that will still deliver the pending bytes and then end. How many of
  // them one read returns is up to the system.
  class InputSource {
    var pending: seq<byte>

    constructor (pending: seq<byte>)
      ensures this.pending == pending
    {
      this.pending := pending;
    }

    // read(): the next byte, or -1 at the end.
    method ReadByte() returns (b: int)
      modifies this
      ensures old(pending) == [] ==> b == -1 && pending == []
      ensures old(pending) != [] ==> b == old(pending)[0] && pending == old(pending)[1..]
    {
      if pending == [] {
        return -1;
      }
      b := pending[0];
      pending := pending[1..];
    }

    // readFully(buffer): the whole buffer, or an end-of-file exception.
    method ReadFully(buffer: array<byte>) returns (ok: bool)
      modifies this, buffer
      ensures ok <==> buffer.Length <= |old(pending)|
      ensures ok ==> buffer[..] == old(pending)[..buffer.Length] && pending == old(pending)[buffer.Length..]
    {
      if buffer.Length > |pending| {
        pending := [];
        return false;
      }
      forall i | 0 <= i < buffer.Length {
        buffer[i] := pending[i];
      }
      pending := pending[buffer.Length..];
      return true;
    }

    // read(dst, 0, dst.size): at least one byte unless the stream has ended.
    method Read(dst: array<byte>) returns (n: int)
      requires dst.Length > 0
      modifies this, dst
      ensures old(pending) == [] ==> n <= 0 && pending == [] && dst[..] == old(dst[..])
      ensures old(pending) != [] ==> 1 <= n <= dst.Length
      ensures n > 0 ==> n <= |old(pending)| && dst[..n] == old(pending)[..n] && pending == old(pending)[n..]
    {
      if pending == [] {
        return -1;
      }
      assert 1 <= |pending| && 1 <= dst.Length;
      n :| 1 <= n <= |pending| && n <= dst.Length;
      forall i | 0 <= i < n {
        dst[i] := pending[i];
      }
      pending := pending[n..];
    }
  }

  // The window after i bytes of s: the last four, with zeros before the first.
  ghost predicate WindowHolds(s: seq<byte>, i: nat, m0: int, m1: int, m2: int, m3: int)
    requires i <= |s|
  {
    && m3 == (if i >= 1 then s[i - 1] else 0)
    && m2 == (if i >= 2 then s[i - 2] else 0)
    && m1 == (if i >= 3 then s[i - 3] else 0)
    && m0 == (if i >= 4 then s[i - 4] else 0)
  }

  // No earlier position of the window matched.
  ghost predicate NoMagicWithin(s: seq<byte>, i: nat) {
    forall j: nat | j + 4 <= i :: !MagicAt(s, j)
  }

  predicate IsMagic(m0: int, m1: int, m2: int, m3: int) {
    m0 == 0x4F && m1 == 0x52 && m2 == 0x44 && m3 == 0x31
  }

  // Shifting one byte in finds the first "ORD1" or keeps the window clean.
  lemma WindowAdvances(s: seq<byte>, i: nat, m0: int, m1: int, m2: int, m3: int)
    requires i < |s| && WindowHolds(s, i, m0, m1, m2, m3) && NoMagicWithin(s, i)
    ensures WindowHolds(s, i + 1, m1, m2, m3, s[i])
    ensures IsMagic(m1, m2, m3, s[i]) ==>
              i >= 3 && FindMagic(s) == i - 3 && WindowRead(s) == ReadAfterMagic(s[i + 1..])
    ensures !IsMagic(m1, m2, m3, s[i]) ==> NoMagicWithin(s, i + 1)
  {
    if IsMagic(m1, m2, m3, s[i]) {
      assert MagicAt(s, i - 3);
    }
  }

  // The three ways a read goes on once the magic has been seen, for a header and
  // a payload that are read one after the other.
  lemma ReadAfterMagicInTwoSteps(t: seq<byte>)
    ensures |t| < 12 ==> ReadAfterMagic(t) == Eof
    ensures |t| >= 12 ==>
              var h := RestHeader(t[..12]);
              var u := t[12..];
              ReadAfterMagic(t) ==
                if h.payloadLen < 0 || h.payloadLen > MAX_PAYLOAD_SIZE then BadLength(h.payloadLen, u)
                else if |u| < h.payloadLen then Eof
                else Got(KPacket(h, u[..h.payloadLen]), u[h.payloadLen..])
  {
    if |t| >= 12 {
      var c := t[..12];
      assert c[2..4] == t[2..4] && c[4..8] == t[4..8] && c[8..12] == t[8..12];
      var n := RestHeader(t).payloadLen;
      if 0 <= n && 12 + n <= |t| {
        assert t[12..][..n] == t[12..12 + n] && t[12..][n..] == t[12 + n..];
      }
    }
  }

  class TcpClient {
    const stream: InputSource

    constructor (stream: InputSource)
      ensures this.stream == stream
    {
      this.stream := stream;
    }

    method ReadPacket() returns (r: Reply)
      modifies stream
      ensures var whole := WindowRead(old(stream.pending));
              r == ReplyOf(whole) && (!whole.Eof? ==> stream.pending == whole.rest)
    {
      ghost var s, i := stream.pending, 0;
      var m0, m1, m2, m3 := 0, 0, 0, 0;
      while true
        invariant i <= |s| && stream.pending == s[i..]
        invariant WindowHolds(s, i, m0, m1, m2, m3) && NoMagicWithin(s, i)
        decreases |s| - i
      {
        var b := stream.ReadByte();
        if b == -1 {
          return EofException;
        }
        WindowAdvances(s, i, m0, m1, m2, m3);
        i := i + 1;
        m0, m1, m2, m3 := m1, m2, m3, b;
        if m0 == 0x4F && m1 == 0x52 && m2 == 0x44 && m3 == 0x31 {
          break;
        }
      }
      ReadAfterMagicInTwoSteps(s[i..]);
      r := ReadRest();
    }

    // readPacket after its synchronisation loop.
    method ReadRest() returns (r: Reply)
      modifies stream
      ensures var whole := ReadAfterMagic(old(stream.pending));
              r == ReplyOf(whole) && (!whole.Eof? ==> stream.pending == whole.rest)
    {
      ReadAfterMagicInTwoSteps(stream.pending);
      var restHeader := new byte[12](_ => 0);
      var ok := stream.ReadFully(restHeader);
      if !ok {
        return EofException;
      }
      var header := RestHeader(restHeader[..]);
      if header.payloadLen < 0 || header.payloadLen > MAX_PAYLOAD_SIZE {
        return IllegalLength(header.payloadLen);
      }
      var payload := new byte[header.payloadLen](_ => 0);
      if header.payloadLen > 0 {
        ok := stream.ReadFully(payload);
        if !ok {
          return EofException;
        }
      }
      r := Read(KPacket(header, payload[..]));
    }
  }

  class UsbAccessoryTransport {
    const stream: InputSource
    const rxBuffer: array<byte>
    var rxHead: nat
    var rxTail: nat

    ghost predicate Valid()
      reads this
    {
      rxBuffer.Length == RX_SIZE && rxHead <= rxTail <= RX_SIZE
    }

    // Everything not yet consumed: buffered bytes first, then the stream's.
    ghost function Unread(): seq<byte>
      requires Valid()
      reads this, rxBuffer, stream
    {
      rxBuffer[rxHead..rxTail] + stream.pending
    }

    constructor Open(stream: InputSource)
      ensures Valid() && this.stream == stream && fresh(rxBuffer)
      ensures Unread() == stream.pending
    {
      this.stream := stream;
      rxBuffer := new byte[RX_SIZE](_ => 0);
      rxHead, rxTail := 0, 0;
    }

    // At the end of the stream this returns -1 and leaves rxHead at 0 with the old
    // rxTail, so the object is no longer usable as a reader.
    method ReadNextByte() returns (b: int)
      requires Valid()
      modifies this, rxBuffer, stream
      ensures old(Unread()) == [] ==> b == -1 && rxHead == 0 && rxTail == old(rxTail)
      ensures old(Unread()) != [] ==>
                Valid() && b == old(Unread())[0] && Unread() == old(Unread())[1..]
    {
      if rxHead >= rxTail {
        var n := Refill();
        if n <= 0 {
          return -1;
        }
      }
      b := rxBuffer[rxHead];
      assert rxBuffer[rxHead..rxTail][1..] == rxBuffer[rxHead + 1..rxTail];
      DropWithin(rxBuffer[rxHead..rxTail], stream.pending, 1);
      rxHead := rxHead + 1;
    }

    // Fills buffer[offset..offset + length] from the unread bytes, or runs into the
    // end of the stream.
    method ReadExact(buffer: array<byte>, offset: nat, length: nat) returns (ok: bool)
      requires Valid() && offset + length <= buffer.Length && buffer != rxBuffer
      modifies this, rxBuffer, stream, buffer
      ensures ok <==> length <= |old(Unread())|
      ensures ok ==> Valid() && Unread() == old(Unread())[length..]
      ensures ok ==> forall k | 0 <= k < length :: buffer[offset + k] == old(Unread())[k]
      ensures forall k | 0 <= k < buffer.Length && !(offset <= k < offset + length) :: buffer[k] == old(buffer[k])
    {
      ghost var s := Unread();
      var copied := 0;
      while copied < length
        invariant copied <= length && copied <= |s|
        invariant Valid() && Unread() == s[copied..]
        invariant forall k | 0 <= k < copied :: buffer[offset + k] == s[k]
        invariant forall k | 0 <= k < buffer.Length && !(offset <= k < offset + copied) :: buffer[k] == old(buffer[k])
        decreases length - copied, if rxHead < rxTail then 0 else 1
      {
        var n, eof := CopyOrRefill(buffer, offset + copied, length - copied);
        if eof {
          return false;
        }
        DropDrop(s, copied, n);
        copied := copied + n;
      }
      ok := true;
    }

    // The body of readExact's loop: copy what is buffered, or refill.
    method CopyOrRefill(buffer: array<byte>, at: nat, wanted: nat) returns (n: nat, eof: bool)
      requires Valid() && 0 < wanted && at + wanted <= buffer.Length && buffer != rxBuffer
      modifies this, rxBuffer, stream, buffer
      ensures eof <==> old(Unread()) == []
      ensures n <= wanted && n <= |old(Unread())|
      ensures !eof ==> Valid() && Unread() == old(Unread())[n..]
      ensures forall k | at <= k < at + n :: buffer[k] == old(Unread())[k - at]
      ensures forall k | 0 <= k < buffer.Length && !(at <= k < at + n) :: buffer[k] == old(buffer[k])
      ensures !eof ==> n > 0 || (rxHead < rxTail && old(rxHead == rxTail))
    {
      var available := rxTail - rxHead;
      eof := false;
      if available > 0 {
        n := if available <= wanted then available else wanted;
        CopyBuffered(buffer, at, n);
      } else {
        var got := Refill();
        n := 0;
        eof := got <= 0;
      }
    }

    method ReadPacket() returns (r: Reply)
      requires Valid()
      modifies this, rxBuffer, stream
      ensures var whole := WindowRead(old(Unread()));
              r == ReplyOf(whole) && (!whole.Eof? ==> Valid() && Unread() == whole.rest)
    {
      ghost var s, i := Unread(), 0;
      var m0, m1, m2, m3 := 0, 0, 0, 0;
      while true
        invariant i <= |s| && Valid() && Unread() == s[i..]
        invariant WindowHolds(s, i, m0, m1, m2, m3) && NoMagicWithin(s, i)
        decreases |s| - i
      {
        var b := ReadNextByte();
        if b == -1 {
          return EofException;
        }
        WindowAdvances(s, i, m0, m1, m2, m3);
        i := i + 1;
        m0, m1, m2, m3 := m1, m2, m3, b;
        if m0 == 0x4F && m1 == 0x52 && m2 == 0x44 && m3 == 0x31 {
          break;
        }
      }
      r := ReadRest();
    }

    // readPacket after its synchronisation loop.
    method ReadRest() returns (r: Reply)
      requires Valid()
      modifies this, rxBuffer, stream
      ensures var whole := ReadAfterMagic(old(Unread()));
              r == ReplyOf(whole) && (!whole.Eof? ==> Valid() && Unread() == whole.rest)
    {
      ghost var t := Unread();
      ReadAfterMagicInTwoSteps(t);
      var restHeader := new byte[12](_ => 0);
      var ok := ReadExact(restHeader, 0, 12);
      if !ok {
        return EofException;
      }
      SameFront(restHeader[..], t);
      var header := RestHeader(restHeader[..]);
      if header.payloadLen < 0 || header.payloadLen > MAX_PAYLOAD_SIZE {
        return IllegalLength(header.payloadLen);
      }
      var payload := new byte[header.payloadLen](_ => 0);
      if header.payloadLen > 0 {
        ok := ReadExact(payload, 0, header.payloadLen);
        if !ok {
          return EofException;
        }
      }
      SameFront(payload[..], t[12..]);
      r := Read(KPacket(header, payload[..]));
    }

    // The bulk read that both readNextByte and readExact do on an empty buffer.
    method Refill() returns (n: int)
      requires Valid() && rxHead == rxTail
      modifies this, rxBuffer, stream
      ensures n <= 0 <==> old(Unread()) == []
      ensures n <= 0 ==> rxHead == 0 && rxTail == old(rxTail)
      ensures n > 0 ==> Valid() && rxHead == 0 && rxTail == n && Unread() == old(Unread())
    {
      rxHead := 0;
      n := stream.Read(rxBuffer);
      if n <= 0 {
        return;
      }
      rxTail := n;
      Refilled(rxBuffer[..], rxTail, old(stream.pending), stream.pending);
    }

    // System.arraycopy out of the receive buffer, and the advance of rxHead.
    method CopyBuffered(dst: array<byte>, at: nat, n: nat)
      requires Valid() && rxHead + n <= rxTail && at + n <= dst.Length && dst != rxBuffer
      modifies this`rxHead, dst
      ensures Valid() && Unread() == old(Unread())[n..]
      ensures forall k | at <= k < at + n :: dst[k] == old(Unread())[k - at]
      ensures forall k | 0 <= k < dst.Length && !(at <= k < at + n) :: dst[k] == old(dst[k])
    {
      ghost var front := rxBuffer[rxHead..rxTail];
      DropWithin(front, stream.pending, n);
      assert front[n..] == rxBuffer[rxHead + n..rxTail];
      forall k | 0 <= k < n {
        dst[at + k] := rxBuffer[rxHead + k];
      }
      rxHead := rxHead + n;
    }
  }

  // The transport interface of the display session.
  datatype OrdTransport = Usb(usb: UsbAccessoryTransport) | Tcp(tcp: TcpClient) {
    ghost function Parts(): set<object> {
      match this
      case Usb(usb) => {usb, usb.rxBuffer, usb.stream}
      case Tcp(tcp) => {tcp.stream}
    }

    ghost predicate Valid()
      reads Parts()
    {
      Usb? ==> usb.Valid()
    }

    ghost function Unread(): seq<byte>
      requires Valid()
      reads Parts()
    {
      if Usb? then usb.Unread() else tcp.stream.pending
    }

    method ReadPacket() returns (r: Reply)
      requires Valid()
      modifies Parts()
      ensures var whole := WindowRead(old(Unread()));
              r == ReplyOf(whole) && (!whole.Eof? ==> Valid() && Unread() == whole.rest)
    {
      match this {
        case Usb(usb) => r := usb.ReadPacket();
        case Tcp(tcp) => r := tcp.ReadPacket();
      }
    }
  }

  // A refill only moves bytes from the stream into the buffer.
  lemma Refilled(buffer: seq<byte>, tail: nat, before: seq<byte>, after: seq<byte>)
    requires tail <= |buffer| && tail <= |before|
    requires buffer[..tail] == before[..tail] && after == before[tail..]
    ensures buffer[0..tail] + after == before
  {
    Cut(before, tail);
  }
}
