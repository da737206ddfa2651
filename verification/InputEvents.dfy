// Touch and pointer events: encoded by the client with signed types, decoded by
// the host with unsigned ones.
module InputEvents {
  import opened Wrappers
  import opened Bytes

  const SIZE: nat := 14

  datatype EventType =
    | TouchDown | TouchMove | TouchUp | TouchCancel
    | PointerMotionAbsolute | PointerButton | PointerAxis
    | KeyboardKey

  function Code(t: EventType): byte {
    match t
    case TouchDown => 0
    case TouchMove => 1
    case TouchUp => 2
    case TouchCancel => 3
    case PointerMotionAbsolute => 10
    case PointerButton => 11
    case PointerAxis => 12
    case KeyboardKey => 20
  }

  function FromU8(v: byte): Option<EventType> {
    if v == 0 then Some(TouchDown)
    else if v == 1 then Some(TouchMove)
    else if v == 2 then Some(TouchUp)
    else if v == 3 then Some(TouchCancel)
    else if v == 10 then Some(PointerMotionAbsolute)
    else if v == 11 then Some(PointerButton)
    else if v == 12 then Some(PointerAxis)
    else if v == 20 then Some(KeyboardKey)
    else None
  }

  datatype InputEvent =
    InputEvent(eventType: EventType, slot: byte, x: u16, y: u16, codeOrBtn: u32, stateOrFlags: u32)

  function Encode(e: InputEvent): (s: seq<byte>)
    ensures |s| == SIZE
  {
    [Code(e.eventType), e.slot] + LE(e.x, 2) + LE(e.y, 2) + LE(e.codeOrBtn, 4) + LE(e.stateOrFlags, 4)
  }

  function Decode(bytes: seq<byte>): Option<InputEvent> {
    if |bytes| < SIZE then None
    else
      match FromU8(bytes[0])
      case None => None
      case Some(t) =>
        Some(InputEvent(t, bytes[1], U16At(bytes, 2), U16At(bytes, 4), U32At(bytes, 6), U32At(bytes, 10)))
  }

  lemma DecodeInvertsEncode(e: InputEvent, t: seq<byte>)
    ensures Decode(Encode(e) + t) == Some(e)
  {
    Pow256Values();
    var b := Encode(e) + t;
    assert b[2..4] == LE(e.x, 2);
    assert b[4..6] == LE(e.y, 2);
    assert b[6..10] == LE(e.codeOrBtn, 4);
    assert b[10..14] == LE(e.stateOrFlags, 4);
    FromLEInvertsLE(e.x, 2);
    FromLEInvertsLE(e.y, 2);
    FromLEInvertsLE(e.codeOrBtn, 4);
    FromLEInvertsLE(e.stateOrFlags, 4);
  }

  // Only the unassigned type codes and short payloads are refused, and what is
  // accepted encodes back to the bytes it came from.
  lemma EncodeInvertsDecode(bytes: seq<byte>)
    ensures Decode(bytes).Some? <==> |bytes| >= SIZE && bytes[0] in {0, 1, 2, 3, 10, 11, 12, 20}
    ensures Decode(bytes).Some? ==> Encode(Decode(bytes).value) == bytes[..SIZE]
  {
    if Decode(bytes).Some? {
      LEInvertsFromLE(bytes[2..4]);
      LEInvertsFromLE(bytes[4..6]);
      LEInvertsFromLE(bytes[6..10]);
      LEInvertsFromLE(bytes[10..14]);
      assert bytes[..SIZE]
          == [bytes[0], bytes[1]] + bytes[2..4] + bytes[4..6] + bytes[6..10] + bytes[10..14];
    }
  }

  lemma EventCodes()
    ensures [Code(TouchDown), Code(TouchMove), Code(TouchUp), Code(TouchCancel)] == [0, 1, 2, 3]
    ensures [Code(PointerMotionAbsolute), Code(PointerButton), Code(PointerAxis), Code(KeyboardKey)] == [10, 11, 12, 20]
  {
  }

  // Fourteen bytes: the low byte of every field comes first.
  lemma EventLayout(e: InputEvent)
    ensures var b := Encode(e);
            && b[0] == Code(e.eventType) && b[1] == e.slot
            && e.x == LowFirst2(b[2], b[3]) && e.y == LowFirst2(b[4], b[5])
            && e.codeOrBtn == LowFirst4(b[6], b[7], b[8], b[9])
            && e.stateOrFlags == LowFirst4(b[10], b[11], b[12], b[13])
  {
    var b := Encode(e);
    TwoBytes(e.x);
    TwoBytes(e.y);
    FourBytes(e.codeOrBtn);
    FourBytes(e.stateOrFlags);
    assert b[2..4] == LE(e.x, 2);
    assert b[4..6] == LE(e.y, 2);
    assert b[6..10] == LE(e.codeOrBtn, 4);
    assert b[10..14] == LE(e.stateOrFlags, 4);
  }

  // The client's event: coordinates are Ints, narrowed to Shorts when encoded.
  datatype KInputEvent =
    KInputEvent(eventType: EventType, slot: i8, x: i32, y: i32, codeOrBtn: i32, stateOrFlags: i32)

  function ToShort(x: i32): i16 {
    Signed(x % 0x1_0000, 0x1_0000)
  }

  function KEncode(e: KInputEvent): (s: seq<byte>)
    ensures |s| == SIZE
  {
    [Code(e.eventType)] + LE(Unsigned(e.slot, 0x100), 1)
    + LE(Unsigned(ToShort(e.x), 0x1_0000), 2)
    + LE(Unsigned(ToShort(e.y), 0x1_0000), 2)
    + LE(Unsigned(e.codeOrBtn, 0x1_0000_0000), 4)
    + LE(Unsigned(e.stateOrFlags, 0x1_0000_0000), 4)
  }

  // The event whose encoding the client writes.
  function Narrowed(e: KInputEvent): InputEvent {
    InputEvent(e.eventType, Unsigned(e.slot, 0x100), e.x % 0x1_0000, e.y % 0x1_0000,
               Unsigned(e.codeOrBtn, 0x1_0000_0000), Unsigned(e.stateOrFlags, 0x1_0000_0000))
  }

  lemma NarrowedIsEncoded(e: KInputEvent)
    ensures KEncode(e) == Encode(Narrowed(e)) + []
  {
    var h := Narrowed(e);
    assert LE(h.slot, 1) == [h.slot];
    assert KEncode(e) == Encode(h);
  }

  // The host reads back every field, unsigned; the coordinates are the client's modulo
  // 65536, so the client's own exactly when they are in 0..65535.
  lemma HostDecodesClientEvent(e: KInputEvent)
    ensures Decode(KEncode(e)).Some?
    ensures var d := Decode(KEncode(e)).value;
            && d.eventType == e.eventType && d.slot == Unsigned(e.slot, 0x100)
            && d.codeOrBtn == Unsigned(e.codeOrBtn, 0x1_0000_0000)
            && d.stateOrFlags == Unsigned(e.stateOrFlags, 0x1_0000_0000)
            && d.x == e.x % 0x1_0000 && d.y == e.y % 0x1_0000
            && (d.x == e.x <==> 0 <= e.x <= 65535) && (d.y == e.y <==> 0 <= e.y <= 65535)
  {
    NarrowedIsEncoded(e);
    DecodeInvertsEncode(Narrowed(e), []);
  }

  method EncodeInto(e: InputEvent) returns (buf: array<byte>)
    ensures fresh(buf) && buf[..] == Encode(e)
  {
    buf := new byte[SIZE](_ => 0);
    var pos := WriteLE(buf, 0, Code(e.eventType), 1);
    pos := WriteLE(buf, pos, e.slot, 1);
    ghost var done := [Code(e.eventType), e.slot];
    assert buf[..pos] == done;
    pos := WriteLE(buf, pos, e.x, 2);
    assert buf[..pos] == done + LE(e.x, 2);
    pos := WriteLE(buf, pos, e.y, 2);
    assert buf[..pos] == done + LE(e.x, 2) + LE(e.y, 2);
    pos := WriteLE(buf, pos, e.codeOrBtn, 4);
    assert buf[..pos] == done + LE(e.x, 2) + LE(e.y, 2) + LE(e.codeOrBtn, 4);
    pos := WriteLE(buf, pos, e.stateOrFlags, 4);
  }
}
