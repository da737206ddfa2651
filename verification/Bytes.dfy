// Bytes, fixed-width integers, little-endian encoding and two's complement.
module Bytes {
  import opened Seqs

  type byte = b: int | 0 <= b < 0x100
  type u16 = x: int | 0 <= x < 0x1_0000
  type u32 = x: int | 0 <= x < 0x1_0000_0000
  type i8 = x: int | -0x80 <= x < 0x80
  type i16 = x: int | -0x8000 <= x < 0x8000
  type i32 = x: int | -0x8000_0000 <= x < 0x8000_0000

  function Pow256(n: nat): (r: nat)
    ensures r > 0
  {
    if n == 0 then 1 else 256 * Pow256(n - 1)
  }

  // The n low-order bytes of v, least significant first.
  function LE(v: nat, n: nat): (s: seq<byte>)
    ensures |s| == n
  {
    if n == 0 then [] else [v % 256] + LE(v / 256, n - 1)
  }

  function FromLE(s: seq<byte>): (v: nat)
    ensures v < Pow256(|s|)
  {
    if s == [] then 0 else s[0] + 256 * FromLE(s[1..])
  }

  lemma {:induction false} FromLEInvertsLE(v: nat, n: nat)
    requires v < Pow256(n)
    ensures FromLE(LE(v, n)) == v
  {
    if n > 0 {
      FromLEInvertsLE(v / 256, n - 1);
      assert LE(v, n)[1..] == LE(v / 256, n - 1);
    }
  }

  lemma {:induction false} LEInvertsFromLE(s: seq<byte>)
    ensures LE(FromLE(s), |s|) == s
  {
    if s != [] {
      var v := FromLE(s[1..]);
      LEInvertsFromLE(s[1..]);
      assert FromLE(s) % 256 == s[0] && FromLE(s) / 256 == v;
      HeadTail(s);
    }
  }

  function LowFirst2(a: int, b: int): int {
    a + 0x100 * b
  }

  function LowFirst4(a: int, b: int, c: int, d: int): int {
    a + 0x100 * b + 0x1_0000 * c + 0x100_0000 * d
  }

  lemma TwoBytes(v: u16)
    ensures var s := LE(v, 2); v == LowFirst2(s[0], s[1])
  {
    assert LE(v, 2)[1..] == LE(v / 256, 1);
  }

  lemma FourBytes(v: u32)
    ensures var s := LE(v, 4); v == LowFirst4(s[0], s[1], s[2], s[3])
  {
    assert LE(v, 4)[1..] == LE(v / 256, 3);
    assert LE(v / 256, 3)[1..] == LE(v / 256 / 256, 2);
    assert LE(v / 256 / 256, 2)[1..] == LE(v / 256 / 256 / 256, 1);
  }

  lemma Pow256Values()
    ensures Pow256(1) == 0x100 && Pow256(2) == 0x1_0000 && Pow256(4) == 0x1_0000_0000
  {
  }

  function U16At(s: seq<byte>, i: nat): u16
    requires i + 2 <= |s|
  {
    Pow256Values();
    FromLE(s[i..i + 2])
  }

  function U32At(s: seq<byte>, i: nat): u32
    requires i + 4 <= |s|
  {
    Pow256Values();
    FromLE(s[i..i + 4])
  }

  // Two's complement with modulus m: the value Kotlin's signed types read from
  // the bits Rust's unsigned types write, and back.
  function Signed(v: int, m: int): int
  {
    if 2 * v < m then v else v - m
  }

  function Unsigned(x: int, m: int): int
  {
    if x < 0 then x + m else x
  }

  // Both views have the same bits: they differ by a multiple of the modulus, and each is
  // in its type's range.
  lemma SameBits(v: int, h: int)
    requires h > 0 && 0 <= v < 2 * h
    ensures -h <= Signed(v, 2 * h) < h && (Signed(v, 2 * h) == v || Signed(v, 2 * h) == v - 2 * h)
    ensures Unsigned(Signed(v, 2 * h), 2 * h) == v
  {
  }

  // A little-endian write at a cursor, as both languages' buffers do it.
  method WriteLE(buf: array<byte>, pos: nat, v: nat, n: nat) returns (next: nat)
    requires pos + n <= buf.Length
    modifies buf
    ensures next == pos + n
    ensures buf[..] == old(buf[..pos]) + LE(v, n) + old(buf[pos + n..])
  {
    var rest := v;
    next := pos;
    while next < pos + n
      invariant pos <= next <= pos + n
      invariant buf[..next] + LE(rest, pos + n - next) == old(buf[..pos]) + LE(v, n)
      invariant buf[pos + n..] == old(buf[pos + n..])
    {
      ghost var before := buf[..next];
      ghost var tail := LE(rest / 256, pos + n - next - 1);
      buf[next] := rest % 256;
      assert buf[..next + 1] + tail == before + ([rest % 256] + tail);
      rest := rest / 256;
      next := next + 1;
    }
    assert buf[..] == buf[..next] + LE(rest, 0) + buf[pos + n..];
  }

  method WriteAll(buf: array<byte>, pos: nat, bytes: seq<byte>) returns (next: nat)
    requires pos + |bytes| <= buf.Length
    modifies buf
    ensures next == pos + |bytes|
    ensures buf[..] == old(buf[..pos]) + bytes + old(buf[pos + |bytes|..])
  {
    forall i | 0 <= i < |bytes| {
      buf[pos + i] := bytes[i];
    }
    next := pos + |bytes|;
  }
}
