// What bytes of an earlier session, still in front of the stream, do to the
// packets of a new one.
module StaleBytes {
  import opened Bytes
  import opened Packets
  import opened Scanning
  import opened Seqs
  import opened Window

  // The reader takes the stale packets one by one; what is left after them must not
  // hold an ORD1, or it would be the head of a packet still to come.
  ghost predicate Harmless(stale: seq<byte>) {
    !ReadAll(stale).threw && NoMagic(ReadAll(stale).rest)
  }

  // The packets the client reads when all of ps follows the stale bytes.
  function Readable(stale: seq<byte>, ps: seq<Packet>): seq<KPacket> {
    ReadAll(stale).packets + AllAsClient(ps)
  }

  lemma ReadAllAfterStale(stale: seq<byte>, ps: seq<Packet>)
    requires Harmless(stale) && AllWellFormed(ps)
    ensures ReadAll(stale + EncodeAll(ps))
         == Session(Readable(stale, ps), if ps == [] then ReadAll(stale).rest else [], false)
  {
    var first := ReadAll(stale);
    ReadAllAppend(stale, EncodeAll(ps));
    if ps == [] {
      Unit(first.rest);
      ReadAllStopsWaiting(stale);
    } else {
      WindowRecoversAfterGarbage(first.rest, ps);
    }
  }

  // Every packet of every session that follows is read.
  ghost predicate CostsNothing(stale: seq<byte>) {
    forall ps | AllWellFormed(ps) :: ReadAll(stale + EncodeAll(ps)).packets == Readable(stale, ps)
  }

  // The HELLO_ACK of a session, which is lost when it comes after the head of another
  // packet.
  const PROBE := NewPacket(MSG_HELLO_ACK, 0, 0, [])

  lemma {:induction false} ZeroBytes(s: seq<byte>, k: nat)
    requires FromLE(s) == 0 && k < |s|
    ensures s[k] == 0
  {
    if k > 0 {
      ZeroBytes(s[1..], k - 1);
    }
  }

  // None of the twelve bytes of the probe's header is an O.
  lemma ProbeHasNoMagicInside(t: seq<byte>, k: nat)
    requires |t| >= 12 && RestHeader(t) == AsClient(PROBE).header && k < 12
    ensures t[k] != MAGIC[0]
  {
    if 2 <= k < 4 {
      ZeroBytes(t[2..4], k - 2);
    } else if 4 <= k < 8 {
      ZeroBytes(t[4..8], k - 4);
    } else if 8 <= k {
      ZeroBytes(t[8..12], k - 8);
    }
  }

  lemma HeaderFromFront(t: seq<byte>, e: seq<byte>)
    requires |t| >= 12
    ensures RestHeader(t + e) == RestHeader(t)
  {
    assert (t + e)[2..4] == t[2..4] && (t + e)[4..8] == t[4..8] && (t + e)[8..12] == t[8..12];
  }

  // A header that starts inside the stale bytes and ends inside the probe is not the
  // probe's own: the O of the probe's ORD1 would be one of its bytes.
  lemma HeadIsNotProbe(t: seq<byte>, e: seq<byte>)
    requires ReadAfterMagic(t).Eof? && e != [] && e[0] == MAGIC[0]
    ensures var r := ReadAfterMagic(t + e);
            !(r.Got? && r.packet == AsClient(PROBE))
  {
    if |t| >= 12 {
      HeaderFromFront(t, e);
    } else if |t + e| >= 12 && RestHeader(t + e) == AsClient(PROBE).header {
      ProbeHasNoMagicInside(t + e, |t|);
    }
  }

  lemma FirstMagicStays(rest: seq<byte>, e: seq<byte>, i: nat)
    requires i == FindMagic(rest) < |rest|
    ensures i + 4 <= |rest|
    ensures WindowRead(rest) == ReadAfterMagic(rest[i + 4..])
    ensures WindowRead(rest + e) == ReadAfterMagic((rest + e)[i + 4..])
  {
    FindMagicInPrefix(rest + e, rest);
  }

  lemma HeadSwallowsProbe(rest: seq<byte>, e: seq<byte>)
    requires WindowRead(rest).Eof? && FindMagic(rest) < |rest| && e != [] && e[0] == MAGIC[0]
    ensures var r := WindowRead(rest + e);
            !(r.Got? && r.packet == AsClient(PROBE))
  {
    var i := FindMagic(rest);
    FirstMagicStays(rest, e, i);
    DropWithin(rest, e, i + 4);
    HeadIsNotProbe(rest[i + 4..], e);
  }

  lemma MagicIsFound(s: seq<byte>)
    ensures NoMagic(s) <==> FindMagic(s) == |s|
  {
  }

  lemma SamePackets(a: seq<KPacket>, b: seq<KPacket>, k: KPacket)
    requires b == [] || b[0] != k
    ensures a + b != a + [k]
  {
    if b != [] {
      assert (a + b)[|a|] == b[0] && (a + [k])[|a|] == k;
    }
  }

  lemma ProbeIsLost(stale: seq<byte>)
    requires !Harmless(stale)
    ensures ReadAll(stale + Encode(PROBE)).packets != ReadAll(stale).packets + [AsClient(PROBE)]
  {
    var first, e := ReadAll(stale), Encode(PROBE);
    ReadAllAppend(stale, e);
    if !first.threw {
      MagicIsFound(first.rest);
      ReadAllStopsWaiting(stale);
      assert e[0] == MAGIC[0];
      HeadSwallowsProbe(first.rest, e);
      SamePackets(first.packets, ReadAll(first.rest + e).packets, AsClient(PROBE));
    }
  }

  // The exact condition: stale bytes cost the sessions after them no packet if and
  // only if what follows the last complete stale packet holds no ORD1.
  lemma StaleIsHarmlessIff(stale: seq<byte>)
    ensures Harmless(stale) <==> CostsNothing(stale)
  {
    if Harmless(stale) {
      forall ps | AllWellFormed(ps) ensures ReadAll(stale + EncodeAll(ps)).packets == Readable(stale, ps) {
        ReadAllAfterStale(stale, ps);
      }
    } else {
      EncodeAllOne(PROBE);
      assert AllAsClient([PROBE]) == [AsClient(PROBE)];
      ProbeIsLost(stale);
      assert AllWellFormed([PROBE]);
    }
  }

  // The failing case, seen from the packet that was cut off: its missing bytes are
  // taken from the packets of the new session, the first of which is thereby lost.
  lemma CutPacketSwallows(p: Packet, cut: nat, ps: seq<Packet>)
    requires WellFormed(p) && HEADER_SIZE <= cut < Size(p)
    requires |EncodeAll(ps)| >= Size(p) - cut
    ensures var e, missing := EncodeAll(ps), Size(p) - cut;
            WindowRead(Encode(p)[..cut] + e)
            == Got(KPacket(AsClient(p).header, p.payload[..cut - HEADER_SIZE] + e[..missing]), e[missing..])
  {
    var e, missing := EncodeAll(ps), Size(p) - cut;
    var head := HeaderBytes(p.header);
    var q := p.(payload := p.payload[..cut - HEADER_SIZE] + e[..missing]);
    assert Encode(p)[..cut] == head + p.payload[..cut - HEADER_SIZE];
    Cut(e, missing);
    Assoc(head, p.payload[..cut - HEADER_SIZE], e[..missing]);
    Assoc(Encode(p)[..cut], e[..missing], e[missing..]);
    Unit(Encode(q) + e[missing..]);
    WindowReadAfterGarbage([], q, e[missing..]);
  }
}
