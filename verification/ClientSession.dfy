// The client's display session: the HELLO_ACK wait and the packet read loop that
// feeds the frame buffer.
module ClientSession {
  import opened Wrappers
  import opened Bytes
  import opened Packets
  import opened Seqs
  import opened Window
  import opened AndroidTransports
  import R = FrameRing

  const K_HELLO_ACK: i8 := 0x02
  const K_VIDEO_DATA: i8 := 0x11
  const K_PING: i8 := 0x30
  const K_PONG: i8 := 0x31
  const K_DISCONNECT: i8 := -0x01

  // ----- the client's read loop -----

  datatype Phase = AwaitingAck | Streaming | Ended

  function PhaseAfter(ks: seq<KPacket>): Phase {
    if ks == [] then AwaitingAck
    else
      var n := |ks| - 1;
      match PhaseAfter(ks[..n])
      case AwaitingAck => if ks[n].header.msgType == K_HELLO_ACK then Streaming else AwaitingAck
      case Streaming => if ks[n].header.msgType == K_DISCONNECT then Ended else Streaming
      case Ended => Ended
  }

  function FrameOf(k: KPacket): R.Frame {
    R.Frame(k.header.sequence, k.header.flags, k.payload)
  }

  // The frames that reading these packets puts into the buffer.
  function FramesOf(ks: seq<KPacket>): seq<R.Frame> {
    if ks == [] then []
    else
      var n := |ks| - 1;
      FramesOf(ks[..n])
      + if PhaseAfter(ks[..n]).Streaming? && ks[n].header.msgType == K_VIDEO_DATA then [FrameOf(ks[n])] else []
  }

  lemma FramesOfSnoc(ks: seq<KPacket>, k: KPacket)
    ensures FramesOf(ks + [k]) == FramesOf(ks)
              + if PhaseAfter(ks).Streaming? && k.header.msgType == K_VIDEO_DATA then [FrameOf(k)] else []
    ensures PhaseAfter(ks + [k]) ==
              match PhaseAfter(ks)
              case AwaitingAck => (if k.header.msgType == K_HELLO_ACK then Streaming else AwaitingAck)
              case Streaming => (if k.header.msgType == K_DISCONNECT then Ended else Streaming)
              case Ended => Ended
  {
    DropFront(ks, [k]);
  }

  lemma {:induction false} NothingAfterTheEnd(ks: seq<KPacket>, more: seq<KPacket>)
    requires PhaseAfter(ks).Ended?
    ensures FramesOf(ks + more) == FramesOf(ks) && PhaseAfter(ks + more).Ended?
  {
    if more == [] {
      Unit(ks);
    } else {
      var n := |more| - 1;
      NothingAfterTheEnd(ks, more[..n]);
      Cut(more, n);
      Assoc(ks, more[..n], [more[n]]);
      assert more[n..] == [more[n]];
      FramesOfSnoc(ks + more[..n], more[n]);
      Unit(FramesOf(ks));
    }
  }

  // The PONGs the read loop sends back.
  function RepliesTo(ks: seq<KPacket>): seq<KPacket> {
    if ks == [] then []
    else
      var n := |ks| - 1;
      var k := ks[n];
      RepliesTo(ks[..n])
      + if PhaseAfter(ks[..n]).Streaming? && k.header.msgType == K_PING then [PongTo(k)] else []
  }

  function PongTo(k: KPacket): KPacket {
    var n := if |k.payload| < 0x8000_0000 then |k.payload| else 0;
    KPacket(KHeader(1, K_PONG, 0, k.header.sequence, n), k.payload)
  }

  lemma RepliesToSnoc(ks: seq<KPacket>, k: KPacket)
    ensures RepliesTo(ks + [k]) == RepliesTo(ks)
              + if PhaseAfter(ks).Streaming? && k.header.msgType == K_PING then [PongTo(k)] else []
  {
    DropFront(ks, [k]);
  }

  lemma {:induction false} NoReplyAfterTheEnd(ks: seq<KPacket>, more: seq<KPacket>)
    requires PhaseAfter(ks).Ended?
    ensures RepliesTo(ks + more) == RepliesTo(ks)
  {
    if more == [] {
      Unit(ks);
    } else {
      var n := |more| - 1;
      NoReplyAfterTheEnd(ks, more[..n]);
      NothingAfterTheEnd(ks, more[..n]);
      TailAt(more, n);
      Assoc(ks, more[..n], [more[n]]);
      assert more[..n + 1] == more;
      RepliesToSnoc(ks + more[..n], more[n]);
      Unit(RepliesTo(ks));
    }
  }

  // ----- a session by message types -----

  function VideoAmong(ks: seq<KPacket>): seq<R.Frame> {
    if ks == [] then []
    else
      var n := |ks| - 1;
      var h := ks[n].header;
      VideoAmong(ks[..n]) + if h.msgType == 0x11 then [R.Frame(h.sequence, h.flags, ks[n].payload)] else []
  }

  function PingsAmong(ks: seq<KPacket>): seq<KPacket> {
    if ks == [] then []
    else
      var n := |ks| - 1;
      PingsAmong(ks[..n]) + if ks[n].header.msgType == 0x30 then [ks[n]] else []
  }

  // The PONG carries the sequence and the payload of its PING.
  predicate Answers(pong: KPacket, ping: KPacket) {
    && pong.header.version == 1 && pong.header.msgType == 0x31 && pong.header.flags == 0
    && pong.header.sequence == ping.header.sequence && pong.payload == ping.payload
    && (|ping.payload| <= MAX_PAYLOAD_SIZE ==> pong.header.payloadLen == |ping.payload|)
  }

  ghost predicate AllAnswered(pongs: seq<KPacket>, pings: seq<KPacket>) {
    |pongs| == |pings| && forall i | 0 <= i < |pings| :: Answers(pongs[i], pings[i])
  }

  // Nothing before the first HELLO_ACK counts.
  lemma {:induction false} NothingBeforeAck(a: seq<KPacket>)
    requires forall k <- a :: k.header.msgType != 0x02
    ensures PhaseAfter(a).AwaitingAck? && FramesOf(a) == [] && RepliesTo(a) == []
  {
    if a != [] {
      var n := |a| - 1;
      assert a[n] in a;
      NothingBeforeAck(a[..n]);
    }
  }

  // From it on until a DISCONNECT every video packet is a frame and every PING is answered.
  lemma {:induction false} AckStartsStream(a: seq<KPacket>, ack: KPacket, b: seq<KPacket>)
    requires forall k <- a :: k.header.msgType != 0x02
    requires ack.header.msgType == 0x02 && forall k <- b :: k.header.msgType != -1
    ensures PhaseAfter((a + [ack]) + b).Streaming?
    ensures FramesOf((a + [ack]) + b) == VideoAmong(b)
    ensures AllAnswered(RepliesTo((a + [ack]) + b), PingsAmong(b))
    decreases |b|
  {
    if b == [] {
      NothingBeforeAck(a);
      FramesOfSnoc(a, ack);
      RepliesToSnoc(a, ack);
      Unit(a + [ack]);
    } else {
      var n := |b| - 1;
      var before := (a + [ack]) + b[..n];
      assert b[n] in b;
      AckStartsStream(a, ack, b[..n]);
      TailAt(b, n);
      assert b[..n + 1] == b;
      Assoc(a + [ack], b[..n], [b[n]]);
      FramesOfSnoc(before, b[n]);
      RepliesToSnoc(before, b[n]);
    }
  }

  // And a DISCONNECT is the end of it.
  lemma DisconnectEndsStream(a: seq<KPacket>, ack: KPacket, b: seq<KPacket>, d: KPacket, more: seq<KPacket>)
    requires (forall k <- a :: k.header.msgType != 0x02) && ack.header.msgType == 0x02
    requires (forall k <- b :: k.header.msgType != -1) && d.header.msgType == -1
    ensures var all := (((a + [ack]) + b) + [d]) + more;
            FramesOf(all) == VideoAmong(b) && AllAnswered(RepliesTo(all), PingsAmong(b))
  {
    var before := (a + [ack]) + b;
    AckStartsStream(a, ack, b);
    FramesOfSnoc(before, d);
    RepliesToSnoc(before, d);
    Unit(FramesOf(before));
    Unit(RepliesTo(before));
    NothingAfterTheEnd(before + [d], more);
    NoReplyAfterTheEnd(before + [d], more);
  }

  // ----- reading and handling -----

  lemma ReadAllStep(s: seq<byte>)
    requires WindowRead(s).Got?
    ensures |WindowRead(s).packet.payload| <= MAX_PAYLOAD_SIZE
    ensures ReadAll(s).packets == [WindowRead(s).packet] + ReadAll(WindowRead(s).rest).packets
  {
    ReadPayloadIsBounded(s);
  }

  // The packets that get handled when an exception or a cancellation strikes after
  // limit of them.
  function Handled(ks: seq<KPacket>, limit: nat): seq<KPacket> {
    if |ks| <= limit then ks else ks[..limit]
  }

  lemma HandledOfSum(done: seq<KPacket>, rest: seq<KPacket>, total: nat, left: nat)
    requires total == |done| + left
    ensures Handled(done + rest, total) == done + Handled(rest, left)
  {
    if left < |rest| {
      assert (done + rest)[..total] == done + rest[..left];
    }
  }

  // Nothing more is read, or what is read next is not handled.
  lemma LastHandled(packets: seq<KPacket>, total: nat, done: seq<KPacket>, unread: seq<byte>, left: nat)
    requires packets == done + ReadAll(unread).packets && total == |done| + left
    requires !WindowRead(unread).Got? || left == 0
    ensures Handled(packets, total) == done
  {
    HandledOfSum(done, ReadAll(unread).packets, total, left);
    Unit(done);
  }

  lemma NothingMoreAfterTheEnd(packets: seq<KPacket>, total: nat, done: seq<KPacket>, rest: seq<KPacket>, left: nat)
    requires packets == done + rest && total == |done| + left
    requires PhaseAfter(done).Ended?
    ensures FramesOf(Handled(packets, total)) == FramesOf(done)
    ensures RepliesTo(Handled(packets, total)) == RepliesTo(done)
  {
    var more := Handled(rest, left);
    HandledOfSum(done, rest, total, left);
    assert Handled(packets, total) == done + more;
    NothingAfterTheEnd(done, more);
    NoReplyAfterTheEnd(done, more);
  }

  lemma NextHandled(done: seq<KPacket>, unread: seq<byte>, offered: seq<R.Frame>, replies: seq<KPacket>)
    requires WindowRead(unread).Got? && PhaseAfter(done).Streaming?
    ensures var k, rest := WindowRead(unread).packet, WindowRead(unread).rest;
            && done + ReadAll(unread).packets == (done + [k]) + ReadAll(rest).packets
            && offered + FramesOf(done + [k]) == (offered + FramesOf(done)) + FrameIn(k)
            && replies + RepliesTo(done + [k]) == (replies + RepliesTo(done)) + ReplyIn(k)
            && PhaseAfter(done + [k]) == if k.header.msgType == K_DISCONNECT then Ended else Streaming
  {
    ReadAllStep(unread);
    Assoc(done, [WindowRead(unread).packet], ReadAll(WindowRead(unread).rest).packets);
    OnePacketMore(done, WindowRead(unread).packet, offered, replies);
  }

  // What the decoder does around one offer(): polls before it, after its keyframe test
  // and after its capacity test.
  datatype Contention = Contention(before: nat, tested: nat, admitted: nat)

  class DisplaySession {
    const transport: OrdTransport
    const frameBuffer: R.FrameRingBuffer
    var replies: seq<KPacket>

    ghost predicate Valid()
      reads this, frameBuffer, transport.Parts()
    {
      && this !in transport.Parts() && frameBuffer !in transport.Parts()
      && transport.Valid() && frameBuffer.Valid()
    }

    constructor (transport: OrdTransport, frameBuffer: R.FrameRingBuffer)
      requires transport.Valid() && frameBuffer.Valid() && frameBuffer !in transport.Parts()
      ensures Valid() && this.transport == transport && this.frameBuffer == frameBuffer && replies == []
    {
      this.transport, this.frameBuffer, replies := transport, frameBuffer, [];
    }

    // The HELLO_ACK wait and the packet read loop, until readPacket throws, the host
    // disconnects, or handling a packet fails.
    method Run(contention: seq<Contention>, limit: nat)
      requires Valid()
      modifies this, frameBuffer, transport.Parts()
      ensures frameBuffer.Valid()
      ensures var packets := Handled(ReadAll(old(transport.Unread())).packets, limit);
              && frameBuffer.ring.offered == old(frameBuffer.ring.offered) + FramesOf(packets)
              && replies == old(replies) + RepliesTo(packets)
    {
      ghost var packets := ReadAll(transport.Unread()).packets;
      Unit(frameBuffer.ring.offered);
      Unit(replies);
      var acked, left;
      ghost var done;
      acked, left, done := AwaitHelloAck(limit, packets);
      if acked {
        ReadLoop(contention, left, packets, limit, done);
      }
    }

    // Reads until a HELLO_ACK, discarding everything before it.
    method AwaitHelloAck(limit: nat, ghost packets: seq<KPacket>)
      returns (acked: bool, left: nat, ghost done: seq<KPacket>)
      requires Valid() && packets == ReadAll(transport.Unread()).packets
      modifies transport.Parts()
      ensures FramesOf(done) == [] && RepliesTo(done) == []
      ensures if acked then
                && Valid() && PhaseAfter(done).Streaming? && |done| + left == limit
                && packets == done + ReadAll(transport.Unread()).packets
              else
                done == Handled(packets, limit)
    {
      done, left := [], limit;
      Unit(packets);
      while true
        invariant Valid() && PhaseAfter(done).AwaitingAck?
        invariant FramesOf(done) == [] && RepliesTo(done) == []
        invariant packets == done + ReadAll(transport.Unread()).packets
        invariant |done| + left == limit
        decreases |transport.Unread()|
      {
        ghost var unread := transport.Unread();
        var reply := transport.ReadPacket();
        if !reply.Read? || left == 0 {
          LastHandled(packets, limit, done, unread, left);
          return false, left, done;
        }
        ReadAllStep(unread);
        Assoc(done, [reply.packet], ReadAll(WindowRead(unread).rest).packets);
        FramesOfSnoc(done, reply.packet);
        RepliesToSnoc(done, reply.packet);
        done, left := done + [reply.packet], left - 1;
        if reply.packet.header.msgType == K_HELLO_ACK {
          return true, left, done;
        }
      }
    }

    // The packet read loop, which may still handle left packets of the total.
    method ReadLoop(contention: seq<Contention>, limit: nat,
                    ghost packets: seq<KPacket>, ghost total: nat, ghost first: seq<KPacket>)
      requires Valid() && total == |first| + limit
      requires PhaseAfter(first).Streaming? && FramesOf(first) == [] && RepliesTo(first) == []
      requires packets == first + ReadAll(transport.Unread()).packets
      modifies this, frameBuffer, transport.Parts()
      ensures frameBuffer.Valid()
      ensures frameBuffer.ring.offered == old(frameBuffer.ring.offered) + FramesOf(Handled(packets, total))
      ensures replies == old(replies) + RepliesTo(Handled(packets, total))
    {
      ghost var done, offered0, replies0 := first, frameBuffer.ring.offered, replies;
      Unit(offered0);
      Unit(replies0);
      var ended, left, k := false, limit, 0;
      while !ended
        invariant frameBuffer.Valid() && Valid() && total == |done| + left
        invariant PhaseAfter(done) == if ended then Ended else Streaming
        invariant packets == done + ReadAll(transport.Unread()).packets
        invariant frameBuffer.ring.offered == offered0 + FramesOf(done)
        invariant replies == replies0 + RepliesTo(done)
        decreases !ended, |transport.Unread()|
      {
        ghost var unread := transport.Unread();
        var c := if k < |contention| then contention[k] else Contention(0, 0, 0);
        var handled;
        handled, ended := Turn(c, left == 0);
        if handled.None? {
          LastHandled(packets, total, done, unread, left);
          return;
        }
        NextHandled(done, unread, offered0, replies0);
        k := if handled.value.header.msgType == K_VIDEO_DATA then k + 1 else k;
        done, left := done + [handled.value], left - 1;
      }
      NothingMoreAfterTheEnd(packets, total, done, ReadAll(transport.Unread()).packets, left);
    }

    // One turn of the read loop; fails says that handling the packet throws.
    method Turn(c: Contention, fails: bool) returns (handled: Option<KPacket>, ended: bool)
      requires Valid()
      modifies this, frameBuffer, transport.Parts()
      ensures frameBuffer.Valid()
      ensures var whole := WindowRead(old(transport.Unread()));
              if whole.Got? && !fails then
                && handled == Some(whole.packet) && Valid() && transport.Unread() == whole.rest
                && frameBuffer.ring.offered == old(frameBuffer.ring.offered) + FrameIn(whole.packet)
                && replies == old(replies) + ReplyIn(whole.packet)
                && (ended <==> whole.packet.header.msgType == K_DISCONNECT)
              else
                handled == None && frameBuffer.ring.offered == old(frameBuffer.ring.offered) && replies == old(replies)
    {
      ghost var unread := transport.Unread();
      var reply := transport.ReadPacket();
      if !reply.Read? || fails {
        return None, true;
      }
      ReadPayloadIsBounded(unread);
      ended := HandlePacket(reply.packet, c);
      handled := Some(reply.packet);
    }

    method HandlePacket(k: KPacket, c: Contention) returns (ended: bool)
      requires frameBuffer.Valid() && |k.payload| <= MAX_PAYLOAD_SIZE
      modifies this, frameBuffer
      ensures frameBuffer.Valid()
      ensures frameBuffer.ring.offered == old(frameBuffer.ring.offered) + FrameIn(k)
      ensures replies == old(replies) + ReplyIn(k)
      ensures ended <==> k.header.msgType == K_DISCONNECT
    {
      Unit(frameBuffer.ring.offered);
      Unit(replies);
      ended := false;
      if k.header.msgType == K_VIDEO_DATA {
        frameBuffer.PollTimes(c.before);
        var accepted := frameBuffer.Offer(FrameOf(k), c.tested, c.admitted);
      } else if k.header.msgType == K_PING {
        replies := replies + [RawPacket(K_PONG, 0, k.header.sequence, k.payload)];
      } else if k.header.msgType == K_DISCONNECT {
        ended := true;
      }
    }
  }

  function FrameIn(k: KPacket): seq<R.Frame> {
    if k.header.msgType == K_VIDEO_DATA then [FrameOf(k)] else []
  }

  function ReplyIn(k: KPacket): seq<KPacket> {
    if k.header.msgType == K_PING then [PongTo(k)] else []
  }

  lemma OnePacketMore(done: seq<KPacket>, k: KPacket, offered: seq<R.Frame>, replies: seq<KPacket>)
    requires PhaseAfter(done).Streaming?
    ensures offered + FramesOf(done + [k]) == (offered + FramesOf(done)) + FrameIn(k)
    ensures replies + RepliesTo(done + [k]) == (replies + RepliesTo(done)) + ReplyIn(k)
    ensures PhaseAfter(done + [k]) == if k.header.msgType == K_DISCONNECT then Ended else Streaming
  {
    FramesOfSnoc(done, k);
    RepliesToSnoc(done, k);
    Assoc(offered, FramesOf(done), FrameIn(k));
    Assoc(replies, RepliesTo(done), ReplyIn(k));
  }
}
