// What the client's read loop makes of the packets a host sends, after whatever an
// earlier session has left on the stream.
module HostStreams {
  import opened Bytes
  import opened Packets
  import opened Seqs
  import opened StaleBytes
  import opened VideoFrames
  import opened Window
  import opened ClientSession
  import opened UsbAccounting
  import P = UsbPipeline
  import R = FrameRing

  function FramesIn(video: seq<Packet>): seq<R.Frame> {
    if video == [] then []
    else
      var n := |video| - 1;
      FramesIn(video[..n]) + [FrameOf(AsClient(video[n]))]
  }

  lemma FramesInSnoc(video: seq<Packet>, p: Packet)
    ensures FramesIn(video + [p]) == FramesIn(video) + [FrameOf(AsClient(p))]
  {
    DropFront(video, [p]);
  }

  lemma {:induction false} FramesInAt(video: seq<Packet>, k: nat)
    ensures |FramesIn(video)| == |video|
    ensures k < |video| ==> FramesIn(video)[k] == FrameOf(AsClient(video[k]))
  {
    if video != [] {
      FramesInAt(video[..|video| - 1], k);
    }
  }

  // A HELLO_ACK first, and no DISCONNECT: the host never sends one.
  ghost predicate HostStream(ps: seq<Packet>) {
    && (ps != [] ==> ps[0].header.msgType == MSG_HELLO_ACK)
    && (forall p <- ps :: p.header.msgType != MSG_DISCONNECT)
  }

  // On what the host sends after some stale packets, the read loop turns exactly the
  // video packets into frames, unless a stale DISCONNECT has ended it.
  lemma {:induction false} FramesOfHostStream(stale: seq<KPacket>, ks: seq<KPacket>)
    requires HostStream(AllAsHost(ks))
    ensures PhaseAfter(stale + ks) == if ks == [] || PhaseAfter(stale).Ended? then PhaseAfter(stale) else Streaming
    ensures FramesOf(stale + ks) == FramesOf(stale)
              + if PhaseAfter(stale).Ended? then [] else FramesIn(OfType(AllAsHost(ks), MSG_VIDEO_DATA))
    decreases |ks|
  {
    if ks == [] {
      Unit(stale);
      Unit(FramesOf(stale));
    } else if PhaseAfter(stale).Ended? {
      NothingAfterTheEnd(stale, ks);
      Unit(FramesOf(stale));
    } else {
      var n := |ks| - 1;
      var k := ks[n];
      TailAt(ks, n);
      assert ks[..n + 1] == ks;
      AllAsHostSnoc(ks[..n], k);
      HostStreamPrefix(AllAsHost(ks[..n]), AsHost(k));
      FramesOfHostStream(stale, ks[..n]);
      Assoc(stale, ks[..n], [k]);
      OneHostPacket(stale + ks[..n], FramesOf(stale), AllAsHost(ks[..n]), k);
    }
  }

  lemma OneHostPacket(before: seq<KPacket>, frames: seq<R.Frame>, ps: seq<Packet>, k: KPacket)
    requires AsHost(k).header.msgType != MSG_DISCONNECT && !PhaseAfter(before).Ended?
    requires PhaseAfter(before).AwaitingAck? ==> ps == []
    requires ps == [] ==> AsHost(k).header.msgType == MSG_HELLO_ACK
    requires FramesOf(before) == frames + FramesIn(OfType(ps, MSG_VIDEO_DATA))
    ensures PhaseAfter(before + [k]).Streaming?
    ensures FramesOf(before + [k]) == frames + FramesIn(OfType(ps + [AsHost(k)], MSG_VIDEO_DATA))
  {
    FramesOfSnoc(before, k);
    OfTypeSnoc(ps, AsHost(k), MSG_VIDEO_DATA);
    var video := OfType(ps, MSG_VIDEO_DATA);
    Unit(video);
    Unit(FramesOf(before));
    if AsHost(k).header.msgType == MSG_VIDEO_DATA {
      FramesInSnoc(video, AsHost(k));
      ViewsAreInverse(k, AsHost(k));
      Assoc(frames, FramesIn(video), [FrameOf(k)]);
    }
  }

  lemma HostStreamPrefix(ps: seq<Packet>, p: Packet)
    requires HostStream(ps + [p])
    ensures HostStream(ps) && p.header.msgType != MSG_DISCONNECT
    ensures ps == [] ==> p.header.msgType == MSG_HELLO_ACK
  {
    assert (ps + [p])[|ps|] == p;
    assert p in ps + [p] && forall q <- ps :: q in ps + [p];
    assert ps != [] ==> (ps + [p])[0] == ps[0];
  }

  // ----- stale packets the session does not notice -----

  // None of them is a VIDEO_DATA or a DISCONNECT that comes after a HELLO_ACK.
  predicate Unnoticed(ks: seq<KPacket>) {
    forall i, j | 0 <= i < j < |ks| ::
      ks[i].header.msgType == K_HELLO_ACK ==>
        ks[j].header.msgType != K_VIDEO_DATA && ks[j].header.msgType != K_DISCONNECT
  }

  predicate HasAck(ks: seq<KPacket>) {
    exists i | 0 <= i < |ks| :: ks[i].header.msgType == K_HELLO_ACK
  }

  predicate Noticeable(k: KPacket) {
    k.header.msgType == K_VIDEO_DATA || k.header.msgType == K_DISCONNECT
  }

  lemma HasAckSnoc(ks: seq<KPacket>, k: KPacket)
    ensures HasAck(ks + [k]) <==> HasAck(ks) || k.header.msgType == K_HELLO_ACK
  {
    assert (ks + [k])[|ks|] == k;
    if HasAck(ks) {
      var i :| 0 <= i < |ks| && ks[i].header.msgType == K_HELLO_ACK;
      assert (ks + [k])[i] == ks[i];
    }
  }

  lemma UnnoticedSnoc(ks: seq<KPacket>, k: KPacket)
    ensures Unnoticed(ks + [k]) <==> Unnoticed(ks) && !(HasAck(ks) && Noticeable(k))
  {
    var all := ks + [k];
    assert all[|ks|] == k && forall i | 0 <= i < |ks| :: all[i] == ks[i];
  }

  lemma {:induction false} AwaitingIffNoAck(ks: seq<KPacket>)
    ensures PhaseAfter(ks).AwaitingAck? <==> !HasAck(ks)
  {
    if ks != [] {
      var n := |ks| - 1;
      AwaitingIffNoAck(ks[..n]);
      HasAckSnoc(ks[..n], ks[n]);
      assert ks[..n] + [ks[n]] == ks;
    }
  }

  // The read loop offers no frame and goes on.
  predicate LeavesNoTrace(ks: seq<KPacket>) {
    FramesOf(ks) == [] && !PhaseAfter(ks).Ended?
  }

  lemma LeavesNoTraceSnoc(ks: seq<KPacket>, k: KPacket)
    ensures LeavesNoTrace(ks + [k]) <==> LeavesNoTrace(ks) && !(HasAck(ks) && Noticeable(k))
  {
    FramesOfSnoc(ks, k);
    AwaitingIffNoAck(ks);
  }

  // Such packets put no frame into the buffer and do not end the read loop, and no
  // others do neither.
  lemma {:induction false} UnnoticedMeans(ks: seq<KPacket>)
    ensures Unnoticed(ks) <==> LeavesNoTrace(ks)
  {
    if ks != [] {
      var n := |ks| - 1;
      UnnoticedMeans(ks[..n]);
      UnnoticedSnoc(ks[..n], ks[n]);
      LeavesNoTraceSnoc(ks[..n], ks[n]);
      assert ks[..n] + [ks[n]] == ks;
    }
  }

  // Whatever the host sends after them, exactly its frames are offered.
  ghost predicate OnlyHostFrames(ks: seq<KPacket>) {
    forall more | HostStream(AllAsHost(more)) ::
      FramesOf(ks + more) == FramesIn(OfType(AllAsHost(more), MSG_VIDEO_DATA))
  }

  const ACK := NewPacket(MSG_HELLO_ACK, 0, 0, [])
  const VIDEO := NewPacket(MSG_VIDEO_DATA, 0, 1, [])

  lemma AckThenVideo()
    ensures var ks := AllAsClient([ACK, VIDEO]);
            HostStream(AllAsHost(ks)) && |FramesIn(OfType(AllAsHost(ks), MSG_VIDEO_DATA))| == 1
  {
    AllViewsAreInverse([ACK, VIDEO]);
    assert [ACK] + [VIDEO] == [ACK, VIDEO];
    Unit([ACK]);
    OfTypeSnoc([], ACK, MSG_VIDEO_DATA);
    OfTypeSnoc([ACK], VIDEO, MSG_VIDEO_DATA);
    FramesInAt(OfType([ACK, VIDEO], MSG_VIDEO_DATA), 0);
  }

  // The exact condition on the stale packets.
  lemma UnnoticedIff(ks: seq<KPacket>)
    ensures Unnoticed(ks) <==> OnlyHostFrames(ks)
  {
    UnnoticedMeans(ks);
    if Unnoticed(ks) {
      forall more | HostStream(AllAsHost(more))
        ensures FramesOf(ks + more) == FramesIn(OfType(AllAsHost(more), MSG_VIDEO_DATA))
      {
        FramesOfHostStream(ks, more);
        Unit(FramesIn(OfType(AllAsHost(more), MSG_VIDEO_DATA)));
      }
    } else if OnlyHostFrames(ks) {
      assert HostStream(AllAsHost([]));
      Unit(ks);
      AckThenVideo();
      NothingAfterTheEnd(ks, AllAsClient([ACK, VIDEO]));
      assert false;
    }
  }

  // Bytes of an earlier session that a new one does not notice.
  ghost predicate Fresh(stale: seq<byte>) {
    Harmless(stale) && Unnoticed(ReadAll(stale).packets)
  }

  // ----- single frames -----

  lemma FramesOfPrefix(ks: seq<KPacket>, more: seq<KPacket>)
    requires ks <= more
    ensures FramesOf(ks) <= FramesOf(more)
    decreases |more|
  {
    if |ks| < |more| {
      FramesOfPrefix(ks, more[..|more| - 1]);
    } else {
      assert ks == more;
    }
  }

  // Both flag bits of a frame, and no others.
  predicate FrameFlags(f: R.Frame, isKeyframe: bool) {
    0 <= f.flags < 4 && (f.flags % 2 == 1 <==> isKeyframe) && f.flags / 2 % 2 == 1
  }

  lemma FlagsSurvive(frame: VideoFrame, sequence: u32)
    ensures var f := FrameOf(AsClient(P.VideoPacket(frame, sequence)));
            && f.data == frame.data
            && (R.IsKeyframe(f) <==> frame.isKeyframe)
            && FrameFlags(f, frame.isKeyframe)
            && Unsigned(f.sequence, 0x1_0000_0000) == sequence
  {
    P.FrameInFields(frame, sequence);
  }
}
