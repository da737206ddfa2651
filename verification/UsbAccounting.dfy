// What the USB session loop sends, counted: sequence numbers against dropped
// frames, and PONGs against PINGs, over every run of the pipeline.
module UsbAccounting {
  import opened Bytes
  import opened Packets
  import opened Seqs
  import opened UsbPipeline
  import opened VideoFrames

  // The packets of one message type, in order.
  function OfType(ps: seq<Packet>, msgType: byte): seq<Packet> {
    if ps == [] then []
    else
      var n := |ps| - 1;
      OfType(ps[..n], msgType) + if ps[n].header.msgType == msgType then [ps[n]] else []
  }

  // The video packets of the frames that were queued: the n-th frame taken carries
  // sequence n, wrapping at 32 bits.
  function SentVideo(taken: seq<VideoFrame>, fates: seq<Fate>): seq<Packet>
    requires |taken| == |fates|
  {
    if taken == [] then []
    else
      var n := |taken| - 1;
      SentVideo(taken[..n], fates[..n])
      + if fates[n].Queued? then [VideoPacket(taken[n], (n + 1) % 0x1_0000_0000)] else []
  }

  // The positions, among the frames taken, of those that were queued.
  function SentIndices(fates: seq<Fate>): seq<nat> {
    if fates == [] then []
    else
      var n := |fates| - 1;
      SentIndices(fates[..n]) + if fates[n].Queued? then [n] else []
  }

  function DropCount(fates: seq<Fate>): nat {
    if fates == [] then 0 else (if fates[0].Dropped? then 1 else 0) + DropCount(fates[1..])
  }

  function PongsFor(pings: seq<Packet>): seq<Packet> {
    if pings == [] then []
    else
      var n := |pings| - 1;
      PongsFor(pings[..n]) + [PongFor(pings[n])]
  }

  function PendingPong(s: State): seq<Packet> {
    if s.loop.Ponging? then [s.loop.pong] else []
  }

  lemma OfTypeSnoc(ps: seq<Packet>, p: Packet, msgType: byte)
    ensures OfType(ps + [p], msgType) == OfType(ps, msgType) + if p.header.msgType == msgType then [p] else []
  {
    DropFront(ps, [p]);
  }

  lemma SentVideoSnoc(taken: seq<VideoFrame>, fates: seq<Fate>, f: VideoFrame, fate: Fate)
    requires |taken| == |fates|
    ensures SentVideo(taken + [f], fates + [fate])
         == SentVideo(taken, fates)
            + if fate.Queued? then [VideoPacket(f, (|taken| + 1) % 0x1_0000_0000)] else []
  {
    DropFront(taken, [f]);
    DropFront(fates, [fate]);
  }

  lemma PongsForSnoc(pings: seq<Packet>, p: Packet)
    ensures PongsFor(pings + [p]) == PongsFor(pings) + [PongFor(p)]
  {
    DropFront(pings, [p]);
  }

  // ----- the invariant of the session loop -----

  predicate HostType(t: byte) {
    t == MSG_HELLO_ACK || t == MSG_DISPLAY_CONFIG || t == MSG_VIDEO_DATA || t == MSG_PONG
  }

  ghost predicate VideoInv(s: State) {
    && |s.fates| == |s.taken|
    && s.frameSeq == |s.taken| % 0x1_0000_0000
    && OfType(s.accepted, MSG_VIDEO_DATA) == SentVideo(s.taken, s.fates)
    && (forall i | 0 <= i < |s.fates| :: s.fates[i].Refused? ==> i == |s.fates| - 1 && s.loop.Over?)
  }

  ghost predicate PongInv(s: State) {
    && OfType(s.accepted, MSG_PONG) <= PongsFor(s.pings)
    && (!s.worker.Stopped? ==> OfType(s.accepted, MSG_PONG) + PendingPong(s) == PongsFor(s.pings))
    && (s.loop.Ponging? ==> s.loop.pong.header.msgType == MSG_PONG)
  }

  ghost predicate GreetingInv(s: State) {
    && (s.accepted == [] ==> s.loop.SendingAck? || s.worker.Stopped?)
    && (s.accepted != [] ==> s.accepted[0].header.msgType == MSG_HELLO_ACK && !s.loop.SendingAck?)
    && (forall i | 0 <= i < |s.accepted| :: HostType(s.accepted[i].header.msgType))
  }

  // The transport steps do not touch what the session loop has recorded.
  lemma TransportLeavesLoopAlone(s: State, e: Event)
    requires !(e.Greet? || e.TakeFrame? || e.FromClient? || e.SendPong? || e.EndSession?)
    ensures var t := Step(s, e);
            && t.loop == s.loop && t.frameSeq == s.frameSeq && t.taken == s.taken && t.fates == s.fates
            && t.pings == s.pings && t.accepted == s.accepted
            && (s.worker.Stopped? ==> t.worker.Stopped?)
  {
    match e
    case TakeFromChannel =>
    case BulkWrite(_) =>
    case FinishWrite =>
    case ReadSideFails =>
    case Refill(_) =>
    case ReadByte =>
  }

  ghost predicate CountInv(s: State) {
    VideoInv(s) && PongInv(s) && GreetingInv(s)
  }

  // Queueing a packet of one type changes no count of another.
  lemma SendKeepsOthers(s: State, p: Packet, msgType: byte)
    requires p.header.msgType != msgType
    ensures OfType(Send(s, p).accepted, msgType) == OfType(s.accepted, msgType)
  {
    OfTypeSnoc(s.accepted, p, msgType);
    Unit(OfType(s.accepted, msgType));
  }

  lemma GreetingKeepsGreeting(s: State, p: Packet, loop: Loop)
    requires GreetingInv(s) && CanSend(s)
    requires s.loop.SendingAck? || s.loop.SendingConfig?
    requires p.header.msgType == if s.loop.SendingAck? then MSG_HELLO_ACK else MSG_DISPLAY_CONFIG
    requires loop == if s.loop.SendingAck? then SendingConfig else Serving
    ensures GreetingInv(Send(s, p).(loop := loop))
  {
  }

  lemma SendOther(s: State, p: Packet, loop: Loop)
    requires CountInv(s) && CanSend(s)
    requires s.loop.SendingAck? || s.loop.SendingConfig?
    requires p.header.msgType == if s.loop.SendingAck? then MSG_HELLO_ACK else MSG_DISPLAY_CONFIG
    requires loop == if s.loop.SendingAck? then SendingConfig else Serving
    ensures CountInv(Send(s, p).(loop := loop))
  {
    SendKeepsOthers(s, p, MSG_VIDEO_DATA);
    SendKeepsOthers(s, p, MSG_PONG);
    GreetingKeepsGreeting(s, p, loop);
  }

  lemma NextSequence(n: nat)
    ensures (n % 0x1_0000_0000 + 1) % 0x1_0000_0000 == (n + 1) % 0x1_0000_0000
  {
  }

  lemma QueuedFrameKeepsVideo(s: State, frame: VideoFrame)
    requires VideoInv(s)
    ensures var p := VideoPacket(frame, (s.frameSeq + 1) % 0x1_0000_0000);
            OfType(s.accepted + [p], MSG_VIDEO_DATA) == SentVideo(s.taken + [frame], s.fates + [Queued])
  {
    NextSequence(|s.taken|);
    OfTypeSnoc(s.accepted, VideoPacket(frame, (s.frameSeq + 1) % 0x1_0000_0000), MSG_VIDEO_DATA);
    SentVideoSnoc(s.taken, s.fates, frame, Queued);
  }

  lemma LostFrameKeepsVideo(s: State, frame: VideoFrame, fate: Fate)
    requires VideoInv(s) && !fate.Queued?
    ensures OfType(s.accepted, MSG_VIDEO_DATA) == SentVideo(s.taken + [frame], s.fates + [fate])
  {
    SentVideoSnoc(s.taken, s.fates, frame, fate);
    Unit(SentVideo(s.taken, s.fates));
  }

  lemma FrameKeepsVideo(s: State, frame: VideoFrame)
    requires VideoInv(s) && s.loop.Serving?
    ensures VideoInv(OnFrame(s, frame))
  {
    NextSequence(|s.taken|);
    if !s.worker.Stopped? && |s.channel| < CHANNEL_SIZE {
      QueuedFrameKeepsVideo(s, frame);
    } else {
      LostFrameKeepsVideo(s, frame, if s.worker.Stopped? then Refused else Dropped);
    }
  }

  lemma FrameKeepsPongs(s: State, frame: VideoFrame)
    requires PongInv(s) && s.loop.Serving?
    ensures PongInv(OnFrame(s, frame))
  {
    SendKeepsOthers(s, VideoPacket(frame, (s.frameSeq + 1) % 0x1_0000_0000), MSG_PONG);
  }

  lemma FrameKeepsGreeting(s: State, frame: VideoFrame)
    requires GreetingInv(s) && s.loop.Serving?
    ensures GreetingInv(OnFrame(s, frame))
  {
  }

  lemma FrameCounts(s: State, frame: VideoFrame)
    requires CountInv(s) && s.loop.Serving?
    ensures CountInv(OnFrame(s, frame))
  {
    FrameKeepsVideo(s, frame);
    FrameKeepsPongs(s, frame);
    FrameKeepsGreeting(s, frame);
  }

  lemma PacketKeepsPongs(s: State, packet: Packet)
    requires PongInv(s) && s.loop.Serving?
    ensures PongInv(OnPacket(s, packet))
  {
    PongsForSnoc(s.pings, packet);
    Unit(OfType(s.accepted, MSG_PONG));
  }

  lemma PacketKeepsOthers(s: State, packet: Packet)
    requires VideoInv(s) && GreetingInv(s) && s.loop.Serving?
    ensures VideoInv(OnPacket(s, packet)) && GreetingInv(OnPacket(s, packet))
  {
  }

  lemma PacketCounts(s: State, packet: Packet)
    requires CountInv(s) && s.loop.Serving?
    ensures CountInv(OnPacket(s, packet))
  {
    PacketKeepsPongs(s, packet);
    PacketKeepsOthers(s, packet);
  }

  lemma PongCounts(s: State)
    requires CountInv(s) && s.loop.Ponging? && CanSend(s)
    ensures CountInv(Send(s, s.loop.pong).(loop := Serving))
  {
    var p := s.loop.pong;
    OfTypeSnoc(s.accepted, p, MSG_VIDEO_DATA);
    OfTypeSnoc(s.accepted, p, MSG_PONG);
    Unit(OfType(s.accepted, MSG_VIDEO_DATA));
    Unit(OfType(s.accepted, MSG_PONG) + [p]);
  }

  lemma StepKeepsCounts(s: State, e: Event)
    requires CountInv(s)
    ensures CountInv(Step(s, e))
  {
    match e
    case Greet(payload) =>
      if s.loop.SendingAck? && CanSend(s) {
        SendOther(s, NewPacket(MSG_HELLO_ACK, 0, 0, payload), SendingConfig);
      } else if s.loop.SendingConfig? && CanSend(s) {
        SendOther(s, NewPacket(MSG_DISPLAY_CONFIG, 0, 1, payload), Serving);
      }
    case TakeFrame(frame) =>
      if s.loop.Serving? {
        FrameCounts(s, frame);
      }
    case FromClient(packet) =>
      if s.loop.Serving? {
        PacketCounts(s, packet);
      }
    case SendPong =>
      if s.loop.Ponging? && CanSend(s) {
        PongCounts(s);
      }
    case EndSession =>
    case _ => TransportLeavesLoopAlone(s, e);
  }

  lemma {:induction false} RunKeepsCounts(stale: seq<byte>, events: seq<Event>)
    ensures CountInv(Run(Init(stale), events))
  {
    if events != [] {
      var n := |events| - 1;
      RunKeepsCounts(stale, events[..n]);
      StepKeepsCounts(Run(Init(stale), events[..n]), events[n]);
    }
  }

  // ----- sequence numbers and drops -----

  lemma {:induction false} SentIndexIsQueued(fates: seq<Fate>, k: nat)
    requires k < |SentIndices(fates)|
    ensures SentIndices(fates)[k] < |fates| && fates[SentIndices(fates)[k]].Queued?
  {
    var n := |fates| - 1;
    if k < |SentIndices(fates[..n])| {
      SentIndexIsQueued(fates[..n], k);
    }
  }

  lemma {:induction false} SentIndicesIncrease(fates: seq<Fate>, j: nat, k: nat)
    requires j < k < |SentIndices(fates)|
    ensures SentIndices(fates)[j] < SentIndices(fates)[k]
  {
    var n := |fates| - 1;
    if k < |SentIndices(fates[..n])| {
      SentIndicesIncrease(fates[..n], j, k);
    } else {
      SentIndexIsQueued(fates[..n], j);
    }
  }

  lemma {:induction false} QueuedIsSent(fates: seq<Fate>, i: nat)
    requires i < |fates| && fates[i].Queued?
    ensures i in SentIndices(fates)
  {
    var n := |fates| - 1;
    var idx := SentIndices(fates[..n]);
    if i < n {
      QueuedIsSent(fates[..n], i);
      var k :| 0 <= k < |idx| && idx[k] == i;
      assert SentIndices(fates)[k] == i;
    } else {
      assert SentIndices(fates)[|idx|] == n;
    }
  }

  lemma SentIndicesAreTheQueuedOnes(fates: seq<Fate>)
    ensures var idx := SentIndices(fates);
            && (forall k | 0 <= k < |idx| :: idx[k] < |fates| && fates[idx[k]].Queued?)
            && (forall j, k | 0 <= j < k < |idx| :: idx[j] < idx[k])
            && (forall i | 0 <= i < |fates| && fates[i].Queued? :: i in idx)
  {
    var idx := SentIndices(fates);
    forall k | 0 <= k < |idx| ensures idx[k] < |fates| && fates[idx[k]].Queued? {
      SentIndexIsQueued(fates, k);
    }
    forall j, k | 0 <= j < k < |idx| ensures idx[j] < idx[k] {
      SentIndicesIncrease(fates, j, k);
    }
    forall i | 0 <= i < |fates| && fates[i].Queued? ensures i in idx {
      QueuedIsSent(fates, i);
    }
  }

  lemma {:induction false} SentVideoAt(taken: seq<VideoFrame>, fates: seq<Fate>, k: nat)
    requires |taken| == |fates|
    ensures |SentVideo(taken, fates)| == |SentIndices(fates)|
    ensures k < |SentIndices(fates)| ==>
              var i := SentIndices(fates)[k];
              i < |taken| && SentVideo(taken, fates)[k] == VideoPacket(taken[i], (i + 1) % 0x1_0000_0000)
  {
    if taken != [] {
      var n := |taken| - 1;
      SentVideoAt(taken[..n], fates[..n], k);
    }
  }

  lemma {:induction false} AllDropped(fates: seq<Fate>)
    requires forall f <- fates :: f.Dropped?
    ensures DropCount(fates) == |fates|
  {
    if fates != [] {
      assert fates[0] in fates && forall f <- fates[1..] :: f in fates;
      AllDropped(fates[1..]);
    }
  }

  lemma BetweenQueuedAllDropped(fates: seq<Fate>, k: nat)
    requires k + 1 < |SentIndices(fates)|
    requires forall i | 0 <= i < |fates| :: fates[i].Refused? ==> i == |fates| - 1
    ensures var i, j := SentIndices(fates)[k], SentIndices(fates)[k + 1];
            i < j < |fates| && DropCount(fates[i + 1..j]) == j - i - 1
  {
    SentIndicesAreTheQueuedOnes(fates);
    var idx := SentIndices(fates);
    var i, j := idx[k], idx[k + 1];
    forall f | f in fates[i + 1..j] ensures f.Dropped? {
      var m :| i + 1 <= m < j && fates[m] == f;
      assert fates[m].Queued? ==> m in idx;
    }
    AllDropped(fates[i + 1..j]);
  }

  lemma ModuloShift(x: int, c: int)
    ensures (x + c * 0x1_0000_0000) % 0x1_0000_0000 == x % 0x1_0000_0000
  {
  }

  // The gap between two wrapped numbers, less one, is the distance less one, wrapped.
  lemma GapModulo(i: nat, j: nat, si: u32, sj: u32)
    requires si == (i + 1) % 0x1_0000_0000 && sj == (j + 1) % 0x1_0000_0000
    ensures (sj - si - 1) % 0x1_0000_0000 == (j - i - 1) % 0x1_0000_0000
  {
    var a, b := (i + 1) / 0x1_0000_0000, (j + 1) / 0x1_0000_0000;
    ModuloShift(sj - si - 1, b - a);
  }

  // Sequence numbers and drops, for a state of the session loop.
  lemma VideoInState(s: State, k: nat)
    requires VideoInv(s)
    ensures var video := OfType(s.accepted, MSG_VIDEO_DATA);
            var idx := SentIndices(s.fates);
            && |video| == |idx|
            && (k < |idx| ==>
                  idx[k] < |s.taken| && video[k] == VideoPacket(s.taken[idx[k]], (idx[k] + 1) % 0x1_0000_0000))
  {
    SentVideoAt(s.taken, s.fates, k);
  }

  lemma GapInState(s: State, k: nat)
    requires VideoInv(s) && k + 1 < |SentIndices(s.fates)|
    ensures var video := OfType(s.accepted, MSG_VIDEO_DATA);
            var idx := SentIndices(s.fates);
            && |video| == |idx| && idx[k] < idx[k + 1] < |s.fates|
            && (video[k + 1].header.sequence - video[k].header.sequence - 1) % 0x1_0000_0000
               == DropCount(s.fates[idx[k] + 1..idx[k + 1]]) % 0x1_0000_0000
  {
    VideoInState(s, k);
    VideoInState(s, k + 1);
    BetweenQueuedAllDropped(s.fates, k);
    var video, idx := OfType(s.accepted, MSG_VIDEO_DATA), SentIndices(s.fates);
    GapModulo(idx[k], idx[k + 1], video[k].header.sequence, video[k + 1].header.sequence);
  }

  // Between two consecutive video packets the channel accepted, the sequence gap
  // minus one is the number of frames dropped on a full channel in between.
  lemma SequenceGapCountsDrops(stale: seq<byte>, events: seq<Event>, s: State, k: nat)
    requires s == Run(Init(stale), events)
    requires k + 1 < |OfType(s.accepted, MSG_VIDEO_DATA)|
    ensures var video := OfType(s.accepted, MSG_VIDEO_DATA);
            var idx := SentIndices(s.fates);
            && |video| == |idx| && idx[k] < idx[k + 1] < |s.fates|
            && (video[k + 1].header.sequence - video[k].header.sequence - 1) % 0x1_0000_0000
               == DropCount(s.fates[idx[k] + 1..idx[k + 1]]) % 0x1_0000_0000
  {
    RunKeepsCounts(stale, events);
    VideoInState(s, k);
    GapInState(s, k);
  }

  // The k-th video packet is that of the k-th queued frame, numbered by its
  // position among all frames taken, recoveries or not.
  lemma VideoPacketsCarryTheirFrames(stale: seq<byte>, events: seq<Event>, s: State, k: nat)
    requires s == Run(Init(stale), events)
    ensures var video := OfType(s.accepted, MSG_VIDEO_DATA);
            var idx := SentIndices(s.fates);
            && |video| == |idx|
            && (k < |idx| ==>
                  idx[k] < |s.taken| && video[k] == VideoPacket(s.taken[idx[k]], (idx[k] + 1) % 0x1_0000_0000))
  {
    RunKeepsCounts(stale, events);
    VideoInState(s, k);
  }

  lemma {:induction false} PongsForAt(pings: seq<Packet>, k: nat)
    ensures |PongsFor(pings)| == |pings|
    ensures k < |pings| ==> Answers(PongsFor(pings)[k], pings[k])
  {
    if pings != [] {
      PongsForAt(pings[..|pings| - 1], k);
    }
  }

  // PONGs accepted answer the PINGs consumed, in order and with their sequence and
  // payload: all of them but the one being sent while the write worker lives, and
  // an initial part of them in any case.
  lemma PongsAnswerPings(stale: seq<byte>, events: seq<Event>, s: State)
    requires s == Run(Init(stale), events)
    ensures |OfType(s.accepted, 0x31)| <= |s.pings|
    ensures forall k | 0 <= k < |OfType(s.accepted, 0x31)| :: Answers(OfType(s.accepted, 0x31)[k], s.pings[k])
    ensures !s.worker.Stopped? ==>
              |s.pings| == |OfType(s.accepted, 0x31)| + if s.loop.Ponging? then 1 else 0
    ensures s.loop.Ponging? && !s.worker.Stopped? ==> Answers(s.loop.pong, s.pings[|s.pings| - 1])
  {
    RunKeepsCounts(stale, events);
    var pongs := OfType(s.accepted, MSG_PONG);
    PongsForAt(s.pings, |pongs|);
    forall k | 0 <= k < |pongs| ensures Answers(pongs[k], s.pings[k]) {
      PongsForAt(s.pings, k);
    }
  }
}
