// A USB session as its peers see it: what it takes from the encoder and the client and
// what it sends for that, by message types and packet fields, and how it ends.
module UsbHistory {
  import opened Bytes
  import opened Packets
  import opened Seqs
  import opened UsbAccounting
  import opened UsbPipeline
  import opened UsbWriter
  import opened VideoFrames
  import opened Window

  // ----- what the session loop takes -----

  // The frames and the PINGs that reach the session loop at its select!.
  function FramesMet(init: State, events: seq<Event>): seq<VideoFrame> {
    if events == [] then []
    else
      var n := |events| - 1;
      FramesMet(init, events[..n])
      + if events[n].TakeFrame? && Run(init, events[..n]).loop.Serving? then [events[n].frame] else []
  }

  function PingsMet(init: State, events: seq<Event>): seq<Packet> {
    if events == [] then []
    else
      var n := |events| - 1;
      PingsMet(init, events[..n])
      + if IsPing(events[n]) && Run(init, events[..n]).loop.Serving? then [events[n].packet] else []
  }

  predicate IsPing(e: Event) {
    e.FromClient? && e.packet.header.msgType == 0x30
  }

  lemma TakenStep(s: State, e: Event)
    ensures Step(s, e).taken == s.taken + if e.TakeFrame? && s.loop.Serving? then [e.frame] else []
  {
    Unit(s.taken);
  }

  lemma PingsStep(s: State, e: Event)
    ensures Step(s, e).pings == s.pings + if IsPing(e) && s.loop.Serving? then [e.packet] else []
  {
    Unit(s.pings);
  }

  lemma {:induction false} RecordsAreTrue(stale: seq<byte>, events: seq<Event>, s: State)
    requires s == Run(Init(stale), events)
    ensures s.taken == FramesMet(Init(stale), events) && s.pings == PingsMet(Init(stale), events)
  {
    if events != [] {
      var n := |events| - 1;
      RecordsAreTrue(stale, events[..n], Run(Init(stale), events[..n]));
      TakenStep(Run(Init(stale), events[..n]), events[n]);
      PingsStep(Run(Init(stale), events[..n]), events[n]);
    }
  }

  // ----- what it sends -----

  // The k-th video packet shows the k-th frame queued, with both flag bits, numbered by
  // its position among all frames taken.
  lemma VideoPacketsShowFrames(stale: seq<byte>, events: seq<Event>, s: State, k: nat)
    requires s == Run(Init(stale), events)
    ensures var video, idx := OfType(s.accepted, 0x11), SentIndices(s.fates);
            && |video| == |idx|
            && (k < |idx| ==>
                  && idx[k] < |s.taken|
                  && ShowsFrame(video[k], s.taken[idx[k]].isKeyframe, s.taken[idx[k]].data, idx[k] + 1))
  {
    RunKeepsCounts(stale, events);
    VideoShows(s, k);
  }

  lemma VideoShows(s: State, k: nat)
    requires VideoInv(s)
    ensures var video, idx := OfType(s.accepted, 0x11), SentIndices(s.fates);
            && |video| == |idx|
            && (k < |idx| ==>
                  && idx[k] < |s.taken|
                  && ShowsFrame(video[k], s.taken[idx[k]].isKeyframe, s.taken[idx[k]].data, idx[k] + 1))
  {
    VideoInState(s, k);
    if k < |SentIndices(s.fates)| {
      FrameInFields(s.taken[SentIndices(s.fates)[k]], SentIndices(s.fates)[k] + 1);
    }
  }

  // One frame: queued while fewer than 120 packets wait, dropped on a full channel, and
  // the end of the session once the write worker is gone.
  lemma OneFrame(stale: seq<byte>, events: seq<Event>, s: State, frame: VideoFrame)
    requires s == Run(Init(stale), events) && s.loop.Serving?
    ensures FrameIsHandled(s, frame, Step(s, TakeFrame(frame)))
  {
    RunKeepsCounts(stale, events);
    FrameHandled(s, frame);
  }

  ghost predicate FrameIsHandled(s: State, frame: VideoFrame, t: State) {
    if s.worker.Stopped? then
      t.loop.Over? && t.accepted == s.accepted && t.fates == s.fates + [Refused]
    else if |s.channel| >= 120 then
      t.loop.Serving? && t.accepted == s.accepted && t.fates == s.fates + [Dropped]
    else
      && t.loop.Serving? && |t.accepted| == |s.accepted| + 1 && s.accepted <= t.accepted
      && ShowsFrame(t.accepted[|s.accepted|], frame.isKeyframe, frame.data, |s.taken| + 1)
      && t.fates == s.fates + [Queued]
  }

  lemma FrameHandled(s: State, frame: VideoFrame)
    requires VideoInv(s) && s.loop.Serving?
    ensures FrameIsHandled(s, frame, Step(s, TakeFrame(frame)))
  {
    NextSequence(|s.taken|);
    FrameInFields(frame, |s.taken| + 1);
  }

  lemma {:induction false} TransportWaits(s: State, moves: seq<Event>)
    requires forall e <- moves :: OfTransport(e)
    ensures Run(s, moves).loop == s.loop && Run(s, moves).accepted == s.accepted
    ensures s.worker.Stopped? ==> Run(s, moves).worker.Stopped?
  {
    if moves != [] {
      var n := |moves| - 1;
      assert moves[n] in moves;
      TransportWaits(s, moves[..n]);
      TransportLeavesLoopAlone(Run(s, moves[..n]), moves[n]);
    }
  }

  // One PING: however long the transport takes to make room, the loop stays with it and
  // accepts nothing else; then exactly its PONG, and the loop serves again.
  lemma OnePing(s: State, ping: Packet, moves: seq<Event>, t: State)
    requires s.loop.Serving? && ping.header.msgType == 0x30 && forall e <- moves :: OfTransport(e)
    requires t == Run(Step(s, FromClient(ping)), moves) && !t.worker.Stopped?
    ensures t.accepted == s.accepted && t.loop.Ponging?
    ensures |t.channel| >= 120 ==> Step(t, SendPong) == t
    ensures |t.channel| < 120 ==> var u := Step(t, SendPong);
              && u.loop.Serving? && |u.accepted| == |s.accepted| + 1 && s.accepted <= u.accepted
              && Answers(u.accepted[|s.accepted|], ping)
  {
    TransportWaits(Step(s, FromClient(ping)), moves);
  }

  // Other packets change nothing, but for a DISCONNECT and a new HELLO.
  lemma OneOtherPacket(s: State, p: Packet)
    requires s.loop.Serving? && p.header.msgType != 0x30
    ensures var t := Step(s, FromClient(p));
            if p.header.msgType in {0xFF, 0x01} then t.loop.Over? && t.closed && t.accepted == s.accepted else t == s
  {
  }

  lemma StepAcceptsMore(s: State, e: Event)
    ensures s.accepted <= Step(s, e).accepted
  {
  }

  lemma {:induction false} AcceptedOnlyGrows(s: State, more: seq<Event>)
    ensures s.accepted <= Run(s, more).accepted
  {
    if more != [] {
      AcceptedOnlyGrows(s, more[..|more| - 1]);
      StepAcceptsMore(Run(s, more[..|more| - 1]), more[|more| - 1]);
    }
  }

  // A session starts with its HELLO_ACK and DISPLAY_CONFIG, whatever comes after them.
  lemma GreetingIsSentFirst(stale: seq<byte>, ack: seq<byte>, config: seq<byte>, more: seq<Event>, s: State)
    requires s == Run(Step(Step(Init(stale), Greet(ack)), Greet(config)), more)
    ensures |s.accepted| >= 2
    ensures s.accepted[0] == Packet(Header(1, 0x02, 0, 0, |ack| % 0x1_0000_0000), ack)
    ensures s.accepted[1] == Packet(Header(1, 0x05, 0, 1, |config| % 0x1_0000_0000), config)
  {
    var t := Step(Step(Init(stale), Greet(ack)), Greet(config));
    assert |t.accepted| == 2;
    AcceptedOnlyGrows(t, more);
  }

  // Before the greeting is out, frames and packets from the client are not taken.
  lemma NothingBeforeGreeting(s: State, e: Event)
    requires !s.loop.Serving? && (e.TakeFrame? || e.FromClient? || e.EndSession?)
    ensures Step(s, e) == s
  {
  }

  // ----- how it ends -----

  // The steps that end the session loop.
  predicate Ending(s: State, e: Event) {
    && s.loop.Serving?
    && (e.EndSession? || (e.TakeFrame? && s.worker.Stopped?)
        || (e.FromClient? && e.packet.header.msgType in {0xFF, 0x01}))
  }

  predicate MeetsEnding(init: State, events: seq<Event>) {
    events != [] &&
    var n := |events| - 1;
    MeetsEnding(init, events[..n]) || Ending(Run(init, events[..n]), events[n])
  }

  lemma OverStep(s: State, e: Event)
    requires s.loop.Over? ==> s.closed
    ensures Step(s, e).loop.Over? <==> s.loop.Over? || Ending(s, e)
    ensures Step(s, e).loop.Over? ==> Step(s, e).closed
  {
  }

  // The loop is over exactly when the run has met one of them, and then the stream is
  // closed.
  lemma {:induction false} OverIffEnded(stale: seq<byte>, events: seq<Event>)
    ensures var s := Run(Init(stale), events);
            (s.loop.Over? <==> MeetsEnding(Init(stale), events)) && (s.loop.Over? ==> s.closed)
  {
    if events != [] {
      var n := |events| - 1;
      OverIffEnded(stale, events[..n]);
      OverStep(Run(Init(stale), events[..n]), events[n]);
    }
  }

  predicate SameRecords(s: State, t: State) {
    t.accepted == s.accepted && t.taken == s.taken && t.fates == s.fates && t.pings == s.pings
  }

  lemma StepAfterOver(s: State, e: Event)
    requires s.loop.Over?
    ensures Step(s, e).loop.Over? && SameRecords(s, Step(s, e))
  {
  }

  // After its end it takes nothing and sends nothing more.
  lemma {:induction false} NothingAfterOver(s: State, more: seq<Event>)
    requires s.loop.Over?
    ensures Run(s, more).loop.Over? && SameRecords(s, Run(s, more))
  {
    if more != [] {
      NothingAfterOver(s, more[..|more| - 1]);
      StepAfterOver(Run(s, more[..|more| - 1]), more[|more| - 1]);
    }
  }

  // What has left the host, and what is left of the packet being written.
  function Departed(s: State): seq<byte> {
    s.read + (s.rx + s.wire)
  }

  function Current(s: State): seq<byte> {
    if s.worker.Writing? then Unsent(s.worker) else []
  }

  lemma MovesOut(read: seq<byte>, rx: seq<byte>, wire: seq<byte>, left: seq<byte>, m: nat)
    requires m <= |left|
    ensures read + (rx + (wire + left[..m])) == (read + (rx + wire)) + left[..m]
    ensures ((read + (rx + wire)) + left[..m]) + left[m..] == (read + (rx + wire)) + left
  {
    Assoc(rx, wire, left[..m]);
    Assoc(read, rx + wire, left[..m]);
    Assoc(read + (rx + wire), left[..m], left[m..]);
    Cut(left, m);
  }

  // A bulk write moves m of the bytes left out of the host, and drops or keeps the rest.
  lemma BulkMoves(s: State, bulk: Bulk, m: nat)
    requires s.worker.Writing? && s.worker.written < |s.worker.data|
    requires m == if bulk.Timeout? then 0 else Min(bulk.n, |Unsent(s.worker)|)
    ensures var t := OnBulk(s, bulk);
            && t.read == s.read && t.rx == s.rx && t.wire == s.wire + Unsent(s.worker)[..m]
            && Current(t) == if bulk.Error? then [] else Unsent(s.worker)[m..]
  {
    DropDrop(s.worker.data, s.worker.written, m);
    Unit(s.wire);
  }

  lemma BulkDeparts(s: State, bulk: Bulk)
    requires s.worker.Writing? && s.worker.written < |s.worker.data|
    ensures Departed(s) <= Departed(OnBulk(s, bulk))
    ensures Departed(OnBulk(s, bulk)) + Current(OnBulk(s, bulk)) <= Departed(s) + Current(s)
  {
    var m := if bulk.Timeout? then 0 else Min(bulk.n, |Unsent(s.worker)|);
    BulkMoves(s, bulk, m);
    MovesOut(s.read, s.rx, s.wire, Unsent(s.worker), m);
    Unit(Departed(OnBulk(s, bulk)));
  }

  lemma RefillKeepsDeparted(s: State, n: nat)
    requires s.rx == []
    ensures Departed(OnRefill(s, n)) == Departed(s)
  {
    var m := Min(Min(n, RX_SIZE), |s.wire|);
    Cut(s.wire, m);
    Unit(s.wire);
  }

  lemma ByteKeepsDeparted(s: State)
    requires s.rx != [] && s.reader.Reading?
    ensures Departed(OnByte(s)) == Departed(s)
  {
    HeadTail(s.rx);
    Assoc([s.rx[0]], s.rx[1..], s.wire);
    Assoc(s.read, [s.rx[0]], s.rx[1..] + s.wire);
  }

  lemma NothingDeparts(s: State, e: Event)
    requires s.closed && !e.BulkWrite? && !e.Refill? && !e.ReadByte? && !e.FinishWrite?
    ensures var t := Step(s, e);
            t.closed && t.read == s.read && t.rx == s.rx && t.wire == s.wire && Current(t) == Current(s)
  {
  }

  lemma ClosedStep(s: State, e: Event)
    requires s.closed
    ensures Step(s, e).closed && Departed(s) <= Departed(Step(s, e))
    ensures Departed(Step(s, e)) + Current(Step(s, e)) <= Departed(s) + Current(s)
  {
    match e
    case BulkWrite(bulk) =>
      if s.worker.Writing? && s.worker.written < |s.worker.data| {
        BulkDeparts(s, bulk);
      }
    case Refill(n) =>
      if s.rx == [] {
        RefillKeepsDeparted(s, n);
      }
    case ReadByte =>
      if s.rx != [] && s.reader.Reading? {
        ByteKeepsDeparted(s);
      }
    case FinishWrite => Unit(Departed(s));
    case _ => NothingDeparts(s, e);
  }

  // Once the stream is closed, by the end of the loop or by an error on either side, no
  // packet is begun: at most the rest of the one being written still leaves the host.
  lemma {:induction false} CloseStopsWriting(s: State, more: seq<Event>)
    requires s.closed
    ensures var t := Run(s, more);
            t.closed && Departed(s) <= Departed(t) <= Departed(s) + Current(s)
    ensures Departed(Run(s, more)) + Current(Run(s, more)) <= Departed(s) + Current(s)
  {
    if more == [] {
      Unit(Departed(s));
    } else {
      var n := |more| - 1;
      CloseStopsWriting(s, more[..n]);
      ClosedStep(Run(s, more[..n]), more[n]);
    }
  }

  // Each side can close it.
  lemma FailuresClose(s: State, n: nat)
    ensures Step(s, ReadSideFails).closed
    ensures s.worker.Writing? && s.worker.written < |s.worker.data| ==>
              Step(s, BulkWrite(Error(n))).closed && Step(s, BulkWrite(Error(n))).worker.Stopped?
    ensures s.closed && s.worker.Idle? && s.channel != [] ==> Step(s, TakeFromChannel).worker.Stopped?
  {
  }
}
