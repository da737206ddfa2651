// The frame path over TCP: from the encoder's channel through the session loop and
// the socket to the frames the client's decoder polls.
module TcpEndToEnd {
  import opened Bytes
  import opened Wrappers
  import opened Packets
  import opened Seqs
  import opened Window
  import opened ClientSession
  import opened UsbAccounting
  import opened HostStreams
  import opened ReferenceChain
  import opened TcpSession
  import opened VideoFrames
  import E = EncoderChannel
  import P = UsbPipeline
  import R = FrameRing

  predicate BoundedInput(i: Input) {
    match i
    case Frame(frame, metrics) =>
      |frame.data| <= MAX_PAYLOAD_SIZE && (metrics.Some? ==> |metrics.value| <= MAX_PAYLOAD_SIZE)
    case FromClient(packet) => |packet.payload| <= MAX_PAYLOAD_SIZE
    case ReadFails => true
  }

  // HELLO_ACK and DISPLAY_CONFIG, with their JSON bodies.
  function Greeting(ack: seq<byte>, config: seq<byte>): seq<Packet> {
    [NewPacket(MSG_HELLO_ACK, 0, 0, ack)] + [NewPacket(MSG_DISPLAY_CONFIG, 0, 1, config)]
  }

  // Everything one session writes.
  function Sent(ack: seq<byte>, config: seq<byte>, inputs: seq<Input>): seq<Packet> {
    Greeting(ack, config) + Output(0, inputs)
  }

  // A session starts with these two, whatever comes after them.
  lemma GreetingIsSentFirst(ack: seq<byte>, config: seq<byte>, inputs: seq<Input>)
    ensures var ps := Sent(ack, config, inputs);
            && |ps| == 2 + |Output(0, inputs)| && ps[2..] == Output(0, inputs)
            && ps[0] == Packet(Header(1, 0x02, 0, 0, |ack| % 0x1_0000_0000), ack)
            && ps[1] == Packet(Header(1, 0x05, 0, 1, |config| % 0x1_0000_0000), config)
  {
  }

  ghost predicate Deliverable(p: Packet) {
    WellFormed(p) && p.header.msgType != MSG_DISCONNECT
  }

  lemma {:induction false} OutputIsDeliverable(n: nat, inputs: seq<Input>)
    requires forall i <- inputs :: BoundedInput(i)
    ensures forall p <- Output(n, inputs) :: Deliverable(p)
    decreases |inputs|
  {
    if inputs != [] && !Ends(inputs[0]) {
      assert inputs[0] in inputs;
      OutputIsDeliverable(if inputs[0].Frame? then n + 1 else n, inputs[1..]);
      assert forall p <- Response(n, inputs[0]) :: Deliverable(p);
    }
  }

  lemma SentIsHostStream(ack: seq<byte>, config: seq<byte>, inputs: seq<Input>)
    requires |ack| <= MAX_PAYLOAD_SIZE && |config| <= MAX_PAYLOAD_SIZE && forall i <- inputs :: BoundedInput(i)
    ensures AllWellFormed(Sent(ack, config, inputs)) && HostStream(Sent(ack, config, inputs))
  {
    OutputIsDeliverable(0, inputs);
    assert Sent(ack, config, inputs)[0] == NewPacket(MSG_HELLO_ACK, 0, 0, ack);
    assert forall p <- Sent(ack, config, inputs) :: p in Greeting(ack, config) || p in Output(0, inputs);
    assert forall p <- Greeting(ack, config) :: Deliverable(p);
  }

  lemma VideoSent(ack: seq<byte>, config: seq<byte>, inputs: seq<Input>)
    ensures OfType(Sent(ack, config, inputs), MSG_VIDEO_DATA) == Numbered(0, Taken(inputs))
  {
    var p, q := NewPacket(MSG_HELLO_ACK, 0, 0, ack), NewPacket(MSG_DISPLAY_CONFIG, 0, 1, config);
    OfTypeSnoc([], p, MSG_VIDEO_DATA);
    OfTypeSnoc([p], q, MSG_VIDEO_DATA);
    Unit([p]);
    OfTypeAppend(Greeting(ack, config), Output(0, inputs), MSG_VIDEO_DATA);
    EveryFrameIsWritten(0, inputs);
    Unit(Numbered(0, Taken(inputs)));
  }

  // What the client makes of the bytes that get through to it.
  ghost predicate ReadFrom(frames: seq<R.Frame>, wire: seq<byte>, ps: seq<Packet>) {
    wire <= EncodeAll(ps) && frames == FramesOf(ReadAll(wire).packets)
  }

  // However much of it gets through, the frames that the client's read loop offers are
  // the first of those the session took, in order, and all of them if all gets through.
  lemma EveryFrameTakenIsOffered(ack: seq<byte>, config: seq<byte>, inputs: seq<Input>, ps: seq<Packet>,
                                 wire: seq<byte>, frames: seq<R.Frame>)
    requires |ack| <= MAX_PAYLOAD_SIZE && |config| <= MAX_PAYLOAD_SIZE && forall i <- inputs :: BoundedInput(i)
    requires ps == Sent(ack, config, inputs) && ReadFrom(frames, wire, ps)
    ensures frames <= FramesIn(Numbered(0, Taken(inputs)))
    ensures wire == EncodeAll(ps) ==> frames == FramesIn(Numbered(0, Taken(inputs)))
  {
    SentIsHostStream(ack, config, inputs);
    VideoSent(ack, config, inputs);
    ReadAllOfEncodings(ps);
    ReadAllOfPrefix(wire, EncodeAll(ps));
    FramesOfPrefix(ReadAll(wire).packets, AllAsClient(ps));
    AllViewsAreInverse(ps);
    FramesOfHostStream([], AllAsClient(ps));
    Unit(AllAsClient(ps));
    Unit(FramesIn(Numbered(0, Taken(inputs))));
  }

  // The k-th of them has the payload and the keyframe bit of the k-th frame taken, and
  // its number, wrapping at 32 bits.
  lemma OfferedCarriesTaken(ack: seq<byte>, config: seq<byte>, inputs: seq<Input>, ps: seq<Packet>,
                            wire: seq<byte>, frames: seq<R.Frame>, k: nat)
    requires |ack| <= MAX_PAYLOAD_SIZE && |config| <= MAX_PAYLOAD_SIZE && forall i <- inputs :: BoundedInput(i)
    requires ps == Sent(ack, config, inputs) && ReadFrom(frames, wire, ps)
    requires k < |frames|
    ensures k < |Taken(inputs)|
    ensures var source := Taken(inputs)[k];
            && frames[k].data == source.data
            && (R.IsKeyframe(frames[k]) <==> source.isKeyframe) && FrameFlags(frames[k], source.isKeyframe)
            && Unsigned(frames[k].sequence, 0x1_0000_0000) == (k + 1) % 0x1_0000_0000
  {
    EveryFrameTakenIsOffered(ack, config, inputs, ps, wire, frames);
    NumberedFrame(Taken(inputs), k);
  }

  lemma NumberedFrame(frames: seq<VideoFrame>, k: nat)
    requires k < |FramesIn(Numbered(0, frames))|
    ensures k < |frames|
    ensures FramesIn(Numbered(0, frames))[k] == FrameOf(AsClient(P.VideoPacket(frames[k], (k + 1) % 0x1_0000_0000)))
    ensures var frame := FramesIn(Numbered(0, frames))[k];
            && frame.data == frames[k].data
            && (R.IsKeyframe(frame) <==> frames[k].isKeyframe) && FrameFlags(frame, frames[k].isKeyframe)
            && Unsigned(frame.sequence, 0x1_0000_0000) == (k + 1) % 0x1_0000_0000
  {
    FramesInAt(Numbered(0, frames), k);
    NumberedLength(0, frames);
    NumberedAt(0, frames, k);
    FlagsSurvive(frames[k], (k + 1) % 0x1_0000_0000);
  }

  // ----- the encoder channel in front of the session loop -----

  // The inputs the session loop has had, its frames from the encoder channel.
  datatype Host = Host(encoder: E.State, inputs: seq<Input>)

  datatype HostEvent = Encode(frame: VideoFrame) | Receive(metrics: Option<seq<byte>>) | Other(input: Input)

  // While the loop is busy writing, frames pile up in the channel and overflow it.
  function HostStep(s: Host, e: HostEvent): Host {
    match e
    case Encode(frame) => s.(encoder := E.Step(s.encoder, E.Produce(frame)))
    case Receive(metrics) =>
      if Live(s.inputs) && E.CanReceive(s.encoder) then
        Host(E.Step(s.encoder, E.Receive),
                s.inputs + [Frame(s.encoder.produced[s.encoder.waiting[0]], metrics)])
      else s
    case Other(input) => if input.Frame? then s else s.(inputs := s.inputs + [input])
  }

  function HostRun(events: seq<HostEvent>): Host {
    if events == [] then Host(E.Init(), [])
    else HostStep(HostRun(events[..|events| - 1]), events[|events| - 1])
  }

  predicate BoundedEvent(e: HostEvent) {
    match e
    case Encode(frame) => |frame.data| <= MAX_PAYLOAD_SIZE
    case Receive(metrics) => metrics.Some? ==> |metrics.value| <= MAX_PAYLOAD_SIZE
    case Other(input) => BoundedInput(input)
  }

  lemma {:induction false} TakenSnoc(inputs: seq<Input>, i: Input)
    ensures Taken(inputs + [i]) == Taken(inputs) + if Live(inputs) && i.Frame? then [i.frame] else []
  {
    if inputs == [] {
      Unit([i]);
      assert Taken([i][1..]) == [];
    } else {
      DropWithin(inputs, [i], 1);
      TakenSnoc(inputs[1..], i);
      Assoc(if inputs[0].Frame? then [inputs[0].frame] else [], Taken(inputs[1..]),
            if Live(inputs[1..]) && i.Frame? then [i.frame] else []);
      Unit(Taken(inputs));
    }
  }

  // The loop has taken exactly the frames received from the channel, which nothing
  // replaces on TCP.
  ghost predicate HostInv(s: Host) {
    && E.Inv(s.encoder) && |s.encoder.received| == |Taken(s.inputs)|
    && (forall i | 0 <= i < |s.encoder.received| ::
          s.encoder.received[i] < |s.encoder.produced|
          && Taken(s.inputs)[i] == s.encoder.produced[s.encoder.received[i]])
    && (forall life <- s.encoder.lives :: !life.Abandoned?)
  }

  ghost predicate SmallInputs(s: Host) {
    && (forall frame <- s.encoder.produced :: |frame.data| <= MAX_PAYLOAD_SIZE)
    && (forall i <- s.inputs :: BoundedInput(i))
  }

  lemma EncodeKeepsHost(s: Host, frame: VideoFrame)
    requires HostInv(s)
    ensures HostInv(s.(encoder := E.Step(s.encoder, E.Produce(frame))))
  {
    E.StepKeepsInv(s.encoder, E.Produce(frame));
  }

  lemma ReceiveKeepsHost(s: Host, metrics: Option<seq<byte>>)
    requires HostInv(s) && Live(s.inputs) && E.CanReceive(s.encoder)
    ensures HostInv(HostStep(s, Receive(metrics)))
  {
    E.StepKeepsInv(s.encoder, E.Receive);
    TakenSnoc(s.inputs, Frame(s.encoder.produced[s.encoder.waiting[0]], metrics));
  }

  lemma StepKeepsHost(s: Host, e: HostEvent)
    requires HostInv(s)
    ensures HostInv(HostStep(s, e))
  {
    match e
    case Encode(frame) => EncodeKeepsHost(s, frame);
    case Receive(metrics) =>
      if Live(s.inputs) && E.CanReceive(s.encoder) {
        ReceiveKeepsHost(s, metrics);
      }
    case Other(input) =>
      TakenSnoc(s.inputs, input);
      Unit(Taken(s.inputs));
  }

  lemma StepKeepsSmall(s: Host, e: HostEvent)
    requires SmallInputs(s) && BoundedEvent(e)
    ensures SmallInputs(HostStep(s, e))
  {
  }

  lemma {:induction false} RunKeepsHost(events: seq<HostEvent>)
    requires forall e <- events :: BoundedEvent(e)
    ensures HostInv(HostRun(events)) && SmallInputs(HostRun(events))
  {
    if events != [] {
      var n := |events| - 1;
      assert events[n] in events;
      RunKeepsHost(events[..n]);
      StepKeepsHost(HostRun(events[..n]), events[n]);
      StepKeepsSmall(HostRun(events[..n]), events[n]);
    }
  }

  // ----- the host leaves nothing out -----

  function Encoded(events: seq<HostEvent>): seq<VideoFrame> {
    if events == [] then []
    else
      var n := |events| - 1;
      Encoded(events[..n]) + if events[n].Encode? then [events[n].frame] else []
  }

  // The packets and read errors that come in, as opposed to frames.
  function Incoming(events: seq<HostEvent>): seq<Input> {
    if events == [] then []
    else
      var n := |events| - 1;
      Incoming(events[..n]) + if events[n].Other? && !events[n].input.Frame? then [events[n].input] else []
  }

  function OthersAmong(inputs: seq<Input>): seq<Input> {
    if inputs == [] then []
    else
      var n := |inputs| - 1;
      OthersAmong(inputs[..n]) + if inputs[n].Frame? then [] else [inputs[n]]
  }

  lemma OthersSnoc(inputs: seq<Input>, i: Input)
    ensures OthersAmong(inputs + [i]) == OthersAmong(inputs) + if i.Frame? then [] else [i]
  {
    DropFront(inputs, [i]);
  }

  lemma ProducedStep(s: Host, e: HostEvent)
    ensures HostStep(s, e).encoder.produced == s.encoder.produced + if e.Encode? then [e.frame] else []
  {
    Unit(s.encoder.produced);
  }

  lemma OthersStep(s: Host, e: HostEvent)
    ensures OthersAmong(HostStep(s, e).inputs)
         == OthersAmong(s.inputs) + if e.Other? && !e.input.Frame? then [e.input] else []
  {
    Unit(OthersAmong(s.inputs));
    match e
    case Encode(_) =>
    case Receive(metrics) =>
      if Live(s.inputs) && E.CanReceive(s.encoder) {
        OthersSnoc(s.inputs, Frame(s.encoder.produced[s.encoder.waiting[0]], metrics));
      }
    case Other(input) => OthersSnoc(s.inputs, input);
  }

  // All frames encoded have been produced, all packets received are inputs.
  lemma {:induction false} HostMissesNothing(events: seq<HostEvent>)
    ensures HostRun(events).encoder.produced == Encoded(events)
    ensures OthersAmong(HostRun(events).inputs) == Incoming(events)
  {
    if events != [] {
      var n := |events| - 1;
      HostMissesNothing(events[..n]);
      ProducedStep(HostRun(events[..n]), events[n]);
      OthersStep(HostRun(events[..n]), events[n]);
    }
  }

  function Receives(n: nat): seq<HostEvent> {
    if n == 0 then [] else Receives(n - 1) + [Receive(None)]
  }

  lemma HostRunSnoc(events: seq<HostEvent>, e: HostEvent)
    ensures HostRun(events + [e]) == HostStep(HostRun(events), e)
  {
    DropFront(events, [e]);
  }

  // A live session takes the frames that wait, one by one, with as many receives.
  lemma {:induction false} WaitingFramesAreTaken(events: seq<HostEvent>, s: Host, n: nat)
    requires s == HostRun(events) && Live(s.inputs) && n <= |s.encoder.waiting|
    requires forall e <- events :: BoundedEvent(e)
    ensures var t := HostRun(events + Receives(n));
            && HostInv(t) && Live(t.inputs) && t.encoder.produced == s.encoder.produced
            && t.encoder.waiting == s.encoder.waiting[n..]
            && t.encoder.received == s.encoder.received + s.encoder.waiting[..n]
  {
    if n == 0 {
      RunKeepsHost(events);
      Unit(events);
      Unit(s.encoder.received);
    } else {
      WaitingFramesAreTaken(events, s, n - 1);
      var before := events + Receives(n - 1);
      var t := HostRun(before);
      Assoc(events, Receives(n - 1), [Receive(None)]);
      HostRunSnoc(before, Receive(None));
      TailAt(s.encoder.waiting, n - 1);
      Assoc(s.encoder.received, s.encoder.waiting[..n - 1], [s.encoder.waiting[n - 1]]);
      OneIsTaken(t);
    }
  }

  lemma OneIsTaken(t: Host)
    requires HostInv(t) && Live(t.inputs) && t.encoder.waiting != []
    ensures var u := HostStep(t, Receive(None));
            && HostInv(u) && Live(u.inputs) && u.encoder.produced == t.encoder.produced
            && u.encoder.waiting == t.encoder.waiting[1..]
            && u.encoder.received == t.encoder.received + [t.encoder.waiting[0]]
  {
    assert t.encoder.lives[t.encoder.waiting[0]] == E.InChannel;
    ReceiveKeepsHost(t, None);
    LiveSnoc(t.inputs, Frame(t.encoder.produced[t.encoder.waiting[0]], None));
  }

  lemma {:induction false} LiveSnoc(inputs: seq<Input>, i: Input)
    ensures Live(inputs + [i]) <==> Live(inputs) && !Ends(i)
  {
    if inputs == [] {
      Unit([i]);
      assert Live([i][1..]);
    } else {
      DropWithin(inputs, [i], 1);
      LiveSnoc(inputs[1..], i);
    }
  }

  // ----- references over TCP -----

  // The frame met room in the encoder channel.
  function Entered(e: E.State): (entered: seq<bool>)
    ensures |entered| == |e.lives|
  {
    seq(|e.lives|, m requires 0 <= m < |e.lives| => !e.lives[m].Overflowed?)
  }

  lemma ReceivedEnumerateEntered(s: Host)
    requires HostInv(s)
    ensures Enumerates(s.encoder.received, Entered(s.encoder))
  {
    var received, lives := s.encoder.received, s.encoder.lives;
    forall i, j | 0 <= i < j < |received| ensures received[i] < received[j] {
      E.ReceivedOrder(s.encoder, i, j);
    }
    forall m, j | 0 <= j < |received| && 0 <= m < received[j] && Entered(s.encoder)[m] ensures m in received {
      E.EarlierIsReceived(s.encoder, m, j);
      assert lives[m] in lives;
      assert received[lives[m].i] == m;
    }
  }

  // A session: what happened on the host, what it wrote, the part of that which got
  // through, the frames in it, and what the client's frame buffer did with them.
  datatype Trace = Trace(events: seq<HostEvent>, ack: seq<byte>, config: seq<byte>, ps: seq<Packet>,
                         wire: seq<byte>, frames: seq<R.Frame>, capacity: nat, moves: seq<R.Event>)

  // A session of any length, of whose bytes any front part has got through, and a frame
  // buffer that has been offered some of the frames in it.
  ghost predicate TcpRun(t: Trace, s: Host, r: R.Ring) {
    && |t.ack| <= MAX_PAYLOAD_SIZE && |t.config| <= MAX_PAYLOAD_SIZE && (forall e <- t.events :: BoundedEvent(e))
    && s == HostRun(t.events) && t.ps == Sent(t.ack, t.config, s.inputs) && ReadFrom(t.frames, t.wire, t.ps)
    && t.capacity >= 1 && r == R.Run(R.Init(t.capacity), t.moves) && r.offered <= t.frames
  }

  lemma TcpLink(t: Trace, s: Host, r: R.Ring, k: nat)
    requires TcpRun(t, s, r) && k < |r.polled|
    ensures Link(s.encoder.produced, Entered(s.encoder), Places(s.encoder.received, r.polled), k)
  {
    RunKeepsHost(t.events);
    R.ReferenceContinuity(t.capacity, t.moves, r, k);
    var j := r.polled[k];
    OfferedCarriesTaken(t.ack, t.config, s.inputs, t.ps, t.wire, t.frames, j);
    assert r.offered[j] == t.frames[j];
    ReceivedEnumerateEntered(s);
    ContinuityIsLink(s.encoder.produced, Entered(s.encoder), s.encoder.received, r.polled, k);
  }

  // The whole chain over TCP: the decoder gets a frame and, directly before it and back
  // to a keyframe, every frame it depends on, if and only if a keyframe and every frame
  // produced from there to this one met room in the encoder channel.
  lemma ChainReachesDecoderIffEntered(t: Trace, s: Host, r: R.Ring, entered: seq<bool>, places: seq<int>, k: nat)
    requires TcpRun(t, s, r)
    requires entered == Entered(s.encoder) && places == Places(s.encoder.received, r.polled) && k < |places|
    ensures Shows(s.encoder.produced, places, k) <==> KeptSinceKeyframe(s.encoder.produced, entered, places[k])
  {
    forall i: nat | i <= k ensures Link(s.encoder.produced, entered, places, i) {
      TcpLink(t, s, r, i);
    }
    ShowsIffKept(s.encoder.produced, entered, places, k);
  }

  // A link in words: a P-frame comes directly after the frame produced before it exactly
  // when that one met room in the encoder channel.
  ghost predicate FollowsIffEntered(e: E.State, places: seq<int>, k: nat)
    requires k < |places|
  {
    && 0 <= places[k] < |e.produced| == |e.lives|
    && (!e.produced[places[k]].isKeyframe && places[k] > 0 ==>
          (!e.lives[places[k] - 1].Overflowed? <==> k > 0 && places[k - 1] == places[k] - 1))
  }

  // One link of it: a polled P-frame comes out directly after the frame the encoder
  // produced before it if and only if that one met room in the encoder channel.
  lemma ReferenceReachesDecoderIffEntered(t: Trace, s: Host, r: R.Ring, places: seq<int>, k: nat)
    requires TcpRun(t, s, r)
    requires places == Places(s.encoder.received, r.polled) && k < |places|
    ensures FollowsIffEntered(s.encoder, places, k)
  {
    RunKeepsHost(t.events);
    TcpLink(t, s, r, k);
    LinkInWords(s.encoder, places, k);
  }

  lemma LinkInWords(e: E.State, places: seq<int>, k: nat)
    requires |e.lives| == |e.produced| && Link(e.produced, Entered(e), places, k)
    ensures FollowsIffEntered(e, places, k)
  {
  }
}
