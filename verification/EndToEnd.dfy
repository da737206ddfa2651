// The whole frame path: the encoder's channel, the USB pipeline, the client's read
// loop and the frame buffer running together, from the encoder to the decoder.
module EndToEnd {
  import opened Bytes
  import opened Packets
  import opened Seqs
  import opened StaleBytes
  import opened VideoFrames
  import opened Window
  import opened ClientSession
  import opened HostStreams
  import opened ReferenceChain
  import opened UsbAccounting
  import E = EncoderChannel
  import P = UsbPipeline
  import R = FrameRing

  datatype Sys = Sys(encoder: E.State, pipe: P.State, ring: R.Ring)

  // The encoder's callback, the session loop taking the next frame or recovering the
  // display, any other step of the pipeline, the read loop handing its next frame to
  // offer(), the next sub-step of that offer(), or a poll by the decoder.
  datatype Event =
    | Encode(frame: VideoFrame)
    | Take
    | Recover
    | Pipe(event: P.Event)
    | OfferNext
    | Advance
    | Poll

  function Init(stale: seq<byte>, capacity: nat): Sys {
    Sys(E.Init(), P.Init(stale), R.Init(capacity))
  }

  // The session loop is at its select! and a frame waits in the encoder channel.
  predicate CanTake(s: Sys) {
    E.CanReceive(s.encoder) && s.pipe.loop.Serving?
  }

  // The read loop is one coroutine: it reads on only when offer() has returned for
  // every frame it has read.
  predicate ReadsNext(s: Sys) {
    s.ring.producer.Ready? && |s.ring.offered| == |FramesOf(s.pipe.returned)|
  }

  predicate Enabled(s: Sys, e: P.Event) {
    !e.TakeFrame? && (e.Refill? || e.ReadByte? ==> ReadsNext(s))
  }

  function Step(s: Sys, e: Event): Sys {
    match e
    case Encode(frame) => s.(encoder := E.Step(s.encoder, E.Produce(frame)))
    case Take => if CanTake(s) then OnTake(s) else s
    case Recover => if s.pipe.loop.Serving? then s.(encoder := E.Step(s.encoder, E.Replace)) else s
    case Pipe(event) => if Enabled(s, event) then s.(pipe := P.Step(s.pipe, event)) else s
    case OfferNext => if CanOffer(s) then s.(ring := R.Step(s.ring, NextOffer(s))) else s
    case Advance => s.(ring := R.Step(s.ring, R.Advance))
    case Poll => s.(ring := R.Step(s.ring, R.Event.Poll))
  }

  function NextFrame(s: Sys): VideoFrame
    requires CanTake(s)
  {
    s.encoder.produced[s.encoder.waiting[0]]
  }

  function OnTake(s: Sys): Sys
    requires CanTake(s)
  {
    s.(encoder := E.Step(s.encoder, E.Receive), pipe := P.Step(s.pipe, P.TakeFrame(NextFrame(s))))
  }

  predicate CanOffer(s: Sys) {
    s.ring.producer.Ready? && |s.ring.offered| < |FramesOf(s.pipe.returned)|
  }

  function NextOffer(s: Sys): R.Event
    requires CanOffer(s)
  {
    R.BeginOffer(FramesOf(s.pipe.returned)[|s.ring.offered|])
  }

  function Run(s: Sys, events: seq<Event>): Sys {
    if events == [] then s else Step(Run(s, events[..|events| - 1]), events[|events| - 1])
  }

  lemma RunSnoc(s: Sys, events: seq<Event>, e: Event)
    ensures Run(s, events + [e]) == Step(Run(s, events), e)
  {
    DropFront(events, [e]);
  }

  predicate Bounded(e: Event) {
    (e.Pipe? ==> P.Bounded(e.event)) && (e.Encode? ==> |e.frame.data| <= MAX_PAYLOAD_SIZE)
  }

  // ----- each part runs by its own rules -----

  ghost predicate PipeRun(s: P.State, stale: seq<byte>, events: seq<P.Event>) {
    s == P.Run(P.Init(stale), events) && forall e <- events :: P.Bounded(e)
  }

  ghost predicate SmallFrames(e: E.State) {
    forall frame <- e.produced :: |frame.data| <= MAX_PAYLOAD_SIZE
  }

  lemma SmallFramesStep(s: Sys, e: Event)
    requires SmallFrames(s.encoder) && Bounded(e)
    ensures SmallFrames(Step(s, e).encoder)
  {
  }

  // What a step does to the pipeline, if anything.
  function PipeMove(s: Sys, e: Event): seq<P.Event> {
    match e
    case Take => if CanTake(s) then [P.TakeFrame(NextFrame(s))] else []
    case Pipe(event) => if Enabled(s, event) then [event] else []
    case _ => []
  }

  lemma PipeMoves(s: Sys, e: Event)
    ensures PipeMove(s, e) == [] ==> Step(s, e).pipe == s.pipe
    ensures PipeMove(s, e) != [] ==> Step(s, e).pipe == P.Step(s.pipe, PipeMove(s, e)[0])
    ensures |PipeMove(s, e)| <= 1
  {
  }

  lemma PipeMoveIsBounded(s: Sys, e: Event)
    requires SmallFrames(s.encoder) && Bounded(e) && PipeMove(s, e) != []
    ensures P.Bounded(PipeMove(s, e)[0])
  {
  }

  lemma PipeComponent(s: Sys, stale: seq<byte>, pipe: seq<P.Event>, e: Event) returns (more: seq<P.Event>)
    requires PipeRun(s.pipe, stale, pipe) && SmallFrames(s.encoder) && Bounded(e)
    ensures PipeRun(Step(s, e).pipe, stale, more)
  {
    more := pipe;
    PipeMoves(s, e);
    if PipeMove(s, e) != [] {
      PipeMoveIsBounded(s, e);
      P.RunSnoc(P.Init(stale), pipe, PipeMove(s, e)[0]);
      more := pipe + [PipeMove(s, e)[0]];
    }
  }

  // What a step does to the frame buffer, if anything.
  function RingMove(s: Sys, e: Event): seq<R.Event> {
    match e
    case OfferNext => if CanOffer(s) then [NextOffer(s)] else []
    case Advance => [R.Advance]
    case Poll => [R.Event.Poll]
    case _ => []
  }

  lemma RingMoves(s: Sys, e: Event)
    ensures RingMove(s, e) == [] ==> Step(s, e).ring == s.ring
    ensures RingMove(s, e) != [] ==> Step(s, e).ring == R.Step(s.ring, RingMove(s, e)[0])
    ensures |RingMove(s, e)| <= 1
  {
  }

  lemma PipeKeepsOffered(frames: seq<R.Frame>, p: P.State, e: P.Event)
    requires frames <= FramesOf(p.returned)
    ensures frames <= FramesOf(P.Step(p, e).returned)
  {
    P.StepOnlyReturnsMore(p, e);
    FramesOfPrefix(p.returned, P.Step(p, e).returned);
  }

  lemma OfferedIsPrefix(s: Sys, e: Event)
    requires s.ring.offered <= FramesOf(s.pipe.returned)
    ensures Step(s, e).ring.offered <= FramesOf(Step(s, e).pipe.returned)
  {
    PipeMoves(s, e);
    if PipeMove(s, e) != [] {
      PipeKeepsOffered(s.ring.offered, s.pipe, PipeMove(s, e)[0]);
    }
  }

  // The steps of the frame buffer in a run of the whole.
  ghost function RingEvents(init: Sys, events: seq<Event>): seq<R.Event> {
    if events == [] then []
    else
      var n := |events| - 1;
      RingEvents(init, events[..n]) + RingMove(Run(init, events[..n]), events[n])
  }

  lemma {:induction false} RingRun(init: Sys, events: seq<Event>)
    ensures Run(init, events).ring == R.Run(init.ring, RingEvents(init, events))
  {
    if events != [] {
      var n := |events| - 1;
      var s, before := Run(init, events[..n]), RingEvents(init, events[..n]);
      RingRun(init, events[..n]);
      RingMoves(s, events[n]);
      if RingMove(s, events[n]) == [] {
        Unit(before);
      } else {
        assert RingMove(s, events[n]) == [RingMove(s, events[n])[0]];
        R.RunSnoc(init.ring, before, RingMove(s, events[n])[0]);
      }
    }
  }

  lemma {:induction false} Components(stale: seq<byte>, capacity: nat, events: seq<Event>)
    returns (pipe: seq<P.Event>)
    requires forall e <- events :: Bounded(e)
    ensures var s := Run(Init(stale, capacity), events);
            && PipeRun(s.pipe, stale, pipe)
            && s.ring.offered <= FramesOf(s.pipe.returned)
            && SmallFrames(s.encoder)
  {
    pipe := [];
    if events != [] {
      var n := |events| - 1;
      pipe := Components(stale, capacity, events[..n]);
      var s, e := Run(Init(stale, capacity), events[..n]), events[n];
      assert e in events;
      OfferedIsPrefix(s, e);
      SmallFramesStep(s, e);
      pipe := PipeComponent(s, stale, pipe, e);
    }
  }

  // ----- the read loop waits for offer() -----

  lemma OneMoreReturned(p: P.State, e: P.Event)
    ensures !e.ReadByte? ==> P.Step(p, e).returned == p.returned
    ensures P.Step(p, e).returned == p.returned
            || exists k :: P.Step(p, e).returned == p.returned + [k]
  {
  }

  lemma OneMoreFrame(p: P.State, e: P.Event)
    ensures |FramesOf(p.returned)| <= |FramesOf(P.Step(p, e).returned)| <= |FramesOf(p.returned)| + 1
  {
    OneMoreReturned(p, e);
    if P.Step(p, e).returned != p.returned {
      var k :| P.Step(p, e).returned == p.returned + [k];
      FramesOfSnoc(p.returned, k);
    }
  }

  ghost predicate AtMostOneAhead(s: Sys) {
    && s.ring.offered <= FramesOf(s.pipe.returned)
    && |FramesOf(s.pipe.returned)| <= |s.ring.offered| + 1
    && (|FramesOf(s.pipe.returned)| > |s.ring.offered| ==> s.ring.producer.Ready?)
  }

  lemma PipeKeepsOneAhead(s: Sys, e: P.Event)
    requires AtMostOneAhead(s) && Enabled(s, e)
    ensures AtMostOneAhead(s.(pipe := P.Step(s.pipe, e)))
  {
    OneMoreReturned(s.pipe, e);
    OneMoreFrame(s.pipe, e);
    PipeKeepsOffered(s.ring.offered, s.pipe, e);
  }

  lemma StepKeepsOneAhead(s: Sys, e: Event)
    requires AtMostOneAhead(s)
    ensures AtMostOneAhead(Step(s, e))
  {
    match e
    case Pipe(event) =>
      if Enabled(s, event) {
        PipeKeepsOneAhead(s, event);
      }
    case Take =>
      if CanTake(s) {
        OneMoreReturned(s.pipe, P.TakeFrame(NextFrame(s)));
      }
    case _ =>
  }

  // The client reads no further packet before offer() has returned for the last frame it
  // has read: at most one frame is ever between the two.
  lemma {:induction false} ReadLoopWaitsForOffer(stale: seq<byte>, capacity: nat, events: seq<Event>)
    ensures AtMostOneAhead(Run(Init(stale, capacity), events))
  {
    if events != [] {
      var n := |events| - 1;
      ReadLoopWaitsForOffer(stale, capacity, events[..n]);
      StepKeepsOneAhead(Run(Init(stale, capacity), events[..n]), events[n]);
    }
  }

  // ----- frames taken are frames produced -----

  // The session loop has taken exactly the frames received from the encoder channel.
  ghost predicate Fed(s: Sys) {
    && E.Inv(s.encoder) && |s.encoder.received| == |s.pipe.taken|
    && forall i | 0 <= i < |s.pipe.taken| ::
         s.encoder.received[i] < |s.encoder.produced|
         && s.pipe.taken[i] == s.encoder.produced[s.encoder.received[i]]
  }

  lemma TakeKeepsFed(s: Sys)
    requires Fed(s) && CanTake(s)
    ensures Fed(OnTake(s))
  {
    var t := OnTake(s);
    E.ReceiveKeepsInv(s.encoder);
    P.OnlyTakeFrameTakes(s.pipe, P.TakeFrame(NextFrame(s)));
    assert t.encoder == E.OnReceive(s.encoder) && t.pipe.taken == s.pipe.taken + [NextFrame(s)];
  }

  lemma EncoderKeepsFed(s: Sys, e: E.Event)
    requires Fed(s) && !e.Receive?
    ensures Fed(s.(encoder := E.Step(s.encoder, e)))
  {
    E.StepKeepsInv(s.encoder, e);
  }

  lemma PipeKeepsFed(s: Sys, e: P.Event)
    requires Fed(s) && !e.TakeFrame?
    ensures Fed(s.(pipe := P.Step(s.pipe, e)))
  {
    P.OnlyTakeFrameTakes(s.pipe, e);
  }

  lemma StepKeepsFed(s: Sys, e: Event)
    requires Fed(s)
    ensures Fed(Step(s, e))
  {
    match e
    case Encode(frame) => EncoderKeepsFed(s, E.Produce(frame));
    case Take =>
      if CanTake(s) {
        TakeKeepsFed(s);
      }
    case Recover => EncoderKeepsFed(s, E.Replace);
    case Pipe(event) =>
      if Enabled(s, event) {
        PipeKeepsFed(s, event);
      }
    case _ =>
  }

  lemma {:induction false} RunKeepsFed(stale: seq<byte>, capacity: nat, events: seq<Event>)
    ensures Fed(Run(Init(stale, capacity), events))
  {
    if events != [] {
      var n := |events| - 1;
      RunKeepsFed(stale, capacity, events[..n]);
      StepKeepsFed(Run(Init(stale, capacity), events[..n]), events[n]);
    }
  }

  // The produced positions of the frames the session loop queued.
  function Origins(s: Sys): (origins: seq<nat>)
    ensures |origins| == |SentIndices(s.pipe.fates)|
  {
    var idx := SentIndices(s.pipe.fates);
    seq(|idx|, j requires 0 <= j < |idx| => OriginOf(s.encoder, idx[j]))
  }

  function OriginOf(e: E.State, i: nat): nat {
    if i < |e.received| then e.received[i] else 0
  }

  // The frame produced m-th got from the encoder channel into the session loop, and the
  // loop queued it.
  predicate KeptAt(s: Sys, m: nat) {
    && m < |s.encoder.lives| && s.encoder.lives[m].Received?
    && s.encoder.lives[m].i < |s.pipe.fates| && s.pipe.fates[s.encoder.lives[m].i].Queued?
  }

  function Kept(s: Sys): (kept: seq<bool>)
    ensures |kept| == |s.encoder.produced|
    ensures forall m | 0 <= m < |kept| :: kept[m] <==> KeptAt(s, m)
  {
    seq(|s.encoder.produced|, m requires 0 <= m < |s.encoder.produced| => KeptAt(s, m))
  }

  lemma OriginIsKept(s: Sys, j: nat)
    requires Fed(s) && VideoInv(s.pipe) && j < |Origins(s)|
    ensures Origins(s)[j] < |s.encoder.produced| && KeptAt(s, Origins(s)[j])
  {
    SentIndexIsQueued(s.pipe.fates, j);
  }

  lemma OriginsIncrease(s: Sys, i: nat, j: nat)
    requires Fed(s) && VideoInv(s.pipe) && i < j < |Origins(s)|
    ensures Origins(s)[i] < Origins(s)[j]
  {
    SentIndexIsQueued(s.pipe.fates, i);
    SentIndexIsQueued(s.pipe.fates, j);
    SentIndicesIncrease(s.pipe.fates, i, j);
    E.ReceivedOrder(s.encoder, SentIndices(s.pipe.fates)[i], SentIndices(s.pipe.fates)[j]);
  }

  lemma KeptIsOrigin(s: Sys, m: nat)
    requires Fed(s) && VideoInv(s.pipe) && KeptAt(s, m)
    ensures m in Origins(s)
  {
    var i := s.encoder.lives[m].i;
    QueuedIsSent(s.pipe.fates, i);
    var j :| 0 <= j < |SentIndices(s.pipe.fates)| && SentIndices(s.pipe.fates)[j] == i;
    assert Origins(s)[j] == m;
  }

  lemma OriginsEnumerate(s: Sys)
    requires Fed(s) && VideoInv(s.pipe)
    ensures Enumerates(Origins(s), Kept(s))
  {
    var origins := Origins(s);
    forall i, j | 0 <= i < j < |origins| ensures origins[i] < origins[j] {
      OriginsIncrease(s, i, j);
    }
    forall j | 0 <= j < |origins| ensures origins[j] < |Kept(s)| && Kept(s)[origins[j]] {
      OriginIsKept(s, j);
    }
    forall m, j | 0 <= j < |origins| && 0 <= m < origins[j] && Kept(s)[m] ensures m in origins {
      KeptIsOrigin(s, m);
    }
  }

  // ----- frames offered are frames produced -----

  // What the j-th frame offered to the buffer is, in terms of the frames produced by
  // the encoder: its position there, its payload, its keyframe bit; and its number, which
  // counts the frames the session loop took.
  ghost predicate Carries(s: Sys, j: nat) {
    && j < |s.ring.offered| && j < |Origins(s)| && Origins(s)[j] < |s.encoder.produced|
    && var frame, source := s.ring.offered[j], s.encoder.produced[Origins(s)[j]];
       && frame.data == source.data
       && (R.IsKeyframe(frame) <==> source.isKeyframe) && FrameFlags(frame, source.isKeyframe)
       && Unsigned(frame.sequence, 0x1_0000_0000) == (SentIndices(s.pipe.fates)[j] + 1) % 0x1_0000_0000
  }

  // The produced position of the frame polled k-th.
  function Place(s: Sys, k: nat): int
    requires k < |s.ring.polled|
  {
    PlaceOf(Origins(s), s.ring.polled[k])
  }

  lemma AcceptedIsHostStream(s: P.State)
    requires CountInv(s)
    ensures HostStream(s.accepted)
  {
    forall p | p in s.accepted ensures p.header.msgType != MSG_DISCONNECT {
      var i :| 0 <= i < |s.accepted| && s.accepted[i] == p;
      assert HostType(s.accepted[i].header.msgType);
    }
  }

  // The client has read frames of the video packets the channel accepted, and with
  // everything delivered all of them.
  lemma FramesReadAreVideo(s: P.State, stale: seq<byte>)
    requires Fresh(stale) && CountInv(s) && s.returned <= Readable(stale, s.accepted)
    ensures FramesOf(s.returned) <= FramesIn(OfType(s.accepted, MSG_VIDEO_DATA))
    ensures s.returned == Readable(stale, s.accepted) ==>
              FramesOf(s.returned) == FramesIn(OfType(s.accepted, MSG_VIDEO_DATA))
  {
    AcceptedIsHostStream(s);
    UnnoticedMeans(ReadAll(stale).packets);
    AllViewsAreInverse(s.accepted);
    FramesOfHostStream(ReadAll(stale).packets, AllAsClient(s.accepted));
    FramesOfPrefix(s.returned, Readable(stale, s.accepted));
    Unit(FramesIn(OfType(s.accepted, MSG_VIDEO_DATA)));
  }

  // What the host queued as its j-th video packet is the frame of the j-th queued
  // position, as the client sees it.
  lemma VideoCarries(s: P.State, j: nat)
    requires CountInv(s) && j < |FramesIn(OfType(s.accepted, MSG_VIDEO_DATA))|
    ensures var idx := SentIndices(s.fates);
            && j < |idx| && idx[j] < |s.taken|
            && var frame, source := FramesIn(OfType(s.accepted, MSG_VIDEO_DATA))[j], s.taken[idx[j]];
               && frame.data == source.data
               && (R.IsKeyframe(frame) <==> source.isKeyframe) && FrameFlags(frame, source.isKeyframe)
               && Unsigned(frame.sequence, 0x1_0000_0000) == (idx[j] + 1) % 0x1_0000_0000
  {
    FramesInAt(OfType(s.accepted, MSG_VIDEO_DATA), j);
    VideoInState(s, j);
    var i := SentIndices(s.fates)[j];
    FlagsSurvive(s.taken[i], (i + 1) % 0x1_0000_0000);
  }

  // What ties the frames offered to the frames produced.
  ghost predicate Linked(s: Sys) {
    Fed(s) && CountInv(s.pipe) && s.ring.offered <= FramesIn(OfType(s.pipe.accepted, MSG_VIDEO_DATA))
  }

  lemma LinkedCarries(s: Sys, j: nat)
    requires Linked(s) && j < |s.ring.offered|
    ensures Carries(s, j)
  {
    VideoCarries(s.pipe, j);
    OriginIsKept(s, j);
  }

  // Every reachable state is linked, and its buffer has run by its own rules.
  lemma RunIsLinked(stale: seq<byte>, capacity: nat, events: seq<Event>, s: Sys) returns (ring: seq<R.Event>)
    requires Fresh(stale) && forall e <- events :: Bounded(e)
    requires s == Run(Init(stale, capacity), events)
    ensures Linked(s) && s.ring == R.Run(R.Init(capacity), ring)
  {
    var pipe := Components(stale, capacity, events);
    ring := RingEvents(Init(stale, capacity), events);
    RingRun(Init(stale, capacity), events);
    RunKeepsFed(stale, capacity, events);
    P.ReturnedIsPrefixOfAccepted(stale, pipe, s.pipe);
    RunKeepsCounts(stale, pipe);
    FramesReadAreVideo(s.pipe, stale);
  }

  // ----- main results -----

  // Frame path integrity: what the decoder polls are frames the encoder produced,
  // payload and keyframe bit intact, in order and none twice.
  lemma FramePathIntegrity(stale: seq<byte>, capacity: nat, events: seq<Event>, s: Sys, k: nat)
    requires Fresh(stale) && capacity >= 1 && forall e <- events :: Bounded(e)
    requires s == Run(Init(stale, capacity), events) && k < |s.ring.polled|
    ensures Carries(s, s.ring.polled[k])
    ensures forall j | 0 <= j < k :: s.ring.polled[j] < s.ring.polled[k] && Place(s, j) < Place(s, k)
  {
    var ring := RunIsLinked(stale, capacity, events, s);
    R.ReferenceContinuity(capacity, ring, s.ring, k);
    LinkedCarries(s, s.ring.polled[k]);
    forall j | 0 <= j < k ensures s.ring.polled[j] < s.ring.polled[k] && Place(s, j) < Place(s, k) {
      R.PolledInOrder(capacity, ring, s.ring, j, k);
      OriginsIncrease(s, s.ring.polled[j], s.ring.polled[k]);
    }
  }

  lemma EveryLink(stale: seq<byte>, capacity: nat, events: seq<Event>, s: Sys, k: nat)
    requires Fresh(stale) && capacity >= 1 && forall e <- events :: Bounded(e)
    requires s == Run(Init(stale, capacity), events) && k < |s.ring.polled|
    ensures Link(s.encoder.produced, Kept(s), Places(Origins(s), s.ring.polled), k)
  {
    var ring := RunIsLinked(stale, capacity, events, s);
    R.ReferenceContinuity(capacity, ring, s.ring, k);
    LinkedCarries(s, s.ring.polled[k]);
    OriginsEnumerate(s);
    ContinuityIsLink(s.encoder.produced, Kept(s), Origins(s), s.ring.polled, k);
  }

  lemma LifeBefore(s: Sys, m: nat)
    requires Fed(s) && 0 < m && KeptAt(s, m)
    ensures m - 1 < |s.encoder.lives|
    ensures var life := s.encoder.lives[m - 1];
            life.Received? <==> !life.Overflowed? && !life.Abandoned?
  {
    E.EarlierIsReceived(s.encoder, m - 1, s.encoder.lives[m].i);
  }

  lemma PlaceIsKept(s: Sys, k: nat)
    requires Fed(s) && VideoInv(s.pipe) && k < |s.ring.polled| && Carries(s, s.ring.polled[k])
    ensures Place(s, k) == Places(Origins(s), s.ring.polled)[k]
    ensures 0 <= Place(s, k) < |s.encoder.produced| && KeptAt(s, Place(s, k))
  {
    OriginIsKept(s, s.ring.polled[k]);
  }

  // A link in words: what it says of the frame produced before the one polled k-th.
  ghost predicate FollowsIffKept(s: Sys, k: nat)
    requires k < |s.ring.polled|
  {
    var m := Place(s, k);
    && 0 <= m < |s.encoder.produced| == |s.encoder.lives|
    && (!s.encoder.produced[m].isKeyframe && m > 0 ==>
          && (KeptAt(s, m - 1) <==> k > 0 && Place(s, k - 1) == m - 1)
          && var life := s.encoder.lives[m - 1];
             life.Received? <==> !life.Overflowed? && !life.Abandoned?)
  }

  lemma LinkInWords(s: Sys, k: nat)
    requires Fed(s) && VideoInv(s.pipe) && k < |s.ring.polled| && Carries(s, s.ring.polled[k])
    requires Link(s.encoder.produced, Kept(s), Places(Origins(s), s.ring.polled), k)
    ensures FollowsIffKept(s, k)
  {
    PlaceIsKept(s, k);
    var m := Place(s, k);
    if m > 0 {
      LifeBefore(s, m);
      assert Kept(s)[m - 1] <==> KeptAt(s, m - 1);
      assert k > 0 ==> Places(Origins(s), s.ring.polled)[k - 1] == Place(s, k - 1);
    }
  }

  // Where the reference-frame guarantee ends: a polled P-frame comes out directly after
  // the frame the encoder produced before it if and only if that frame met room in the
  // encoder channel, was not left behind there by a recovery, and was queued by the
  // session loop.
  lemma ReferenceReachesDecoderIffKept(stale: seq<byte>, capacity: nat, events: seq<Event>, s: Sys, k: nat)
    requires Fresh(stale) && capacity >= 1 && forall e <- events :: Bounded(e)
    requires s == Run(Init(stale, capacity), events) && k < |s.ring.polled|
    ensures FollowsIffKept(s, k)
  {
    FramePathIntegrity(stale, capacity, events, s, k);
    var ring := RunIsLinked(stale, capacity, events, s);
    EveryLink(stale, capacity, events, s, k);
    LinkInWords(s, k);
  }

  // The whole chain: the decoder gets a frame and, directly before it and back to a
  // keyframe, every frame it depends on, if and only if a keyframe and every frame
  // produced from there to this one passed the encoder channel and was queued.
  lemma ChainReachesDecoderIffKept(stale: seq<byte>, capacity: nat, events: seq<Event>, s: Sys,
                                   kept: seq<bool>, places: seq<int>, k: nat)
    requires Fresh(stale) && capacity >= 1 && forall e <- events :: Bounded(e)
    requires s == Run(Init(stale, capacity), events)
    requires kept == Kept(s) && places == Places(Origins(s), s.ring.polled) && k < |places|
    ensures Shows(s.encoder.produced, places, k) <==> KeptSinceKeyframe(s.encoder.produced, kept, places[k])
  {
    forall i: nat | i <= k ensures Link(s.encoder.produced, kept, places, i) {
      EveryLink(stale, capacity, events, s, i);
    }
    ShowsIffKept(s.encoder.produced, kept, places, k);
  }
}
