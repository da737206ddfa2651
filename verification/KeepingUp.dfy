// What a decoder that keeps up gets, and that everything accepted can still be decoded.
module KeepingUp {
  import opened Bytes
  import opened Packets
  import opened Seqs
  import opened ClientSession
  import opened EndToEnd
  import opened HostStreams
  import opened UsbAccounting
  import P = UsbPipeline
  import R = FrameRing
  import G = UsbProgress

  // ----- a decoder that keeps up -----

  // No capacity test of the run meets a full queue, as when the decoder polls at
  // least once for every frame offered.
  ghost predicate KeepsUp(init: Sys, events: seq<Event>) {
    R.NeverFull(init.ring, RingEvents(init, events))
  }

  // The test that a decoder which keeps up never lets fail.
  predicate Fits(s: Sys, e: Event) {
    e.Advance? && s.ring.producer.Admitted? ==> |s.ring.queue| < s.ring.capacity
  }

  lemma RingEventsSnoc(init: Sys, events: seq<Event>, e: Event)
    ensures RingEvents(init, events + [e]) == RingEvents(init, events) + RingMove(Run(init, events), e)
  {
    DropFront(events, [e]);
  }

  lemma NeverFullSnoc(r: R.Ring, events: seq<R.Event>, e: R.Event)
    requires R.NeverFull(r, events)
    requires var s := R.Run(r, events); e.Advance? && s.producer.Admitted? ==> |s.queue| < s.capacity
    ensures R.NeverFull(r, events + [e])
  {
    DropFront(events, [e]);
  }

  lemma KeepsUpSnoc(init: Sys, events: seq<Event>, s: Sys, e: Event)
    requires KeepsUp(init, events) && s == Run(init, events) && Fits(s, e)
    ensures KeepsUp(init, events + [e])
  {
    RingRun(init, events);
    RingEventsSnoc(init, events, e);
    MoveFits(s, e);
    if RingMove(s, e) == [] {
      Unit(RingEvents(init, events));
    } else {
      NeverFullSnoc(init.ring, RingEvents(init, events), RingMove(s, e)[0]);
    }
  }

  lemma MoveFits(s: Sys, e: Event)
    requires Fits(s, e)
    ensures RingMove(s, e) != [] ==>
              && RingMove(s, e) == [RingMove(s, e)[0]]
              && (RingMove(s, e)[0].Advance? && s.ring.producer.Admitted? ==> |s.ring.queue| < s.ring.capacity)
  {
  }

  // The events are possible ones, with a decoder that keeps up.
  ghost predicate Plausible(init: Sys, events: seq<Event>) {
    KeepsUp(init, events) && forall e <- events :: Bounded(e)
  }

  lemma PlausibleGrows(init: Sys, events: seq<Event>, s: Sys, e: Event)
    requires Plausible(init, events) && s == Run(init, events) && Fits(s, e) && Bounded(e)
    ensures Plausible(init, events + [e])
  {
    KeepsUpSnoc(init, events, s, e);
  }

  // In every run in which the decoder keeps up, the frames polled, queued and on
  // their way into the queue are all the frames read and offered so far, in order,
  // and those are the frames of the session, in order.
  lemma KeepingUpGetsEveryFrame(stale: seq<byte>, capacity: nat, events: seq<Event>, s: Sys)
    requires Fresh(stale) && capacity >= 1 && forall e <- events :: Bounded(e)
    requires s == Run(Init(stale, capacity), events) && KeepsUp(Init(stale, capacity), events)
    ensures (s.ring.polled + s.ring.queue) + R.Pending(s.ring) == R.UpTo(|s.ring.offered|)
    ensures forall j: nat | j < |s.ring.offered| :: Carries(s, j)
    ensures s.ring.offered <= FramesIn(OfType(s.pipe.accepted, MSG_VIDEO_DATA))
  {
    RingRun(Init(stale, capacity), events);
    R.NothingLostWhileNeverFull(capacity, RingEvents(Init(stale, capacity), events));
    var ring := RunIsLinked(stale, capacity, events, s);
    forall j: nat | j < |s.ring.offered| ensures Carries(s, j) {
      LinkedCarries(s, j);
    }
  }

  lemma {:induction false} UpToAt(n: nat, k: nat)
    ensures |R.UpTo(n)| == n
    ensures k < n ==> R.UpTo(n)[k] == k
  {
    if n > 0 {
      UpToAt(n - 1, k);
    }
  }

  // ----- everything accepted can be decoded -----

  // All that the way on from a state relies on.
  ghost predicate OnTrack(s: Sys, stale: seq<byte>) {
    && Fresh(stale) && P.FlowInv(s.pipe, stale) && P.SizesInv(s.pipe) && CountInv(s.pipe)
    && G.Open(s.pipe)
    && s.ring.capacity >= 1 && R.LossInv(s.ring) && R.NothingLost(s.ring)
    && s.ring.offered <= FramesOf(s.pipe.returned)
  }

  // The decoder polls what is queued, then offer() goes on, then the next frame is
  // offered, and only then the pipeline moves.
  function NextMove(s: Sys): Event {
    if s.ring.queue != [] then Poll
    else if !s.ring.producer.Ready? then Advance
    else if |s.ring.offered| < |FramesOf(s.pipe.returned)| then OfferNext
    else Pipe(G.NextMove(s.pipe))
  }

  predicate Quiet(s: Sys) {
    s.ring.queue == [] && ReadsNext(s) && G.Drained(s.pipe)
  }

  function Unoffered(s: Sys): nat {
    if |s.ring.offered| < |FramesOf(s.pipe.returned)| then |FramesOf(s.pipe.returned)| - |s.ring.offered| else 0
  }

  function Rank(r: R.Ring): nat {
    match r.producer
    case Ready => 0
    case Enqueuing(_) => 1
    case Clearing(_) => 2
    case Admitted(_) => 3
  }

  // Nothing is accepted or taken on the way.
  predicate SameInput(s: Sys, t: Sys) {
    && t.encoder == s.encoder
    && t.pipe.accepted == s.pipe.accepted && t.pipe.taken == s.pipe.taken && t.pipe.fates == s.pipe.fates
  }

  lemma RingStep(r: R.Ring, move: R.Event)
    requires r.capacity >= 1 && (r.queue != [] || !r.producer.Ready?)
    requires move == if r.queue != [] then R.Event.Poll else R.Advance
    ensures var t := R.Step(r, move);
            && t.capacity == r.capacity && t.offered == r.offered
            && !R.Loses(r, move)
            && (Rank(t) < Rank(r) || (Rank(t) == Rank(r) && |t.queue| < |r.queue|))
  {
  }

  lemma RingKeepsTrack(s: Sys, r: R.Ring, stale: seq<byte>)
    requires OnTrack(s, stale) && r.capacity >= 1 && R.LossInv(r) && R.NothingLost(r)
    requires r.offered <= FramesOf(s.pipe.returned)
    ensures OnTrack(s.(ring := r), stale)
  {
  }

  lemma RingMoveOf(s: Sys)
    requires s.ring.queue != [] || !s.ring.producer.Ready?
    ensures var move := if s.ring.queue != [] then R.Event.Poll else R.Advance;
            Step(s, NextMove(s)) == s.(ring := R.Step(s.ring, move))
  {
  }

  lemma RingGoesOn(s: Sys, stale: seq<byte>)
    requires OnTrack(s, stale) && (s.ring.queue != [] || !s.ring.producer.Ready?)
    ensures var t := Step(s, NextMove(s));
            && OnTrack(t, stale) && t.encoder == s.encoder && t.pipe == s.pipe && t.ring.offered == s.ring.offered
            && (Rank(t.ring) < Rank(s.ring) || (Rank(t.ring) == Rank(s.ring) && |t.ring.queue| < |s.ring.queue|))
  {
    var move := if s.ring.queue != [] then R.Event.Poll else R.Advance;
    var r := R.Step(s.ring, move);
    R.LossStep(s.ring, move);
    RingStep(s.ring, move);
    RingKeepsTrack(s, r, stale);
    RingMoveOf(s);
  }

  lemma OfferMoveOf(s: Sys)
    requires CanOffer(s)
    ensures var r := R.Step(s.ring, NextOffer(s));
            && Step(s, OfferNext) == s.(ring := r)
            && |r.offered| == |s.ring.offered| + 1 && r.capacity == s.ring.capacity
            && (!s.ring.dropping ==> !R.Loses(s.ring, NextOffer(s)))
  {
  }

  lemma OfferGoesOn(s: Sys, stale: seq<byte>)
    requires OnTrack(s, stale) && CanOffer(s)
    ensures var t := Step(s, OfferNext);
            && OnTrack(t, stale) && t.encoder == s.encoder && t.pipe == s.pipe
            && |t.ring.offered| == |s.ring.offered| + 1
  {
    var r := R.Step(s.ring, NextOffer(s));
    R.LossStep(s.ring, NextOffer(s));
    OfferedIsPrefix(s, OfferNext);
    OfferMoveOf(s);
    RingKeepsTrack(s, r, stale);
  }

  lemma PipeGoesOn(s: Sys, stale: seq<byte>)
    requires OnTrack(s, stale) && ReadsNext(s) && !G.Drained(s.pipe)
    ensures var t := Step(s, Pipe(G.NextMove(s.pipe)));
            OnTrack(t, stale) && t.encoder == s.encoder && t.ring == s.ring
            && t.pipe == P.Step(s.pipe, G.NextMove(s.pipe))
  {
    var e := G.NextMove(s.pipe);
    G.NextMoveStaysOpen(s.pipe);
    P.StepKeepsFlow(s.pipe, e, stale);
    P.StepKeepsSizes(s.pipe, e);
    StepKeepsCounts(s.pipe, e);
    OfferedIsPrefix(s, Pipe(e));
  }

  // Nearer to the state in which nothing is left to do.
  predicate Nearer(t: Sys, s: Sys) {
    || G.Nearer(t.pipe, s.pipe)
    || (t.pipe == s.pipe &&
        (|| Unoffered(t) < Unoffered(s)
         || (Unoffered(t) == Unoffered(s) &&
             (Rank(t.ring) < Rank(s.ring) || (Rank(t.ring) == Rank(s.ring) && |t.ring.queue| < |s.ring.queue|)))))
  }

  lemma RingMoveIsNearer(s: Sys, stale: seq<byte>)
    requires OnTrack(s, stale) && (s.ring.queue != [] || !s.ring.producer.Ready?)
    ensures var t := Step(s, NextMove(s));
            OnTrack(t, stale) && SameInput(s, t) && Nearer(t, s)
  {
    RingGoesOn(s, stale);
  }

  lemma OfferIsNearer(s: Sys, stale: seq<byte>)
    requires OnTrack(s, stale) && CanOffer(s)
    ensures var t := Step(s, OfferNext);
            OnTrack(t, stale) && SameInput(s, t) && Nearer(t, s)
  {
    OfferGoesOn(s, stale);
  }

  lemma PipeIsNearer(s: Sys, stale: seq<byte>)
    requires OnTrack(s, stale) && ReadsNext(s) && !G.Drained(s.pipe)
    ensures var t := Step(s, Pipe(G.NextMove(s.pipe)));
            OnTrack(t, stale) && SameInput(s, t) && Nearer(t, s)
  {
    PipeGoesOn(s, stale);
    P.DeliveredInOrder(s.pipe, stale);
    G.NextMoveStaysOpen(s.pipe);
    G.NextMoveMakesProgress(s.pipe);
  }

  lemma NextMoveIs(s: Sys)
    requires s.ring.queue == [] && s.ring.producer.Ready?
    ensures NextMove(s) == if CanOffer(s) then OfferNext else Pipe(G.NextMove(s.pipe))
  {
  }

  lemma MoveIsNearer(s: Sys, stale: seq<byte>)
    requires OnTrack(s, stale) && !Quiet(s)
    ensures var t := Step(s, NextMove(s));
            OnTrack(t, stale) && SameInput(s, t) && Nearer(t, s)
  {
    if s.ring.queue != [] || !s.ring.producer.Ready? {
      RingMoveIsNearer(s, stale);
    } else {
      NextMoveIs(s);
      if CanOffer(s) {
        OfferIsNearer(s, stale);
      } else {
        PipeIsNearer(s, stale);
      }
    }
  }

  lemma MoveIsPossible(s: Sys)
    requires s.ring.capacity >= 1
    ensures Bounded(NextMove(s)) && Fits(s, NextMove(s))
  {
  }

  lemma OneMove(init: Sys, events: seq<Event>, s: Sys, stale: seq<byte>) returns (more: seq<Event>, t: Sys)
    requires s == Run(init, events) && OnTrack(s, stale) && !Quiet(s) && Plausible(init, events)
    ensures t == Run(init, more) && Plausible(init, more)
    ensures OnTrack(t, stale) && SameInput(s, t) && Nearer(t, s)
  {
    var e := NextMove(s);
    more, t := events + [e], Step(s, e);
    MoveIsPossible(s);
    RunSnoc(init, events, e);
    PlausibleGrows(init, events, s, e);
    MoveIsNearer(s, stale);
  }

  // From where the events have led, go on until nothing is left to do.
  lemma {:induction false} Settle(init: Sys, events: seq<Event>, s: Sys, stale: seq<byte>) returns (more: seq<Event>)
    requires s == Run(init, events) && OnTrack(s, stale) && Plausible(init, events)
    ensures Plausible(init, more)
    ensures var t := Run(init, more);
            Quiet(t) && OnTrack(t, stale) && SameInput(s, t)
    decreases |s.pipe.channel|, G.Busy(s.pipe), |P.Unsent(s.pipe.worker)|, |s.pipe.wire|, |s.pipe.rx|,
              Unoffered(s), Rank(s.ring), |s.ring.queue|
  {
    more := events;
    if !Quiet(s) {
      var t;
      more, t := OneMove(init, events, s, stale);
      more := Settle(init, more, t, stale);
    }
  }

  // When nothing is left to do, every accepted video packet has been polled, in order.
  lemma QuietHasPolledAll(s: Sys, stale: seq<byte>)
    requires OnTrack(s, stale) && Quiet(s)
    ensures s.ring.offered == FramesIn(OfType(s.pipe.accepted, MSG_VIDEO_DATA))
    ensures |s.ring.offered| == |OfType(s.pipe.accepted, MSG_VIDEO_DATA)|
    ensures s.ring.polled == R.UpTo(|s.ring.offered|)
  {
    G.DrainedIsEmpty(s.pipe);
    P.DeliveredInOrder(s.pipe, stale);
    FramesReadAreVideo(s.pipe, stale);
    FramesInAt(OfType(s.pipe.accepted, MSG_VIDEO_DATA), 0);
    Unit(s.ring.polled);
  }

  // The events let the decoder poll every video packet accepted so far.
  ghost predicate DecodesAll(s: Sys, more: seq<Event>) {
    && (forall e <- more :: Bounded(e))
    && var t, n := Run(s, more), |OfType(s.pipe.accepted, MSG_VIDEO_DATA)|;
       SameInput(s, t) && |t.ring.offered| == n && t.ring.polled == R.UpTo(n)
  }

  lemma RunIsOnTrack(stale: seq<byte>, capacity: nat, events: seq<Event>, s: Sys)
    requires Fresh(stale) && capacity >= 1 && forall e <- events :: Bounded(e)
    requires s == Run(Init(stale, capacity), events) && G.Open(s.pipe) && R.NothingLost(s.ring)
    ensures OnTrack(s, stale)
  {
    var pipe := Components(stale, capacity, events);
    P.RunKeepsFlow(stale, pipe);
    P.RunKeepsSizes(stale, pipe);
    RunKeepsCounts(stale, pipe);
    RingRun(Init(stale, capacity), events);
    R.NothingLostIffNoStepLoses(capacity, RingEvents(Init(stale, capacity), events));
    R.CapacityIsFixed(capacity, RingEvents(Init(stale, capacity), events));
  }

  lemma PathToDecoder(s: Sys, stale: seq<byte>) returns (more: seq<Event>)
    requires OnTrack(s, stale)
    ensures DecodesAll(s, more)
  {
    more := Settle(s, [], s, stale);
    QuietHasPolledAll(Run(s, more), stale);
  }

  // From every reachable state with an open stream in which the frame buffer has lost
  // nothing, wherever read loop and offer() stand, there is a way on by which the
  // decoder gets every accepted video packet, in order.
  lemma EveryAcceptedFrameCanBeDecoded(stale: seq<byte>, capacity: nat, events: seq<Event>, s: Sys)
    requires Fresh(stale) && capacity >= 1 && forall e <- events :: Bounded(e)
    requires s == Run(Init(stale, capacity), events) && G.Open(s.pipe) && R.NothingLost(s.ring)
    ensures exists more :: DecodesAll(s, more)
  {
    RunIsOnTrack(stale, capacity, events, s);
    var more := PathToDecoder(s, stale);
  }
}
