// The two ways in which the reference-frame guarantee fails end to end, each with a
// run: the session loop drops a frame on its full output channel, or the encoder's
// callback drops one on the full encoder channel.
module LostReference {
  import opened Bytes
  import opened Packets
  import opened Seqs
  import opened VideoFrames
  import opened ClientSession
  import opened EndToEnd
  import opened HostStreams
  import opened KeepingUp
  import opened UsbAccounting
  import E = EncoderChannel
  import P = UsbPipeline
  import R = FrameRing
  import G = UsbProgress

  // The first frame polled was a keyframe; the one polled k-th is a P-frame, and the
  // frame the encoder produced just before it was lost and is not the one polled
  // before it.
  ghost predicate LacksReference(s: Sys, k: nat) {
    && 0 < k < |s.ring.polled|
    && R.Key(s.ring, s.ring.polled[0]) && !R.Key(s.ring, s.ring.polled[k])
    && 0 < Place(s, k) < |s.encoder.lives| && !KeptAt(s, Place(s, k) - 1)
    && 0 <= Place(s, k - 1) < Place(s, k) - 1
  }

  // The session loop dropped it on the full output channel.
  ghost predicate DroppedByLoop(s: Sys, k: nat)
    requires LacksReference(s, k)
  {
    var life := s.encoder.lives[Place(s, k) - 1];
    life.Received? && life.i < |s.pipe.fates| && s.pipe.fates[life.i].Dropped?
  }

  // The encoder's callback dropped it on the full encoder channel, and the session loop
  // queued everything it took, so that no sequence number is missing.
  ghost predicate DroppedByEncoder(s: Sys, k: nat)
    requires LacksReference(s, k)
  {
    s.encoder.lives[Place(s, k) - 1].Overflowed? && forall fate <- s.pipe.fates :: fate.Queued?
  }

  ghost predicate LosesInLoop(init: Sys, events: seq<Event>, k: nat) {
    && Plausible(init, events)
    && LacksReference(Run(init, events), k) && DroppedByLoop(Run(init, events), k)
  }

  ghost predicate LosesInEncoder(init: Sys, events: seq<Event>, k: nat) {
    && Plausible(init, events)
    && LacksReference(Run(init, events), k) && DroppedByEncoder(Run(init, events), k)
  }

  lemma PlausibleSnoc(init: Sys, events: seq<Event>, e: Event)
    requires Plausible(init, events) && Bounded(e) && !e.Advance?
    ensures Plausible(init, events + [e]) && Run(init, events + [e]) == Step(Run(init, events), e)
  {
    RunSnoc(init, events, e);
    PlausibleGrows(init, events, Run(init, events), e);
  }

  // ----- dropped by the session loop -----

  // Every frame produced has been taken.
  ghost predicate Straight(e: E.State) {
    E.Inv(e) && e.waiting == [] && e.received == R.UpTo(|e.produced|)
  }

  // One frame, the last produced, is still to be taken.
  ghost predicate OneToTake(e: E.State, n: nat) {
    E.Inv(e) && e.waiting == [n] && e.received == R.UpTo(n) && |e.produced| == n + 1 == |e.lives|
  }

  lemma ProducedIsWaiting(e: E.State, frame: VideoFrame)
    requires Straight(e)
    ensures var u, n := E.Step(e, E.Produce(frame)), |e.produced|;
            OneToTake(u, n) && u.produced[n] == frame
  {
    E.StepKeepsInv(e, E.Produce(frame));
  }

  lemma TakenIsStraight(e: E.State, n: nat)
    requires OneToTake(e, n)
    ensures E.CanReceive(e) && Straight(E.Step(e, E.Receive))
  {
    E.StepKeepsInv(e, E.Receive);
    R.UpToGrows(n);
  }

  // The encoder produces a frame and the session loop takes it at once.
  lemma ProduceAndTake(s: Sys, frame: VideoFrame)
    requires Straight(s.encoder) && s.pipe.loop.Serving?
    ensures var t := Step(Step(s, Encode(frame)), Take);
            && Straight(t.encoder) && t.pipe == P.Step(s.pipe, P.TakeFrame(frame)) && t.ring == s.ring
  {
    var u := Step(s, Encode(frame));
    ProducedIsWaiting(s.encoder, frame);
    TakenIsStraight(u.encoder, |s.encoder.produced|);
    assert CanTake(u) && NextFrame(u) == frame;
  }

  function LiftOne(e: P.Event): seq<Event> {
    if e.TakeFrame? then [Encode(e.frame)] + [Take] else [Pipe(e)]
  }

  function Lift(events: seq<P.Event>): seq<Event> {
    if events == [] then []
    else
      var n := |events| - 1;
      Lift(events[..n]) + LiftOne(events[n])
  }

  lemma LiftedStep(init: Sys, before: seq<Event>, s: Sys, e: P.Event)
    requires Plausible(init, before) && s == Run(init, before) && Straight(s.encoder)
    requires P.Bounded(e) && !e.Refill? && !e.ReadByte? && (e.TakeFrame? ==> s.pipe.loop.Serving?)
    ensures var t := Run(init, before + LiftOne(e));
            && Plausible(init, before + LiftOne(e))
            && Straight(t.encoder) && t.pipe == P.Step(s.pipe, e) && t.ring == s.ring
  {
    if e.TakeFrame? {
      Assoc(before, [Encode(e.frame)], [Take]);
      PlausibleSnoc(init, before, Encode(e.frame));
      PlausibleSnoc(init, before + [Encode(e.frame)], Take);
      ProduceAndTake(s, e.frame);
    } else {
      PlausibleSnoc(init, before, Pipe(e));
    }
  }

  lemma {:induction false} LiftRuns(s: Sys, events: seq<P.Event>)
    requires Straight(s.encoder) && G.HostSide(events) && G.TakesServing(s.pipe, events)
    ensures var t := Run(s, Lift(events));
            && Plausible(s, Lift(events))
            && Straight(t.encoder) && t.pipe == P.Run(s.pipe, events) && t.ring == s.ring
  {
    if events != [] {
      var n := |events| - 1;
      assert events[n] in events;
      LiftRuns(s, events[..n]);
      LiftedStep(s, Lift(events[..n]), Run(s, Lift(events[..n])), events[n]);
    }
  }

  lemma StraightOrigin(e: E.State, i: nat)
    requires Straight(e) && i < |e.produced|
    ensures OriginOf(e, i) == i && |e.lives| == |e.produced| && e.lives[i] == E.Received(i)
  {
    UpToAt(|e.produced|, i);
  }

  lemma LastIsSent(s: P.State) returns (k: nat)
    requires VideoInv(s) && G.DroppedReference(s)
    ensures 0 < k < |SentIndices(s.fates)|
    ensures SentIndices(s.fates)[k] == |s.fates| - 1 && SentIndices(s.fates)[0] == 0
    ensures SentIndices(s.fates)[k - 1] < |s.fates| - 2
  {
    SentIndicesAreTheQueuedOnes(s.fates);
    var idx := SentIndices(s.fates);
    assert 0 in idx && |s.fates| - 1 in idx;
    k :| 0 <= k < |idx| && idx[k] == |s.fates| - 1;
    SentIndexIsQueued(s.fates, k - 1);
    SentIndicesIncrease(s.fates, k - 1, k);
  }

  // With everything polled, the frame polled k-th is the k-th queued one.
  lemma PolledInPlace(s: Sys, k: nat)
    requires Linked(s) && s.ring.polled == R.UpTo(|s.ring.offered|) && k < |s.ring.offered|
    ensures k < |s.ring.polled| && s.ring.polled[k] == k && Carries(s, k)
    ensures k < |SentIndices(s.pipe.fates)|
    ensures Place(s, k) == OriginOf(s.encoder, SentIndices(s.pipe.fates)[k])
    ensures R.Key(s.ring, k) <==> s.encoder.produced[Place(s, k)].isKeyframe
  {
    UpToAt(|s.ring.offered|, k);
    LinkedCarries(s, k);
  }

  lemma PolledStraight(s: Sys, k: nat)
    requires Linked(s) && Straight(s.encoder)
    requires s.ring.polled == R.UpTo(|s.ring.offered|) && k < |s.ring.offered|
    ensures k < |s.ring.polled| && s.ring.polled[k] == k && k < |SentIndices(s.pipe.fates)|
    ensures Place(s, k) == SentIndices(s.pipe.fates)[k] < |s.pipe.taken| == |s.encoder.produced|
    ensures R.Key(s.ring, k) <==> s.pipe.taken[Place(s, k)].isKeyframe
  {
    PolledInPlace(s, k);
    SentIndexIsQueued(s.pipe.fates, k);
    UpToAt(|s.encoder.produced|, SentIndices(s.pipe.fates)[k]);
  }

  lemma LacksAt(s: Sys, k: nat, m: nat)
    requires 0 < k < |s.ring.polled| && R.Key(s.ring, s.ring.polled[0]) && !R.Key(s.ring, s.ring.polled[k])
    requires Place(s, k) == m > 0 && 0 <= Place(s, k - 1) < m - 1
    requires m < |s.encoder.lives| && s.encoder.lives[m - 1] == E.Received(m - 1)
    requires m - 1 < |s.pipe.fates| && s.pipe.fates[m - 1].Dropped?
    ensures LacksReference(s, k) && DroppedByLoop(s, k)
  {
  }

  lemma LastLacksReference(s: Sys, k: nat)
    requires Linked(s) && Straight(s.encoder) && G.DroppedReference(s.pipe)
    requires s.ring.polled == R.UpTo(|s.ring.offered|)
    requires 0 < k < |s.ring.offered| == |SentIndices(s.pipe.fates)|
    requires SentIndices(s.pipe.fates)[k] == |s.pipe.fates| - 1 && SentIndices(s.pipe.fates)[0] == 0
    requires SentIndices(s.pipe.fates)[k - 1] < |s.pipe.fates| - 2
    ensures LacksReference(s, k) && DroppedByLoop(s, k)
  {
    PolledStraight(s, 0);
    PolledStraight(s, k - 1);
    PolledStraight(s, k);
    StraightOrigin(s.encoder, |s.pipe.fates| - 2);
    LacksAt(s, k, |s.pipe.fates| - 1);
  }

  // What being quiet says, together with how the state came about.
  lemma QuietIsLinked(s: Sys, stale: seq<byte>)
    requires OnTrack(s, stale) && Quiet(s) && Fed(s)
    ensures Linked(s) && s.ring.polled == R.UpTo(|s.ring.offered|)
    ensures |s.ring.offered| == |SentIndices(s.pipe.fates)|
  {
    QuietHasPolledAll(s, stale);
    VideoInState(s.pipe, 0);
  }

  lemma QuietLosesInLoop(s: Sys, stale: seq<byte>) returns (k: nat)
    requires OnTrack(s, stale) && Quiet(s) && Fed(s)
    requires Straight(s.encoder) && G.DroppedReference(s.pipe)
    ensures LacksReference(s, k) && DroppedByLoop(s, k)
  {
    QuietIsLinked(s, stale);
    k := LastIsSent(s.pipe);
    LastLacksReference(s, k);
  }

  lemma SameInputStaysFed(s: Sys, t: Sys)
    requires Fed(s) && SameInput(s, t)
    ensures Fed(t) && (G.DroppedReference(s.pipe) ==> G.DroppedReference(t.pipe))
  {
  }

  lemma SettledLosesInLoop(init: Sys, events: seq<Event>, s: Sys, stale: seq<byte>)
    returns (more: seq<Event>, k: nat)
    requires s == Run(init, events) && OnTrack(s, stale) && Fed(s) && Plausible(init, events)
    requires Straight(s.encoder) && G.DroppedReference(s.pipe)
    ensures LosesInLoop(init, more, k)
  {
    more := Settle(init, events, s, stale);
    var t := Run(init, more);
    SameInputStaysFed(s, t);
    k := QuietLosesInLoop(t, stale);
  }

  // A session with nothing stale on the wire and an empty buffer.
  lemma CleanStart(stale: seq<byte>, capacity: nat)
    requires stale == []
    ensures Fresh(stale)
    ensures var init := Init(stale, capacity);
            Straight(init.encoder) && R.NothingLost(init.ring)
  {
  }

  lemma OpenIsOnTrack(stale: seq<byte>, capacity: nat, events: seq<Event>, s: Sys)
    requires capacity >= 1 && Fresh(stale) && s == Run(Init(stale, capacity), events)
    requires Plausible(Init(stale, capacity), events) && G.Open(s.pipe) && R.NothingLost(s.ring)
    ensures OnTrack(s, stale) && Fed(s)
  {
    RunIsOnTrack(stale, capacity, events, s);
    RunKeepsFed(stale, capacity, events);
  }

  lemma LiftedIsOnTrack(init: Sys, stale: seq<byte>, capacity: nat, pipe: seq<P.Event>, s: Sys)
    requires capacity >= 1 && stale == [] && init == Init(stale, capacity)
    requires G.Reaches(init.pipe, pipe) && s == Run(init, Lift(pipe))
    ensures OnTrack(s, stale) && Fed(s) && Straight(s.encoder) && G.DroppedReference(s.pipe)
    ensures Plausible(init, Lift(pipe))
  {
    CleanStart(stale, capacity);
    LiftRuns(init, pipe);
    OpenIsOnTrack(stale, capacity, Lift(pipe), s);
  }

  lemma PathToLossInLoop(init: Sys, stale: seq<byte>, capacity: nat, ack: seq<byte>, config: seq<byte>)
    returns (events: seq<Event>, k: nat)
    requires capacity >= 1 && stale == [] && init == Init(stale, capacity) && G.SmallBodies(ack, config)
    ensures LosesInLoop(init, events, k)
  {
    var pipe := G.PathToDroppedReference(init.pipe, ack, config);
    var s := Run(init, Lift(pipe));
    LiftedIsOnTrack(init, stale, capacity, pipe, s);
    events, k := SettledLosesInLoop(init, Lift(pipe), s, stale);
  }

  // There is a run in which the decoder, keeping up, polls a P-frame that does not come
  // after the frame the encoder produced before it: the session loop had dropped that
  // one.
  lemma LoopCanLoseReference(init: Sys, capacity: nat, ack: seq<byte>, config: seq<byte>)
    requires capacity >= 1 && init == Init([], capacity) && G.SmallBodies(ack, config)
    ensures exists events, k :: LosesInLoop(init, events, k)
  {
    var events, k := PathToLossInLoop(init, [], capacity, ack, config);
  }

  // ----- dropped by the encoder's callback -----

  // n frames, a keyframe first, wait in the channel.
  ghost predicate Burst(e: E.State, n: nat) {
    && E.Inv(e) && e.received == [] && e.waiting == R.UpTo(n) && |e.produced| == n
    && (n > 0 ==> e.produced[0].isKeyframe)
  }

  // After n frames one more was dropped, and the next one is the last to come out.
  ghost predicate Gap(e: E.State, n: nat) {
    && E.Inv(e) && e.received + e.waiting == R.UpTo(n) + [n + 1]
    && |e.produced| == n + 2 && e.lives[n].Overflowed?
    && e.produced[0].isKeyframe && !e.produced[n + 1].isKeyframe
  }

  function BurstFrame(n: nat): VideoFrame {
    if n == 0 then G.KEYFRAME else G.DELTA
  }

  lemma BurstGrows(e: E.State, n: nat)
    requires Burst(e, n) && n < E.FRAME_CHANNEL_SIZE
    ensures Burst(E.Step(e, E.Produce(BurstFrame(n))), n + 1)
  {
    E.StepKeepsInv(e, E.Produce(BurstFrame(n)));
    R.UpToGrows(n);
    UpToAt(n, 0);
  }

  // One frame too many has been produced, and count frames have come out.
  ghost predicate Overflown(e: E.State, n: nat, count: nat) {
    && E.Inv(e) && e.received + e.waiting == R.UpTo(n) && |e.received| == count
    && |e.produced| == n + 1 && e.lives[n].Overflowed?
    && e.produced[0].isKeyframe
  }

  lemma FullDrops(e: E.State, frame: VideoFrame)
    requires E.Inv(e) && |e.waiting| == E.FRAME_CHANNEL_SIZE
    ensures var u, n := E.Step(e, E.Produce(frame)), |e.produced|;
            && E.Inv(u) && u.waiting == e.waiting && u.received == e.received
            && u.produced == e.produced + [frame] && u.lives[n].Overflowed?
  {
    E.StepKeepsInv(e, E.Produce(frame));
  }

  lemma BurstOverflows(e: E.State, n: nat)
    requires Burst(e, n) && n > 0 && |e.waiting| == E.FRAME_CHANNEL_SIZE
    ensures Overflown(E.Step(e, E.Produce(G.DELTA)), n, 0)
  {
    FullDrops(e, G.DELTA);
    Unit(e.waiting);
  }

  lemma OverflownGivesOne(e: E.State, n: nat)
    requires Overflown(e, n, 0) && n == E.FRAME_CHANNEL_SIZE
    ensures E.CanReceive(e) && Overflown(E.Step(e, E.Receive), n, 1)
  {
    E.StepKeepsInv(e, E.Receive);
    UpToAt(n, 0);
    HeadTail(e.waiting);
    Assoc(e.received, [e.waiting[0]], e.waiting[1..]);
  }

  lemma OverflownTakesOneMore(e: E.State, n: nat)
    requires Overflown(e, n, 1) && n == E.FRAME_CHANNEL_SIZE
    ensures Gap(E.Step(e, E.Produce(G.DELTA)), n)
    ensures |E.Step(e, E.Produce(G.DELTA)).received| == 1
  {
    E.StepKeepsInv(e, E.Produce(G.DELTA));
    UpToAt(n, 0);
    Assoc(e.received, e.waiting, [n + 1]);
  }

  lemma GapStays(e: E.State, n: nat)
    requires Gap(e, n) && E.CanReceive(e)
    ensures Gap(E.Step(e, E.Receive), n)
    ensures |E.Step(e, E.Receive).waiting| == |e.waiting| - 1
    ensures |E.Step(e, E.Receive).received| == |e.received| + 1
  {
    E.StepKeepsInv(e, E.Receive);
    HeadTail(e.waiting);
    Assoc(e.received, [e.waiting[0]], e.waiting[1..]);
  }

  // The session loop has queued all n frames it took, and nothing has left the output
  // channel.
  ghost predicate QueuedAll(p: P.State, n: nat) {
    && p.loop.Serving? && p.worker.Idle? && !p.closed
    && |p.channel| == n + 2 && |p.fates| == n && forall fate <- p.fates :: fate.Queued?
  }

  lemma QueuesOneMore(p: P.State, n: nat, frame: VideoFrame)
    requires QueuedAll(p, n) && n + 2 < P.CHANNEL_SIZE
    ensures QueuedAll(P.Step(p, P.TakeFrame(frame)), n + 1)
  {
  }

  lemma TakeOne(s: Sys)
    requires E.CanReceive(s.encoder) && QueuedAll(s.pipe, |s.encoder.received|)
    requires |s.encoder.received| + 2 < P.CHANNEL_SIZE
    ensures var t := Step(s, Take);
            && t.encoder == E.Step(s.encoder, E.Receive) && t.ring == s.ring
            && QueuedAll(t.pipe, |s.encoder.received| + 1)
  {
    QueuesOneMore(s.pipe, |s.encoder.received|, s.encoder.produced[s.encoder.waiting[0]]);
  }

  lemma {:induction false} FillChannel(init: Sys, events: seq<Event>, s: Sys, n: nat, size: nat)
    returns (more: seq<Event>)
    requires s == Run(init, events) && Plausible(init, events)
    requires Burst(s.encoder, n) && n <= size == E.FRAME_CHANNEL_SIZE
    ensures var t := Run(init, more);
            && Plausible(init, more)
            && Burst(t.encoder, size) && t.pipe == s.pipe && t.ring == s.ring
    decreases size - n
  {
    more := events;
    if n < size {
      var e := Encode(BurstFrame(n));
      PlausibleSnoc(init, events, e);
      BurstGrows(s.encoder, n);
      more := FillChannel(init, events + [e], Step(s, e), n + 1, size);
    }
  }

  lemma {:induction false} TakeAll(init: Sys, events: seq<Event>, s: Sys, n: nat) returns (more: seq<Event>)
    requires s == Run(init, events) && Plausible(init, events) && n == E.FRAME_CHANNEL_SIZE
    requires Gap(s.encoder, n) && QueuedAll(s.pipe, |s.encoder.received|)
    ensures var t := Run(init, more);
            && Plausible(init, more) && t.ring == s.ring
            && Gap(t.encoder, n) && t.encoder.waiting == [] && QueuedAll(t.pipe, |t.encoder.received|)
    decreases |s.encoder.waiting|
  {
    more := events;
    if s.encoder.waiting != [] {
      UpToAt(n, 0);
      assert |s.encoder.received + s.encoder.waiting| == n + 1;
      PlausibleSnoc(init, events, Take);
      GapStays(s.encoder, n);
      TakeOne(s);
      more := TakeAll(init, events + [Take], Step(s, Take), n);
    }
  }

  lemma OverflowAndTake(init: Sys, events: seq<Event>, s: Sys, n: nat) returns (more: seq<Event>)
    requires s == Run(init, events) && Plausible(init, events) && n == E.FRAME_CHANNEL_SIZE
    requires Burst(s.encoder, n) && QueuedAll(s.pipe, 0)
    ensures var t := Run(init, more);
            && Plausible(init, more) && t.ring == s.ring
            && Gap(t.encoder, n) && QueuedAll(t.pipe, |t.encoder.received|)
  {
    UpToAt(n, 0);
    BurstOverflows(s.encoder, n);
    PlausibleSnoc(init, events, Encode(G.DELTA));
    more := events + [Encode(G.DELTA)];
    var t := Run(init, more);
    PlausibleSnoc(init, more, Take);
    OverflownGivesOne(t.encoder, n);
    TakeOne(t);
    more := more + [Take];
    PlausibleSnoc(init, more, Encode(G.DELTA));
    OverflownTakesOneMore(Run(init, more).encoder, n);
    more := more + [Encode(G.DELTA)];
  }

  lemma {:induction false} AllQueuedIndices(fates: seq<P.Fate>)
    requires forall fate <- fates :: fate.Queued?
    ensures SentIndices(fates) == R.UpTo(|fates|)
  {
    if fates != [] {
      var n := |fates| - 1;
      assert fates[n] in fates && forall fate <- fates[..n] :: fate in fates;
      AllQueuedIndices(fates[..n]);
    }
  }

  // The last two frames to come out are not next to each other in production.
  lemma GapAtTheEnd(e: E.State, n: nat)
    requires Gap(e, n) && e.waiting == [] && n > 0
    ensures |e.received| == n + 1 && OriginOf(e, 0) == 0
    ensures OriginOf(e, n - 1) == n - 1 && OriginOf(e, n) == n + 1
  {
    UpToAt(n, 0);
    UpToAt(n, n - 1);
    Unit(e.received);
  }

  lemma QuietLosesInEncoder(s: Sys, stale: seq<byte>, n: nat)
    requires OnTrack(s, stale) && Quiet(s) && Fed(s) && n > 0
    requires Gap(s.encoder, n) && s.encoder.waiting == [] && forall fate <- s.pipe.fates :: fate.Queued?
    ensures LacksReference(s, n) && DroppedByEncoder(s, n)
  {
    QuietIsLinked(s, stale);
    GapAtTheEnd(s.encoder, n);
    AllQueuedIndices(s.pipe.fates);
    UpToAt(n + 1, 0);
    UpToAt(n + 1, n - 1);
    UpToAt(n + 1, n);
    PolledInPlace(s, 0);
    PolledInPlace(s, n - 1);
    PolledInPlace(s, n);
  }

  lemma AfterGreeting(s: Sys, ack: seq<byte>, config: seq<byte>)
    requires G.Greeted(P.Step(P.Step(s.pipe, P.Greet(ack)), P.Greet(config)))
    ensures var t := Step(Step(s, Pipe(P.Greet(ack))), Pipe(P.Greet(config)));
            QueuedAll(t.pipe, 0) && t.encoder == s.encoder && t.ring == s.ring
  {
  }

  lemma TwoGreetings(init: Sys, ack: seq<byte>, config: seq<byte>, events: seq<Event>)
    requires G.SmallBodies(ack, config)
    requires events == ([] + [Pipe(P.Greet(ack))]) + [Pipe(P.Greet(config))]
    ensures Plausible(init, events)
    ensures Run(init, events) == Step(Step(init, Pipe(P.Greet(ack))), Pipe(P.Greet(config)))
  {
    PlausibleSnoc(init, [], Pipe(P.Greet(ack)));
    PlausibleSnoc(init, [] + [Pipe(P.Greet(ack))], Pipe(P.Greet(config)));
  }

  lemma GreetedIsReady(init: Sys, stale: seq<byte>, capacity: nat, ack: seq<byte>, config: seq<byte>)
    returns (events: seq<Event>)
    requires stale == [] && init == Init(stale, capacity) && G.SmallBodies(ack, config)
    ensures var s := Run(init, events);
            && Plausible(init, events) && s.ring == init.ring
            && Burst(s.encoder, 0) && QueuedAll(s.pipe, 0)
  {
    events := ([] + [Pipe(P.Greet(ack))]) + [Pipe(P.Greet(config))];
    TwoGreetings(init, ack, config, events);
    G.GreetingTwice(init.pipe, ack, config);
    AfterGreeting(init, ack, config);
    assert Burst(init.encoder, 0);
  }

  lemma GapIsOnTrack(init: Sys, stale: seq<byte>, capacity: nat, events: seq<Event>, s: Sys)
    requires capacity >= 1 && stale == [] && init == Init(stale, capacity)
    requires s == Run(init, events) && Plausible(init, events) && s.ring == init.ring
    requires QueuedAll(s.pipe, |s.encoder.received|)
    ensures OnTrack(s, stale) && Fed(s)
  {
    CleanStart(stale, capacity);
    OpenIsOnTrack(stale, capacity, events, s);
  }

  lemma SettleAfterGap(init: Sys, events: seq<Event>, s: Sys, stale: seq<byte>, n: nat) returns (more: seq<Event>)
    requires s == Run(init, events) && Plausible(init, events) && OnTrack(s, stale) && Fed(s) && n > 0
    requires Gap(s.encoder, n) && s.encoder.waiting == [] && QueuedAll(s.pipe, |s.encoder.received|)
    ensures LosesInEncoder(init, more, n)
  {
    more := Settle(init, events, s, stale);
    var t := Run(init, more);
    SameInputStaysFed(s, t);
    QuietLosesInEncoder(t, stale, n);
  }

  lemma PathToLossInEncoder(init: Sys, stale: seq<byte>, capacity: nat, ack: seq<byte>, config: seq<byte>, n: nat)
    returns (events: seq<Event>)
    requires capacity >= 1 && stale == [] && init == Init(stale, capacity) && G.SmallBodies(ack, config)
    requires n == E.FRAME_CHANNEL_SIZE
    ensures LosesInEncoder(init, events, n)
  {
    var greeted := GreetedIsReady(init, stale, capacity, ack, config);
    var full := FillChannel(init, greeted, Run(init, greeted), 0, n);
    var gap := OverflowAndTake(init, full, Run(init, full), n);
    var taken := TakeAll(init, gap, Run(init, gap), n);
    GapIsOnTrack(init, stale, capacity, taken, Run(init, taken));
    events := SettleAfterGap(init, taken, Run(init, taken), stale, n);
  }

  // There is a run in which the session loop queues every frame it takes and the decoder
  // keeps up, and still polls a P-frame that does not come after the frame the encoder
  // produced before it: the encoder channel was full for that one.
  lemma EncoderCanLoseReference(init: Sys, capacity: nat, ack: seq<byte>, config: seq<byte>)
    requires capacity >= 1 && init == Init([], capacity) && G.SmallBodies(ack, config)
    ensures exists events, k :: LosesInEncoder(init, events, k)
  {
    var events := PathToLossInEncoder(init, [], capacity, ack, config, E.FRAME_CHANNEL_SIZE);
  }
}
