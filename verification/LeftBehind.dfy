// Frames that never reach the decoder: those the full encoder channel drops, those a
// recovery leaves behind in it, and those the session loop does not queue.
module LeftBehind {
  import opened Bytes
  import opened Packets
  import opened Seqs
  import opened VideoFrames
  import opened HostStreams
  import opened UsbAccounting
  import opened EndToEnd
  import E = EncoderChannel
  import P = UsbPipeline

  predicate Unqueued(s: Sys, i: nat) {
    i < |s.pipe.fates| && !s.pipe.fates[i].Queued?
  }

  // The m-th frame produced got lost on the host.
  predicate LostOnHost(s: Sys, m: nat) {
    && m < |s.encoder.lives|
    && (E.Lost(s.encoder.lives[m]) || (s.encoder.lives[m].Received? && Unqueued(s, s.encoder.lives[m].i)))
  }

  // ----- what is lost stays lost -----

  lemma FatesOnlyGrow(p: P.State, e: P.Event)
    ensures p.fates <= P.Step(p, e).fates
  {
  }

  lemma UnqueuedStays(s: Sys, e: Event, i: nat)
    requires Unqueued(s, i)
    ensures Unqueued(Step(s, e), i)
  {
    PipeMoves(s, e);
    if PipeMove(s, e) != [] {
      FatesOnlyGrow(s.pipe, PipeMove(s, e)[0]);
    }
  }

  lemma SettledEncoderStep(e: E.State, move: E.Event, m: nat)
    requires E.Inv(e) && m < |e.lives| && !e.lives[m].InChannel?
    ensures m < |E.Step(e, move).lives| && E.Step(e, move).lives[m] == e.lives[m]
  {
    if move.Receive? && E.CanReceive(e) {
      assert e.lives[e.waiting[0]] == E.InChannel;
    }
  }

  lemma SettledLifeStays(s: Sys, e: Event, m: nat)
    requires Fed(s) && m < |s.encoder.lives| && !s.encoder.lives[m].InChannel?
    ensures m < |Step(s, e).encoder.lives| && Step(s, e).encoder.lives[m] == s.encoder.lives[m]
  {
    match e
    case Encode(frame) => SettledEncoderStep(s.encoder, E.Produce(frame), m);
    case Take => SettledEncoderStep(s.encoder, E.Receive, m);
    case Recover => SettledEncoderStep(s.encoder, E.Replace, m);
    case _ =>
  }

  lemma LostStepStays(s: Sys, e: Event, m: nat)
    requires Fed(s) && LostOnHost(s, m)
    ensures LostOnHost(Step(s, e), m)
  {
    SettledLifeStays(s, e, m);
    if s.encoder.lives[m].Received? {
      UnqueuedStays(s, e, s.encoder.lives[m].i);
    }
  }

  lemma {:induction false} LostStays(s: Sys, more: seq<Event>, m: nat)
    requires Fed(s) && LostOnHost(s, m)
    ensures Fed(Run(s, more)) && LostOnHost(Run(s, more), m)
  {
    if more != [] {
      var n := |more| - 1;
      LostStays(s, more[..n], m);
      LostStepStays(Run(s, more[..n]), more[n], m);
      StepKeepsFed(Run(s, more[..n]), more[n]);
    }
  }

  // ----- what is lost is never polled -----

  ghost predicate NeverPolled(s: Sys, m: nat) {
    !KeptAt(s, m) && forall k | 0 <= k < |s.ring.polled| :: Place(s, k) != m
  }

  lemma LostIsNotPolled(stale: seq<byte>, capacity: nat, events: seq<Event>, s: Sys, m: nat)
    requires Fresh(stale) && capacity >= 1 && forall e <- events :: Bounded(e)
    requires s == Run(Init(stale, capacity), events) && LostOnHost(s, m)
    ensures NeverPolled(s, m)
  {
    forall k | 0 <= k < |s.ring.polled| ensures Place(s, k) != m {
      FramePathIntegrity(stale, capacity, events, s, k);
      var ring := RunIsLinked(stale, capacity, events, s);
      PlaceIsKept(s, k);
    }
  }

  lemma {:induction false} RunAppend(s: Sys, a: seq<Event>, b: seq<Event>)
    ensures Run(s, a + b) == Run(Run(s, a), b)
    decreases |b|
  {
    if b == [] {
      Unit(a);
    } else {
      LastOfSum(a, b);
      RunAppend(s, a, b[..|b| - 1]);
    }
  }

  lemma LostAfterStep(stale: seq<byte>, capacity: nat, events: seq<Event>, e: Event, more: seq<Event>, m: nat)
    requires Fresh(stale) && capacity >= 1 && Bounded(e)
    requires (forall e <- events :: Bounded(e)) && (forall e <- more :: Bounded(e))
    requires LostOnHost(Step(Run(Init(stale, capacity), events), e), m)
    ensures NeverPolled(Run(Step(Run(Init(stale, capacity), events), e), more), m)
  {
    var all := (events + [e]) + more;
    RunSnoc(Init(stale, capacity), events, e);
    RunAppend(Init(stale, capacity), events + [e], more);
    RunKeepsFed(stale, capacity, events + [e]);
    LostStays(Step(Run(Init(stale, capacity), events), e), more, m);
    LostIsNotPolled(stale, capacity, all, Run(Init(stale, capacity), all), m);
  }

  // ----- the three ways -----

  // A recovery: no frame that waits in the encoder channel then is ever polled, whatever
  // comes after. While the loop does not serve there is no recovery.
  lemma RecoveryLosesWaiting(stale: seq<byte>, capacity: nat, events: seq<Event>, s: Sys, more: seq<Event>, m: nat)
    requires Fresh(stale) && capacity >= 1
    requires (forall e <- events :: Bounded(e)) && (forall e <- more :: Bounded(e))
    requires s == Run(Init(stale, capacity), events) && m in s.encoder.waiting
    ensures s.pipe.loop.Serving? ==> Step(s, Recover).encoder.waiting == []
    ensures s.pipe.loop.Serving? ==> NeverPolled(Run(Step(s, Recover), more), m)
    ensures !s.pipe.loop.Serving? ==> Step(s, Recover) == s
  {
    RunKeepsFed(stale, capacity, events);
    if s.pipe.loop.Serving? {
      var j :| 0 <= j < |s.encoder.waiting| && s.encoder.waiting[j] == m;
      assert s.encoder.lives[s.encoder.waiting[j]] == E.InChannel;
      LostAfterStep(stale, capacity, events, Recover, more, m);
    }
  }

  // The full encoder channel: the frame produced while 16 others wait.
  lemma FullEncoderChannelLoses(stale: seq<byte>, capacity: nat, events: seq<Event>, s: Sys,
                                frame: VideoFrame, more: seq<Event>)
    requires Fresh(stale) && capacity >= 1 && |frame.data| <= MAX_PAYLOAD_SIZE
    requires (forall e <- events :: Bounded(e)) && (forall e <- more :: Bounded(e))
    requires s == Run(Init(stale, capacity), events) && |s.encoder.waiting| == 16
    ensures NeverPolled(Run(Step(s, Encode(frame)), more), |s.encoder.produced|)
  {
    RunKeepsFed(stale, capacity, events);
    LostAfterStep(stale, capacity, events, Encode(frame), more, |s.encoder.produced|);
  }

  // The full output channel: the frame taken while 120 packets wait.
  lemma FullOutputChannelLoses(stale: seq<byte>, capacity: nat, events: seq<Event>, s: Sys, more: seq<Event>)
    requires Fresh(stale) && capacity >= 1
    requires (forall e <- events :: Bounded(e)) && (forall e <- more :: Bounded(e))
    requires s == Run(Init(stale, capacity), events) && CanTake(s) && |s.pipe.channel| == 120
    ensures NeverPolled(Run(Step(s, Take), more), s.encoder.waiting[0])
  {
    var pipe := Components(stale, capacity, events);
    RunKeepsCounts(stale, pipe);
    RunKeepsFed(stale, capacity, events);
    LostAfterStep(stale, capacity, events, Take, more, s.encoder.waiting[0]);
  }
}
