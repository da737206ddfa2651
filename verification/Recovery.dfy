// Display recovery inside the USB session loop: the virtual display, the encoder
// pipeline and the frame channel are torn down and rebuilt together, and every
// rebuilding step may fail.
module Recovery {
  import opened Wrappers
  import opened Seqs
  import E = EncoderChannel

  // A virtual display with its PipeWire node, and a pipeline with the node it reads
  // and the channel its frames go to. Ids are never reused; nodes may be.
  datatype Display = Display(id: nat, node: nat)

  datatype Pipeline = Pipeline(id: nat, node: nat, feeds: nat)

  datatype Phase = Looping | Destroying | Creating | Building | LoopLeft | ShutDown

  datatype State = State(
    phase: Phase,
    live: set<Display>,          // displays the compositor shows
    stray: set<Display>,         // those that a failed create has left behind
    started: set<Pipeline>,      // pipelines that produce frames
    backend: Option<Display>,    // the display the backend object remembers
    pipeline: Pipeline,          // the loop's pipeline variable
    node: nat,                   // display_info.pipewire_node_id
    frameRx: nat,                // the channel the loop receives from
    waiting: seq<nat>,           // frames in that channel, by producing pipeline
    sent: seq<nat>,              // frames the loop has sent, by producing pipeline
    mark: nat,                   // |sent| at the last successful recovery
    nextId: nat)

  // How create_virtual_display ends: it fails before the compositor has started the
  // display or after that, waiting for the node.
  datatype Creation = Created(node: nat) | NotStarted | LeftBehind(node: nat)

  datatype Event =
    | Produce(source: Pipeline)
    | TakeFrame
    | BeginRecovery                    // stream error or 500 ms without a frame
    | DestroyDisplay
    | CreateDisplay(creation: Creation)
    | BuildPipeline(starts: Option<bool>)
    | LeaveLoop
    | CleanUp

  // The loop is entered with one display and one started pipeline.
  function Init(node: nat): State {
    var d, p := Display(0, node), Pipeline(0, node, 0);
    State(Looping, {d}, {}, {p}, Some(d), p, node, 0, [], [], 0, 1)
  }

  function Step(s: State, e: Event): State {
    match e
    case Produce(source) => OnProduce(s, source)
    case TakeFrame => if s.phase.Looping? then OnTake(s) else s
    case BeginRecovery =>
      if s.phase.Looping? then s.(started := s.started - {s.pipeline}, phase := Destroying) else s
    case DestroyDisplay => if s.phase.Destroying? then Destroy(s).(phase := Creating) else s
    case CreateDisplay(creation) => if s.phase.Creating? then OnCreate(s, creation) else s
    case BuildPipeline(starts) => if s.phase.Building? then OnBuild(s, starts) else s
    case LeaveLoop => if s.phase.Looping? then s.(phase := LoopLeft) else s
    case CleanUp =>
      if s.phase.LoopLeft? then Destroy(s.(started := s.started - {s.pipeline})).(phase := ShutDown) else s
  }

  // A frame for a channel that is full, or whose receiver is gone, is dropped.
  function OnProduce(s: State, source: Pipeline): State {
    if source in s.started && source.feeds == s.frameRx && |s.waiting| < E.FRAME_CHANNEL_SIZE then
      s.(waiting := s.waiting + [source.id])
    else s
  }

  // recv(): the next frame, or None when the channel has lost its sender.
  function OnTake(s: State): State {
    if s.waiting != [] then s.(sent := s.sent + [s.waiting[0]], waiting := s.waiting[1..])
    else if s.pipeline.feeds != s.frameRx then s.(phase := LoopLeft)
    else s
  }

  function Destroy(s: State): State {
    match s.backend
    case None => s
    case Some(d) => s.(live := s.live - {d}, backend := None)
  }

  function OnCreate(s: State, creation: Creation): State {
    match creation
    case NotStarted => s.(phase := Looping)
    case LeftBehind(n) =>
      var d := Display(s.nextId, n);
      s.(live := s.live + {d}, stray := s.stray + {d}, nextId := s.nextId + 1, phase := Looping)
    case Created(n) =>
      var d := Display(s.nextId, n);
      s.(live := s.live + {d}, backend := Some(d), node := n,
         frameRx := s.nextId + 1, waiting := [], nextId := s.nextId + 2, phase := Building)
  }

  // starts says whether the new pipeline reaches the playing state; its failure is
  // ignored, and the old pipeline is dropped, which stops it.
  function OnBuild(s: State, starts: Option<bool>): State {
    match starts
    case None => s.(phase := Looping)
    case Some(ok) =>
      var p := Pipeline(s.nextId, s.node, s.frameRx);
      s.(started := (if ok then s.started + {p} else s.started) - {s.pipeline},
         pipeline := p, nextId := s.nextId + 1, mark := |s.sent|, phase := Looping)
  }

  function Run(s: State, events: seq<Event>): State {
    if events == [] then s else Step(Run(s, events[..|events| - 1]), events[|events| - 1])
  }

  // ----- the pairing invariant -----

  // At every step, also in the middle of a recovery: no display but the backend's and
  // the stray ones, no started pipeline but the loop's, and that one paired with both.
  ghost predicate Paired(s: State) {
    && s.live == s.stray + (if s.backend.Some? then {s.backend.value} else {})
    && (forall d <- s.live :: d.id < s.nextId)
    && (s.backend.Some? ==> s.backend.value !in s.stray)
    && s.started <= {s.pipeline}
    && (s.pipeline in s.started ==>
          && s.backend.Some? && s.pipeline.node == s.backend.value.node
          && s.pipeline.feeds == s.frameRx
          && (s.phase.Looping? || s.phase.LoopLeft?))
    && (s.backend.Some? ==> s.backend.value.node == s.node)
    && (s.phase.Creating? || s.phase.ShutDown? ==> s.backend.None?)
    && (s.phase.ShutDown? ==> s.started == {})
    && (s.phase.Building? ==> s.backend.Some?)
    && s.pipeline.id < s.nextId && s.pipeline.feeds < s.nextId && s.frameRx < s.nextId
    && (s.phase.Building? ==> s.pipeline.feeds != s.frameRx)
  }

  ghost predicate FramesOfCurrent(s: State) {
    && (forall i | 0 <= i < |s.waiting| :: s.waiting[i] == s.pipeline.id)
    && (s.waiting != [] ==> s.pipeline.feeds == s.frameRx)
    && s.mark <= |s.sent|
    && (forall i | s.mark <= i < |s.sent| :: s.sent[i] == s.pipeline.id)
    && (forall i | 0 <= i < |s.sent| :: s.sent[i] <= s.pipeline.id)
    && (forall i, j | 0 <= i < j < |s.sent| :: s.sent[i] <= s.sent[j])
  }

  lemma PairedStep(s: State, e: Event)
    requires Paired(s)
    ensures Paired(Step(s, e))
  {
  }

  lemma FramesStep(s: State, e: Event)
    requires Paired(s) && FramesOfCurrent(s)
    ensures FramesOfCurrent(Step(s, e))
  {
    match e
    case Produce(source) =>
    case TakeFrame =>
      if s.waiting != [] {
        assert s.waiting[0] == s.pipeline.id;
      }
    case BuildPipeline(starts) =>
      if s.phase.Building? {
        assert s.waiting == [];
      }
    case _ =>
  }

  lemma {:induction false} RunKeepsPairing(node: nat, events: seq<Event>)
    ensures Paired(Run(Init(node), events)) && FramesOfCurrent(Run(Init(node), events))
  {
    if events != [] {
      var n := |events| - 1;
      RunKeepsPairing(node, events[..n]);
      PairedStep(Run(Init(node), events[..n]), events[n]);
      FramesStep(Run(Init(node), events[..n]), events[n]);
    }
  }

  // ----- what holds under every schedule of failures -----

  lemma AtMostOneOfEach(node: nat, events: seq<Event>, s: State)
    requires s == Run(Init(node), events)
    ensures s.stray <= s.live && |s.live - s.stray| <= 1 && |s.started| <= 1
    ensures forall p <- s.started, d <- s.live - s.stray :: p.node == d.node
    ensures forall p <- s.started :: p == s.pipeline && p.feeds == s.frameRx && s.live != s.stray
    ensures s.phase.ShutDown? ==> s.live == s.stray && s.started == {}
  {
    RunKeepsPairing(node, events);
    SubsetOfSingleton(s.started, s.pipeline);
    if s.backend.Some? {
      SubsetOfSingleton(s.live - s.stray, s.backend.value);
    }
  }

  // The creates of a run that fail after the compositor has started the display.
  function LeftBehindIn(s: State, events: seq<Event>): nat {
    if events == [] then 0
    else
      var n := |events| - 1;
      LeftBehindIn(s, events[..n])
      + if Run(s, events[..n]).phase.Creating? && events[n].CreateDisplay? && events[n].creation.LeftBehind? then 1
        else 0
  }

  // Displays stay behind exactly as often as a create fails that late: nothing in the
  // session remembers them.
  lemma {:induction false} StrayDisplaysAreCounted(node: nat, events: seq<Event>)
    ensures |Run(Init(node), events).stray| == LeftBehindIn(Init(node), events)
  {
    if events != [] {
      var n := |events| - 1;
      var s := Run(Init(node), events[..n]);
      StrayDisplaysAreCounted(node, events[..n]);
      RunKeepsPairing(node, events[..n]);
      StrayStep(s, events[n]);
    }
  }

  lemma StrayStep(s: State, e: Event)
    requires Paired(s)
    ensures |Step(s, e).stray|
         == |s.stray| + if s.phase.Creating? && e.CreateDisplay? && e.creation.LeftBehind? then 1 else 0
  {
    if s.phase.Creating? && e.CreateDisplay? && e.creation.LeftBehind? {
      var d := Display(s.nextId, e.creation.node);
      assert d !in s.live;
    }
  }

  lemma SubsetOfSingleton<T>(a: set<T>, x: T)
    requires a <= {x}
    ensures |a| <= 1
  {
    if a != {} {
      assert a == {x};
    }
  }

  // No frame of an older pipeline is sent after a successful recovery, and frames
  // of different pipelines are never mixed.
  lemma NoStaleFrames(node: nat, events: seq<Event>, s: State, j: nat)
    requires s == Run(Init(node), events)
    requires j < |s.sent|
    ensures forall i | 0 <= i < j :: s.sent[i] <= s.sent[j]
    ensures j >= s.mark ==> s.sent[j] == s.pipeline.id
  {
    RunKeepsPairing(node, events);
  }

  // ----- the object -----

  class SessionResources {
    var live: set<Display>
    ghost var stray: set<Display>
    var started: set<Pipeline>
    var backend: Option<Display>
    var pipeline: Pipeline
    var node: nat
    var frameRx: nat
    var waiting: seq<nat>
    var sent: seq<nat>
    var nextId: nat
    ghost var mark: nat

    ghost function At(phase: Phase): State
      reads this
    {
      State(phase, live, stray, started, backend, pipeline, node, frameRx, waiting, sent, mark, nextId)
    }

    constructor (node: nat)
      ensures At(Looping) == Init(node)
    {
      var d, p := Display(0, node), Pipeline(0, node, 0);
      live, started, backend, pipeline, this.node := {d}, {p}, Some(d), p, node;
      frameRx, waiting, sent, nextId, mark, stray := 0, [], [], 1, 0, {};
    }

    method StopPipeline(p: Pipeline)
      modifies this`started
      ensures started == old(started) - {p}
    {
      started := started - {p};
    }

    method DestroyVirtualDisplay()
      modifies this`live, this`backend
      ensures backend == None
      ensures live == if old(backend).Some? then old(live) - {old(backend).value} else old(live)
    {
      if backend.Some? {
        live := live - {backend.value};
      }
      backend := None;
    }

    // recover_display: creation is how the creation of the new display ends, built
    // whether the new pipeline plays if one could be built.
    method RecoverDisplay(creation: Creation, built: Option<bool>)
      modifies this
      ensures At(Looping) == Recovered(old(At(Looping)), creation, built)
    {
      TearDown();
      if creation.Created? {
        CreatedDisplay(creation.node);
        if built.Some? {
          BuiltPipeline(built.value);
        }
      } else if creation.LeftBehind? {
        LeaveBehind(creation.node);
      }
    }

    method TearDown()
      modifies this
      ensures At(Creating) == Step(Step(old(At(Looping)), BeginRecovery), DestroyDisplay)
    {
      StopPipeline(pipeline);
      DestroyVirtualDisplay();
    }

    // What follows the loop: the pipeline is stopped and the display destroyed.
    method CleanUp()
      modifies this
      ensures At(ShutDown) == Step(old(At(LoopLeft)), Event.CleanUp)
      ensures backend == None && started == old(started) - {pipeline}
      ensures old(backend).Some? ==> old(backend).value !in live
    {
      StopPipeline(pipeline);
      DestroyVirtualDisplay();
    }

    // What a successful create_virtual_display leads to: new display info and a new
    // frame channel in place of the old one.
    method CreatedDisplay(newNode: nat)
      modifies this
      ensures At(Building) == Step(old(At(Creating)), CreateDisplay(Created(newNode)))
    {
      var d := Display(nextId, newNode);
      live, backend := live + {d}, Some(d);
      node := newNode;
      frameRx, waiting := nextId + 1, [];
      nextId := nextId + 2;
    }

    // A create that fails after the compositor has started the display: the backend
    // keeps nothing of it.
    method LeaveBehind(newNode: nat)
      modifies this
      ensures At(Looping) == Step(old(At(Creating)), CreateDisplay(LeftBehind(newNode)))
    {
      var d := Display(nextId, newNode);
      live, stray := live + {d}, stray + {d};
      nextId := nextId + 1;
    }

    // What a successful VideoPipeline::new leads to; a failing start is ignored.
    method BuiltPipeline(starts: bool)
      modifies this
      ensures At(Looping) == Step(old(At(Building)), BuildPipeline(Some(starts)))
    {
      var newPipeline := Pipeline(nextId, node, frameRx);
      nextId := nextId + 1;
      if starts {
        started := started + {newPipeline};
      }
      StopPipeline(pipeline);
      pipeline := newPipeline;
      mark := |sent|;
    }
  }

  // A whole recover_display, as the steps it takes.
  function Recovered(s: State, creation: Creation, built: Option<bool>): State {
    Step(Step(Step(Step(s, BeginRecovery), DestroyDisplay), CreateDisplay(creation)), BuildPipeline(built))
  }

  lemma RunSnoc(s: State, events: seq<Event>, e: Event)
    ensures Run(s, events + [e]) == Step(Run(s, events), e)
  {
    DropFront(events, [e]);
  }

  // So what holds of every run holds after any number of recoveries.
  lemma RecoveredExtendsRun(s: State, events: seq<Event>, creation: Creation, built: Option<bool>)
    returns (more: seq<Event>)
    ensures Run(s, more) == Recovered(Run(s, events), creation, built)
  {
    more := events + [BeginRecovery];
    RunSnoc(s, events, BeginRecovery);
    RunSnoc(s, more, DestroyDisplay);
    more := more + [DestroyDisplay];
    RunSnoc(s, more, CreateDisplay(creation));
    more := more + [CreateDisplay(creation)];
    RunSnoc(s, more, BuildPipeline(built));
    more := more + [BuildPipeline(built)];
  }

  // Where a recovery leaves the session, by how far it got; and exactly when the next
  // receive leaves the loop: the frame channel has lost its sender and holds no frame.
  lemma RecoveryOutcomes(node: nat, events: seq<Event>, s: State, creation: Creation, built: Option<bool>)
    requires s == Run(Init(node), events) && s.phase.Looping?
    ensures var t := Recovered(s, creation, built);
            && t.phase.Looping? && t.sent == s.sent
            && (!creation.Created? ==>
                  && t.live == t.stray && t.started == {} && t.pipeline == s.pipeline
                  && t.waiting == s.waiting && t.frameRx == s.frameRx)
            && (creation.Created? ==>
                  && t.waiting == [] && t.frameRx != s.frameRx
                  && exists d :: t.live == t.stray + {d} && d.node == creation.node)
            && (creation.Created? && built.None? ==> t.started == {} && t.pipeline == s.pipeline)
            && (creation.Created? && built.Some? ==>
                  && t.pipeline != s.pipeline && t.mark == |t.sent|
                  && t.started == (if built.value then {t.pipeline} else {})
                  && t.pipeline.node == creation.node && t.pipeline.feeds == t.frameRx)
    ensures Step(Recovered(s, creation, built), TakeFrame).phase.LoopLeft?
       <==> (creation.Created? && built.None?)
            || (!creation.Created? && s.waiting == [] && s.pipeline.feeds != s.frameRx)
  {
    RunKeepsPairing(node, events);
    var s2 := Step(Step(s, BeginRecovery), DestroyDisplay);
    TornDown(s);
    if creation.Created? {
      var d := Display(s2.nextId, creation.node);
      var s3 := Step(s2, CreateDisplay(creation));
      assert s3.live == s3.stray + {d};
      assert Step(s3, BuildPipeline(built)).live == s3.stray + {d} && d.node == creation.node;
    }
  }

  lemma TornDown(s: State)
    requires Paired(s) && s.phase.Looping?
    ensures var t := Step(Step(s, BeginRecovery), DestroyDisplay);
            && Paired(t) && t.phase.Creating? && t.started == {} && t.live == t.stray == s.stray
            && t.pipeline == s.pipeline && t.frameRx == s.frameRx && t.waiting == s.waiting && t.sent == s.sent
  {
    PairedStep(s, BeginRecovery);
    PairedStep(Step(s, BeginRecovery), DestroyDisplay);
  }

  // ----- the end of a session -----

  // Nothing but the stray displays is left, and nothing changes any more.
  ghost predicate AllGone(t: State, stray: set<Display>) {
    && t.phase.ShutDown? && t.live == stray == t.stray && t.started == {} && t.backend == None
    && forall more: seq<Event> :: Run(t, more) == t
  }

  lemma {:induction false} ShutDownIsFinal(s: State, more: seq<Event>)
    requires s.phase.ShutDown? && s.started == {}
    ensures Run(s, more) == s
  {
    if more != [] {
      ShutDownIsFinal(s, more[..|more| - 1]);
    }
  }

  // However the loop ends, the clean-up after it stops the pipeline and destroys the
  // display, and that is the end.
  lemma CleanUpLeavesNothing(node: nat, events: seq<Event>, s: State)
    requires s == Run(Init(node), events)
    ensures s.phase.LoopLeft? ==> AllGone(Step(s, CleanUp), s.stray)
    ensures s.phase.Looping? ==> Step(s, LeaveLoop).phase.LoopLeft?
    ensures s.phase.Looping? ==> AllGone(Step(Step(s, LeaveLoop), CleanUp), s.stray)
  {
    RunKeepsPairing(node, events);
    PairedStep(s, LeaveLoop);
    CleaningUp(s);
    CleaningUp(Step(s, LeaveLoop));
  }

  lemma CleaningUp(s: State)
    requires Paired(s)
    ensures s.phase.LoopLeft? ==> AllGone(Step(s, CleanUp), s.stray)
  {
    if s.phase.LoopLeft? {
      var t := Step(s, CleanUp);
      PairedStep(s, CleanUp);
      assert t.started == {} && t.live == t.stray;
      forall more: seq<Event> ensures Run(t, more) == t {
        ShutDownIsFinal(t, more);
      }
    }
  }

  // ----- frames that wait are sent -----

  // A session starts with a display and a pipeline that plays it: the first frame
  // produced is sent.
  lemma SessionStartsPlaying(node: nat, s: State)
    requires s == Init(node)
    ensures s.phase.Looping? && s.started == {s.pipeline} && s.pipeline.node == node
    ensures s.backend.Some? && s.live == {s.backend.value} && s.backend.value.node == node && s.stray == {}
    ensures Step(Step(s, Produce(s.pipeline)), TakeFrame).sent == [s.pipeline.id]
  {
  }

  function Takes(n: nat): seq<Event> {
    if n == 0 then [] else Takes(n - 1) + [TakeFrame]
  }

  // In the loop, as many receives as frames wait send all of them, in order.
  lemma {:induction false} WaitingFramesAreSent(s: State, n: nat)
    requires s.phase.Looping? && n <= |s.waiting|
    ensures var t := Run(s, Takes(n));
            && t.phase.Looping? && t.sent == s.sent + s.waiting[..n] && t.waiting == s.waiting[n..]
            && t.pipeline == s.pipeline && t.frameRx == s.frameRx
  {
    if n == 0 {
      Unit(s.sent);
    } else {
      WaitingFramesAreSent(s, n - 1);
      RunSnoc(s, Takes(n - 1), TakeFrame);
      TailAt(s.waiting, n - 1);
      Assoc(s.sent, s.waiting[..n - 1], [s.waiting[n - 1]]);
    }
  }

  // A frame that the playing pipeline produces while there is room is sent after those
  // that wait before it; one more than the channel holds is not.
  lemma ProducedFrameIsSent(node: nat, events: seq<Event>, s: State)
    requires s == Run(Init(node), events) && s.phase.Looping? && s.pipeline in s.started
    ensures var t, n := Step(s, Produce(s.pipeline)), |s.waiting|;
            if n < 16 then |t.waiting| == n + 1
                           && Run(t, Takes(n + 1)).sent == (s.sent + s.waiting) + [s.pipeline.id]
            else t == s
  {
    RunKeepsPairing(node, events);
    var t, n := Step(s, Produce(s.pipeline)), |s.waiting|;
    if n < 16 {
      assert t.waiting == s.waiting + [s.pipeline.id];
      WaitingFramesAreSent(t, n + 1);
      assert t.waiting[..n + 1] == t.waiting;
      Assoc(s.sent, s.waiting, [s.pipeline.id]);
    }
  }

  // Nobody else's frames get in: those of a pipeline that is stopped or feeds another
  // channel.
  lemma OtherFramesAreDropped(s: State, source: Pipeline)
    requires source !in s.started || source.feeds != s.frameRx
    ensures Step(s, Produce(source)) == s
  {
  }
}
