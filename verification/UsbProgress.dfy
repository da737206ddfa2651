// What the USB pipeline can always still do, and what it cannot make up for.
module UsbProgress {
  import opened Bytes
  import opened Packets
  import opened Seqs
  import opened StaleBytes
  import opened UsbWriter
  import opened VideoFrames
  import opened Window
  import opened UsbPipeline

  // ----- no deadlock -----

  predicate Open(s: State) {
    !s.closed && !s.worker.Stopped?
  }

  predicate Drained(s: State) {
    s.rx == [] && s.wire == [] && s.worker.Idle? && s.channel == []
  }

  // A step that moves something on.
  function NextMove(s: State): Event {
    if s.rx != [] then ReadByte
    else if s.wire != [] then Refill(RX_SIZE)
    else if s.worker.Writing? then
      if s.worker.written < |s.worker.data| then BulkWrite(Taken(|s.worker.data|)) else FinishWrite
    else TakeFromChannel
  }

  lemma NextMoveStaysOpen(s: State)
    requires Open(s)
    ensures var t := Step(s, NextMove(s));
            && Open(t) && Bounded(NextMove(s))
            && t.accepted == s.accepted && t.taken == s.taken && t.fates == s.fates
  {
  }

  function Busy(s: State): nat {
    if s.worker.Writing? then 1 else 0
  }

  // Nearer to the state in which nothing is left to move.
  predicate Nearer(t: State, s: State) {
    || |t.channel| < |s.channel|
    || (|t.channel| == |s.channel| &&
        (|| Busy(t) < Busy(s)
         || (Busy(t) == Busy(s) &&
             (|| |Unsent(t.worker)| < |Unsent(s.worker)|
              || (|Unsent(t.worker)| == |Unsent(s.worker)| &&
                  (|t.wire| < |s.wire| || (|t.wire| == |s.wire| && |t.rx| < |s.rx|)))))))
  }

  lemma NextMoveMakesProgress(s: State)
    requires Open(s) && !Drained(s) && s.reader.Reading?
    requires s.worker.Writing? ==> s.worker.written <= |s.worker.data|
    ensures Nearer(Step(s, NextMove(s)), s)
  {
  }

  // The transport goes on from where the events have led until it is empty.
  lemma {:induction false} DrainFrom(s: State, events: seq<Event>, t: State, stale: seq<byte>)
    returns (more: seq<Event>)
    requires t == Run(s, events) && Open(t)
    requires Harmless(stale) && FlowInv(t, stale) && SizesInv(t)
    ensures var u := Run(s, more);
            Drained(u) && FlowInv(u, stale) && SizesInv(u) && u.accepted == t.accepted
    decreases |t.channel|, Busy(t), |Unsent(t.worker)|, |t.wire|, |t.rx|
  {
    more := events;
    if !Drained(t) {
      var e := NextMove(t);
      DeliveredInOrder(t, stale);
      NextMoveStaysOpen(t);
      NextMoveMakesProgress(t);
      StepKeepsFlow(t, e, stale);
      StepKeepsSizes(t, e);
      RunSnoc(s, events, e);
      more := DrainFrom(s, events + [e], Step(t, e), stale);
    }
  }

  lemma DrainedIsEmpty(s: State)
    requires Drained(s)
    ensures InFlight(s) == []
  {
  }

  // The events bring everything accepted in s to the client, and accept nothing new.
  ghost predicate Delivers(s: State, stale: seq<byte>, more: seq<Event>) {
    var t := Run(s, more);
    t.accepted == s.accepted && t.returned == Readable(stale, s.accepted)
  }

  // From every reachable state in which the stream is open, the transport alone can
  // bring every accepted packet to the client.
  lemma CanAlwaysDeliver(stale: seq<byte>, events: seq<Event>, s: State)
    requires Harmless(stale) && forall e <- events :: Bounded(e)
    requires s == Run(Init(stale), events) && Open(s)
    ensures exists more :: Delivers(s, stale, more)
  {
    RunKeepsFlow(stale, events);
    RunKeepsSizes(stale, events);
    var more := DrainFrom(s, [], s, stale);
    DrainedIsEmpty(Run(s, more));
    DeliveredInOrder(Run(s, more), stale);
    assert Delivers(s, stale, more);
  }

  // ----- a dropped frame and its successor -----

  const KEYFRAME := VideoFrame(true, [0])
  const DELTA := VideoFrame(false, [1])

  const NEXT := TakeFrame(DELTA)

  function Greetings(ack: seq<byte>, config: seq<byte>): seq<Event> {
    [Greet(ack)] + [Greet(config)]
  }

  // The greeting, a keyframe and n frames that each refer to the one before.
  function Filling(ack: seq<byte>, config: seq<byte>, n: nat): seq<Event> {
    if n == 0 then Greetings(ack, config) + [TakeFrame(KEYFRAME)] else Filling(ack, config, n - 1) + [NEXT]
  }

  ghost predicate Greeted(s: State) {
    && s.loop.Serving? && s.worker.Idle? && !s.closed && |s.channel| == 2 && s.taken == [] && s.fates == []
  }

  ghost predicate Filled(s: State, n: nat) {
    && s.loop.Serving? && s.worker.Idle? && !s.closed
    && |s.channel| == n + 3 && |s.taken| == n + 1 == |s.fates|
    && s.taken[0].isKeyframe && s.fates[0].Queued?
  }

  lemma GreetingTwice(s: State, ack: seq<byte>, config: seq<byte>)
    requires s.loop.SendingAck? && s.worker.Idle? && !s.closed && s.channel == [] && s.taken == [] && s.fates == []
    ensures Greeted(Step(Step(s, Greet(ack)), Greet(config)))
  {
  }

  // The session loop takes frames only while it is at its select!.
  ghost predicate TakesServing(s: State, events: seq<Event>) {
    events == [] ||
    var n := |events| - 1;
    TakesServing(s, events[..n]) && (events[n].TakeFrame? ==> Run(s, events[..n]).loop.Serving?)
  }

  lemma TakesServingSnoc(s: State, events: seq<Event>, e: Event)
    requires TakesServing(s, events) && (e.TakeFrame? ==> Run(s, events).loop.Serving?)
    ensures TakesServing(s, events + [e])
  {
    DropFront(events, [e]);
  }

  lemma Greets(s: State, ack: seq<byte>, config: seq<byte>)
    requires s == Init([])
    ensures Greeted(Run(s, Greetings(ack, config))) && TakesServing(s, Greetings(ack, config))
  {
    Unit([Greet(ack)]);
    RunSnoc(s, [], Greet(ack));
    RunSnoc(s, [Greet(ack)], Greet(config));
    TakesServingSnoc(s, [], Greet(ack));
    TakesServingSnoc(s, [Greet(ack)], Greet(config));
    GreetingTwice(s, ack, config);
  }

  lemma FirstFrame(s: State)
    requires Greeted(s)
    ensures Filled(Step(s, TakeFrame(KEYFRAME)), 0)
  {
  }

  lemma FillOne(s: State, n: nat)
    requires Filled(s, n) && n < CHANNEL_SIZE - 3
    ensures Filled(Step(s, NEXT), n + 1)
  {
  }

  ghost predicate FilledBy(s: State, events: seq<Event>, n: nat) {
    Filled(Run(s, events), n) && TakesServing(s, events)
  }

  lemma FirstFilling(s: State, ack: seq<byte>, config: seq<byte>)
    requires s == Init([])
    ensures FilledBy(s, Greetings(ack, config) + [TakeFrame(KEYFRAME)], 0)
  {
    var before := Greetings(ack, config);
    Greets(s, ack, config);
    RunSnoc(s, before, TakeFrame(KEYFRAME));
    TakesServingSnoc(s, before, TakeFrame(KEYFRAME));
    FirstFrame(Run(s, before));
  }

  lemma MoreFilling(s: State, before: seq<Event>, n: nat)
    requires FilledBy(s, before, n) && n < CHANNEL_SIZE - 3
    ensures FilledBy(s, before + [NEXT], n + 1)
  {
    RunSnoc(s, before, NEXT);
    TakesServingSnoc(s, before, NEXT);
    FillOne(Run(s, before), n);
  }

  lemma {:induction false} FillingFillsTheChannel(s: State, ack: seq<byte>, config: seq<byte>, n: nat)
    requires s == Init([]) && n <= CHANNEL_SIZE - 3
    ensures FilledBy(s, Filling(ack, config, n), n)
  {
    if n == 0 {
      FirstFilling(s, ack, config);
    } else {
      FillingFillsTheChannel(s, ack, config, n - 1);
      MoreFilling(s, Filling(ack, config, n - 1), n - 1);
    }
  }

  // None of the events is a step of the client, and all payloads are within bounds.
  ghost predicate HostSide(events: seq<Event>) {
    forall e <- events :: Bounded(e) && !e.Refill? && !e.ReadByte?
  }

  predicate SmallBodies(ack: seq<byte>, config: seq<byte>) {
    |ack| <= MAX_PAYLOAD_SIZE && |config| <= MAX_PAYLOAD_SIZE
  }

  lemma {:induction false} FillingIsHostSide(ack: seq<byte>, config: seq<byte>, n: nat)
    requires SmallBodies(ack, config)
    ensures HostSide(Filling(ack, config, n))
  {
    if n > 0 {
      FillingIsHostSide(ack, config, n - 1);
    }
  }

  // The last frame taken is a queued P-frame, the one before it was dropped, and
  // the first one was a keyframe.
  ghost predicate DroppedReference(s: State) {
    var n := |s.fates|;
    && n >= 3 && |s.taken| == n
    && s.taken[0].isKeyframe && s.fates[0].Queued?
    && s.fates[n - 2].Dropped? && s.fates[n - 1].Queued? && !s.taken[n - 1].isKeyframe
  }

  ghost predicate Reaches(init: State, events: seq<Event>) {
    && HostSide(events) && TakesServing(init, events)
    && Open(Run(init, events)) && DroppedReference(Run(init, events))
  }

  lemma DropThenQueue(s: State)
    requires Filled(s, CHANNEL_SIZE - 3)
    ensures var t := Step(Step(Step(s, NEXT), TakeFromChannel), NEXT);
            && Open(t) && DroppedReference(t)
            && s.loop.Serving? && Step(Step(s, NEXT), TakeFromChannel).loop.Serving?
  {
    var s1 := Step(s, NEXT);
    assert s1.fates == s.fates + [Dropped] && s1.channel == s.channel && s1.loop.Serving? && s1.worker.Idle?;
    var s2 := Step(s1, TakeFromChannel);
    assert s2.fates == s1.fates && s2.loop.Serving? && s2.worker.Writing? && |s2.channel| < CHANNEL_SIZE;
  }

  lemma PathToDroppedReference(init: State, ack: seq<byte>, config: seq<byte>) returns (events: seq<Event>)
    requires init == Init([]) && SmallBodies(ack, config)
    ensures Reaches(init, events)
  {
    var n := CHANNEL_SIZE - 3;
    FillingFillsTheChannel(init, ack, config, n);
    FillingIsHostSide(ack, config, n);
    events := Filling(ack, config, n);
    DropThenQueue(Run(init, events));
    var one := events + [NEXT];
    var two := one + [TakeFromChannel];
    RunSnoc(init, events, NEXT);
    RunSnoc(init, one, TakeFromChannel);
    RunSnoc(init, two, NEXT);
    TakesServingSnoc(init, events, NEXT);
    TakesServingSnoc(init, one, TakeFromChannel);
    TakesServingSnoc(init, two, NEXT);
    events := two + [NEXT];
  }

  // The session loop does not look at keyframes: there is a run in which it drops a
  // P-frame on the full channel and then queues the P-frame that refers to it, whatever
  // the bodies of the greeting.
  lemma DroppedReferenceIsReachable(init: State, ack: seq<byte>, config: seq<byte>)
    requires init == Init([]) && SmallBodies(ack, config)
    ensures exists events :: Reaches(init, events)
  {
    var events := PathToDroppedReference(init, ack, config);
  }
}
