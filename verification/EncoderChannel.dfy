// The bounded channel between the encoder's callback and the session loop. The
// callback drops a frame on a full channel, and a display recovery replaces the
// channel with whatever it holds.
module EncoderChannel {
  import opened Seqs
  import opened VideoFrames

  const FRAME_CHANNEL_SIZE: nat := 16

  // What has become of a frame the encoder produced; a received frame is the i-th
  // the session loop took.
  datatype Life = Overflowed | InChannel | Abandoned | Received(i: nat)

  // Frames are named by their position among all frames produced.
  datatype State = State(produced: seq<VideoFrame>, lives: seq<Life>, waiting: seq<nat>, received: seq<nat>)

  datatype Event = Produce(frame: VideoFrame) | Receive | Replace

  function Init(): State {
    State([], [], [], [])
  }

  predicate CanReceive(s: State) {
    s.waiting != [] && s.waiting[0] < |s.produced| == |s.lives|
  }

  function Step(s: State, e: Event): State {
    match e
    case Produce(frame) => OnProduce(s, frame)
    case Receive => if CanReceive(s) then OnReceive(s) else s
    case Replace => s.(lives := Leave(s.lives), waiting := [])
  }

  // try_send: a full channel drops the frame.
  function OnProduce(s: State, frame: VideoFrame): State {
    var t := s.(produced := s.produced + [frame]);
    if |s.waiting| < FRAME_CHANNEL_SIZE then
      t.(lives := s.lives + [InChannel], waiting := s.waiting + [|s.produced|])
    else
      t.(lives := s.lives + [Overflowed])
  }

  function OnReceive(s: State): State
    requires CanReceive(s)
  {
    s.(lives := s.lives[s.waiting[0] := Received(|s.received|)],
       waiting := s.waiting[1..], received := s.received + [s.waiting[0]])
  }

  function Leave(lives: seq<Life>): seq<Life> {
    seq(|lives|, m requires 0 <= m < |lives| => if lives[m].InChannel? then Abandoned else lives[m])
  }

  function Run(s: State, events: seq<Event>): State {
    if events == [] then s else Step(Run(s, events[..|events| - 1]), events[|events| - 1])
  }

  // ----- order -----

  // Strictly increasing positions below n.
  ghost predicate Rising(line: seq<nat>, n: int)
    decreases |line|
  {
    line == [] || (line[|line| - 1] < n && Rising(line[..|line| - 1], line[|line| - 1]))
  }

  lemma {:induction false} RisingAt(line: seq<nat>, n: int, j: nat)
    requires Rising(line, n) && j < |line|
    ensures line[j] < n
    decreases |line|
  {
    var m := |line| - 1;
    if j < m {
      RisingAt(line[..m], line[m], j);
    }
  }

  lemma {:induction false} RisingOrder(line: seq<nat>, n: int, j: nat, k: nat)
    requires Rising(line, n) && j < k < |line|
    ensures line[j] < line[k]
    decreases |line|
  {
    var m := |line| - 1;
    if k < m {
      RisingOrder(line[..m], line[m], j, k);
    } else {
      RisingAt(line[..m], line[m], j);
    }
  }

  lemma {:induction false} RisingFront(line: seq<nat>, tail: seq<nat>, n: int)
    requires Rising(line + tail, n)
    ensures Rising(line, n)
    decreases |tail|
  {
    if tail == [] {
      Unit(line);
    } else {
      LastOfSum(line, tail);
      RisingFront(line, tail[..|tail| - 1], tail[|tail| - 1]);
      RisingLoosens(line, tail[|tail| - 1], n);
    }
  }

  lemma RisingLoosens(line: seq<nat>, n: int, m: int)
    requires Rising(line, n) && n <= m
    ensures Rising(line, m)
  {
  }

  lemma RisingGrows(line: seq<nat>, n: nat)
    requires Rising(line, n)
    ensures Rising(line + [n], n + 1)
  {
    DropFront(line, [n]);
  }

  // ----- the invariant -----

  ghost predicate OrderInv(s: State) {
    && |s.lives| == |s.produced|
    && |s.waiting| <= FRAME_CHANNEL_SIZE
    && Rising(s.received + s.waiting, |s.produced|)
  }

  ghost predicate ReceivedInv(s: State) {
    && (forall i | 0 <= i < |s.received| :: s.received[i] < |s.lives| && s.lives[s.received[i]] == Received(i))
    && (forall m | 0 <= m < |s.lives| :: s.lives[m].Received? ==>
          s.lives[m].i < |s.received| && s.received[s.lives[m].i] == m)
  }

  ghost predicate WaitingInv(s: State) {
    && (forall j | 0 <= j < |s.waiting| :: s.waiting[j] < |s.lives| && s.lives[s.waiting[j]] == InChannel)
    && (forall m | 0 <= m < |s.lives| :: s.lives[m].InChannel? ==> m in s.waiting)
  }

  ghost predicate Inv(s: State) {
    OrderInv(s) && ReceivedInv(s) && WaitingInv(s)
  }

  lemma ProduceKeepsOrder(s: State, frame: VideoFrame)
    requires OrderInv(s)
    ensures OrderInv(OnProduce(s, frame))
  {
    RisingLoosens(s.received + s.waiting, |s.produced|, |s.produced| + 1);
    if |s.waiting| < FRAME_CHANNEL_SIZE {
      RisingGrows(s.received + s.waiting, |s.produced|);
      Assoc(s.received, s.waiting, [|s.produced|]);
    }
  }

  lemma ProduceKeepsReceived(s: State, frame: VideoFrame)
    requires ReceivedInv(s) && |s.lives| == |s.produced|
    ensures ReceivedInv(OnProduce(s, frame))
  {
  }

  lemma ProduceKeepsWaiting(s: State, frame: VideoFrame)
    requires WaitingInv(s) && |s.lives| == |s.produced|
    ensures WaitingInv(OnProduce(s, frame))
  {
  }

  lemma ProduceKeepsInv(s: State, frame: VideoFrame)
    requires Inv(s)
    ensures Inv(OnProduce(s, frame))
  {
    ProduceKeepsOrder(s, frame);
    ProduceKeepsReceived(s, frame);
    ProduceKeepsWaiting(s, frame);
  }

  lemma ReceiveKeepsOrder(s: State)
    requires OrderInv(s) && CanReceive(s)
    ensures OrderInv(OnReceive(s))
  {
    HeadTail(s.waiting);
    Assoc(s.received, [s.waiting[0]], s.waiting[1..]);
  }

  lemma HeadIsFirst(s: State, j: nat)
    requires OrderInv(s) && 0 < j < |s.waiting|
    ensures s.waiting[0] < s.waiting[j]
  {
    RisingOrder(s.received + s.waiting, |s.produced|, |s.received|, |s.received| + j);
  }

  lemma ReceiveKeepsInv(s: State)
    requires Inv(s) && CanReceive(s)
    ensures Inv(OnReceive(s))
  {
    ReceiveKeepsOrder(s);
    forall j | 0 < j < |s.waiting| ensures s.waiting[0] < s.waiting[j] {
      HeadIsFirst(s, j);
    }
    var t := OnReceive(s);
    forall m | 0 <= m < |t.lives| && t.lives[m].InChannel? ensures m in t.waiting {
      var j :| 0 <= j < |s.waiting| && s.waiting[j] == m;
      assert t.waiting[j - 1] == m;
    }
  }

  lemma ReplaceKeepsInv(s: State)
    requires Inv(s)
    ensures Inv(Step(s, Replace))
  {
    RisingFront(s.received, s.waiting, |s.produced|);
    Unit(s.received);
  }

  lemma StepKeepsInv(s: State, e: Event)
    requires Inv(s)
    ensures Inv(Step(s, e))
  {
    match e
    case Produce(frame) => ProduceKeepsInv(s, frame);
    case Receive =>
      if CanReceive(s) {
        ReceiveKeepsInv(s);
      }
    case Replace => ReplaceKeepsInv(s);
  }

  lemma {:induction false} RunKeepsInv(events: seq<Event>)
    ensures Inv(Run(Init(), events))
  {
    if events != [] {
      var n := |events| - 1;
      RunKeepsInv(events[..n]);
      StepKeepsInv(Run(Init(), events[..n]), events[n]);
    }
  }

  // ----- what the session loop can rely on -----

  lemma ReceivedOrder(s: State, i: nat, j: nat)
    requires Inv(s) && i < j < |s.received|
    ensures s.received[i] < s.received[j]
  {
    RisingFront(s.received, s.waiting, |s.produced|);
    RisingOrder(s.received, |s.produced|, i, j);
  }

  // A frame produced before a received one has been received too, unless it was
  // dropped on the full channel or left behind in a replaced one.
  lemma EarlierIsReceived(s: State, m: nat, i: nat)
    requires Inv(s) && i < |s.received| && m < s.received[i]
    ensures m < |s.lives|
    ensures s.lives[m].Received? <==> !s.lives[m].Overflowed? && !s.lives[m].Abandoned?
    ensures s.lives[m].Received? ==> s.lives[m].i < i
  {
    RisingAt(s.received + s.waiting, |s.produced|, i);
    if s.lives[m].InChannel? {
      var j :| 0 <= j < |s.waiting| && s.waiting[j] == m;
      RisingOrder(s.received + s.waiting, |s.produced|, i, |s.received| + j);
      assert false;
    }
    if s.lives[m].Received? && i < s.lives[m].i {
      ReceivedOrder(s, i, s.lives[m].i);
    }
  }

  // Frames come out of the channel in the order they were produced, each once, and a
  // frame is dropped exactly when it meets a full channel.
  lemma FramesComeOutInOrder(events: seq<Event>, s: State, frame: VideoFrame, i: nat, j: nat)
    requires s == Run(Init(), events) && i < j < |s.received|
    ensures s.received[i] < s.received[j] < |s.produced| == |s.lives| && |s.waiting| <= FRAME_CHANNEL_SIZE
    ensures s.lives[s.received[j]] == Received(j)
    ensures var t := Step(s, Produce(frame));
            && t.produced == s.produced + [frame] && |t.lives| == |t.produced|
            && (t.lives[|s.produced|].Overflowed? <==> |s.waiting| == FRAME_CHANNEL_SIZE)
  {
    RunKeepsInv(events);
    StepKeepsInv(s, Produce(frame));
    ReceivedOrder(s, i, j);
  }

  // ----- frames that never come out -----

  predicate Lost(life: Life) {
    life.Overflowed? || life.Abandoned?
  }

  lemma LostStepStays(s: State, e: Event, m: nat)
    requires Inv(s) && m < |s.lives| && Lost(s.lives[m])
    ensures m < |Step(s, e).lives| && Step(s, e).lives[m] == s.lives[m]
  {
    if e.Receive? && CanReceive(s) {
      assert s.lives[s.waiting[0]] == InChannel;
    }
  }

  lemma {:induction false} LostStays(s: State, more: seq<Event>, m: nat)
    requires Inv(s) && m < |s.lives| && Lost(s.lives[m])
    ensures var t := Run(s, more);
            Inv(t) && m < |t.lives| && t.lives[m] == s.lives[m] && m !in t.received
  {
    if more != [] {
      var n := |more| - 1;
      LostStays(s, more[..n], m);
      LostStepStays(Run(s, more[..n]), more[n], m);
      StepKeepsInv(Run(s, more[..n]), more[n]);
    }
  }

  // A recovery leaves behind exactly the frames that wait, and whatever happens after it
  // none of them is ever received.
  lemma ReplaceAbandonsWaiting(events: seq<Event>, s: State, more: seq<Event>, m: nat)
    requires s == Run(Init(), events) && m < |s.produced|
    ensures m < |s.lives|
    ensures var t := Step(s, Replace);
            && t.waiting == [] && t.received == s.received && t.produced == s.produced
            && |t.lives| == |s.lives|
            && (s.lives[m].InChannel? <==> m in s.waiting)
            && t.lives[m] == (if m in s.waiting then Abandoned else s.lives[m])
            && (m in s.waiting ==> m !in Run(t, more).received)
  {
    RunKeepsInv(events);
    StepKeepsInv(s, Replace);
    if m in s.waiting {
      var j :| 0 <= j < |s.waiting| && s.waiting[j] == m;
      assert s.lives[s.waiting[j]] == InChannel;
      LostStays(Step(s, Replace), more, m);
    }
  }

  // A frame that met a full channel never comes out either.
  lemma OverflowedNeverComesOut(events: seq<Event>, s: State, frame: VideoFrame, more: seq<Event>)
    requires s == Run(Init(), events) && |s.waiting| == FRAME_CHANNEL_SIZE
    ensures |s.produced| !in Run(Step(s, Produce(frame)), more).received
  {
    RunKeepsInv(events);
    StepKeepsInv(s, Produce(frame));
    LostStays(Step(s, Produce(frame)), more, |s.produced|);
  }

  lemma OneComesOut(s: State)
    requires Inv(s) && s.waiting != []
    ensures var t := Step(s, Receive);
            && Inv(t) && t.received == s.received + [s.waiting[0]] && t.waiting == s.waiting[1..]
            && t.produced == s.produced
  {
    assert s.lives[s.waiting[0]] == InChannel;
    ReceiveKeepsInv(s);
  }

  // t is s with the first n waiting frames received.
  ghost predicate HasReceived(s: State, t: State, n: nat) {
    && n <= |s.waiting| && Inv(t) && t.produced == s.produced
    && t.received == s.received + s.waiting[..n] && t.waiting == s.waiting[n..]
  }

  lemma OneMoreComesOut(s: State, t: State, n: nat)
    requires HasReceived(s, t, n) && n < |s.waiting|
    ensures HasReceived(s, Step(t, Receive), n + 1)
  {
    TailAt(s.waiting, n);
    Assoc(s.received, s.waiting[..n], [s.waiting[n]]);
    OneComesOut(t);
  }

  lemma RunSnoc(s: State, events: seq<Event>, e: Event)
    ensures Run(s, events + [e]) == Step(Run(s, events), e)
  {
    DropFront(events, [e]);
  }

  lemma NoneHasComeOut(s: State)
    requires Inv(s)
    ensures HasReceived(s, s, 0)
  {
    Unit(s.received);
  }

  // A frame that met room waits behind those before it, and comes out after as many
  // receives, unless a recovery comes first.
  lemma {:induction false} WaitingComesOut(s: State, n: nat)
    requires Inv(s) && n <= |s.waiting|
    ensures HasReceived(s, Run(s, Receives(n)), n)
  {
    if n == 0 {
      NoneHasComeOut(s);
    } else {
      var before := Receives(n - 1);
      WaitingComesOut(s, n - 1);
      RunSnoc(s, before, Receive);
      OneMoreComesOut(s, Run(s, before), n - 1);
    }
  }

  function Receives(n: nat): seq<Event> {
    if n == 0 then [] else Receives(n - 1) + [Receive]
  }
}
