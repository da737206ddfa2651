// The client's frame buffer: a bounded queue that drops P-frames until the next
// keyframe once it has overflowed. offer() is several steps, and the decoder may
// poll between any two of them.
module FrameRing {
  import opened Wrappers
  import opened Bytes
  import opened Seqs

  datatype Frame = Frame(sequence: i32, flags: i16, data: seq<byte>)

  // flags.toInt() and FLAG_KEYFRAME: the low bit, also of a negative Short.
  predicate IsKeyframe(f: Frame) {
    f.flags % 2 == 1
  }

  // Where the one producer is inside offer(); i is the frame's position among all
  // frames offered.
  datatype Producer = Ready | Admitted(i: nat) | Clearing(i: nat) | Enqueuing(i: nat)

  // Frames are named by their position in offered; each ends up in one of the
  // sequences below.
  datatype Ring = Ring(
    capacity: nat,
    offered: seq<Frame>,
    queue: seq<nat>,
    dropping: bool,
    producer: Producer,
    polled: seq<nat>,
    rejected: seq<nat>,   // refused by the drop-until-keyframe rule
    cleared: seq<nat>,    // removed to make room for a keyframe
    failed: seq<nat>)     // refused by the final queue.offer

  datatype Event = BeginOffer(frame: Frame) | Advance | Poll

  function Init(capacity: nat): Ring {
    Ring(capacity, [], [], false, Ready, [], [], [], [])
  }

  predicate Key(r: Ring, i: nat) {
    i < |r.offered| && IsKeyframe(r.offered[i])
  }

  function Step(r: Ring, e: Event): Ring {
    match e
    case BeginOffer(frame) => if r.producer.Ready? then Begin(r, frame) else r
    case Advance => Next(r)
    case Poll => if r.queue != [] then r.(polled := r.polled + [r.queue[0]], queue := r.queue[1..]) else r
  }

  // The keyframe and dropping tests at the top of offer().
  function Begin(r: Ring, frame: Frame): Ring {
    var i := |r.offered|;
    var r := r.(offered := r.offered + [frame]);
    if IsKeyframe(frame) then r.(dropping := false, producer := Admitted(i))
    else if r.dropping then r.(rejected := r.rejected + [i])
    else r.(producer := Admitted(i))
  }

  function Next(r: Ring): Ring {
    match r.producer
    case Ready => r
    case Admitted(i) =>
      if |r.queue| >= r.capacity then
        if Key(r, i) then r.(producer := Clearing(i))
        else r.(dropping := true, rejected := r.rejected + [i], producer := Ready)
      else r.(producer := Enqueuing(i))
    case Clearing(i) => r.(cleared := r.cleared + r.queue, queue := [], producer := Enqueuing(i))
    case Enqueuing(i) =>
      if |r.queue| < r.capacity then r.(queue := r.queue + [i], producer := Ready)
      else r.(failed := r.failed + [i], producer := Ready)
  }

  function Run(r: Ring, events: seq<Event>): Ring {
    if events == [] then r else Step(Run(r, events[..|events| - 1]), events[|events| - 1])
  }

  // ----- order: the reference-frame guarantee -----

  // The frames that have passed the queue, oldest first.
  function Line(r: Ring): seq<nat> {
    r.polled + r.queue
  }

  // Positions below n, strictly increasing, and a P-frame (but the very first frame)
  // only directly after the frame offered just before it.
  ghost predicate Ordered(line: seq<nat>, offered: seq<Frame>, n: int)
    decreases |line|
  {
    line == [] ||
    var m := |line| - 1;
    var last := line[m];
    && last < n && last < |offered|
    && (last == 0 || IsKeyframe(offered[last]) || (m > 0 && line[m - 1] == last - 1))
    && Ordered(line[..m], offered, last)
  }

  ghost predicate EndsAt(line: seq<nat>, i: int) {
    i >= 0 ==> line != [] && line[|line| - 1] == i
  }

  function Pending(r: Ring): seq<nat> {
    if r.producer.Ready? then [] else [r.producer.i]
  }

  ghost predicate OrderInv(r: Ring) {
    && Ordered(Line(r), r.offered, |r.offered| - |Pending(r)|)
    && |r.queue| <= r.capacity
    && (!r.producer.Ready? ==> r.producer.i + 1 == |r.offered|)
    && match r.producer
       case Ready => !r.dropping ==> EndsAt(Line(r), |r.offered| - 1)
       case Admitted(i) => !r.dropping && (!Key(r, i) ==> EndsAt(Line(r), i - 1))
       case Clearing(i) => !r.dropping && Key(r, i)
       case Enqueuing(i) => !r.dropping && |r.queue| < r.capacity && (!Key(r, i) ==> EndsAt(Line(r), i - 1))
  }

  lemma LineGrows(line: seq<nat>, offered: seq<Frame>, i: nat)
    requires Ordered(line, offered, i) && i < |offered|
    requires !IsKeyframe(offered[i]) ==> EndsAt(line, i - 1)
    ensures Ordered(line + [i], offered, i + 1) && EndsAt(line + [i], i)
  {
    DropFront(line, [i]);
  }

  lemma LineLoosens(line: seq<nat>, offered: seq<Frame>, n: int, m: int)
    requires Ordered(line, offered, n) && n <= m
    ensures Ordered(line, offered, m)
  {
  }

  lemma {:induction false} LineShortens(line: seq<nat>, tail: seq<nat>, offered: seq<Frame>, n: int)
    requires Ordered(line + tail, offered, n)
    ensures Ordered(line, offered, n)
    decreases |tail|
  {
    if tail == [] {
      Unit(line);
    } else {
      var m := |tail| - 1;
      var last := (line + tail)[|line| + m];
      assert (line + tail)[..|line| + m] == line + tail[..m];
      LineShortens(line, tail[..m], offered, last);
      LineLoosens(line, offered, last, n);
    }
  }

  lemma {:induction false} OfferedGrows(line: seq<nat>, offered: seq<Frame>, f: Frame, n: int)
    requires Ordered(line, offered, n)
    ensures Ordered(line, offered + [f], n)
    decreases |line|
  {
    if line != [] {
      var m := |line| - 1;
      OfferedGrows(line[..m], offered, f, line[m]);
      assert (offered + [f])[line[m]] == offered[line[m]];
    }
  }

  // What Ordered says of one place in the line.
  lemma {:induction false} OrderedAt(line: seq<nat>, offered: seq<Frame>, n: int, k: nat)
    requires Ordered(line, offered, n) && k < |line|
    ensures line[k] < n && line[k] < |offered|
    ensures line[k] > 0 && !IsKeyframe(offered[line[k]]) ==> k > 0 && line[k - 1] == line[k] - 1
    decreases |line|
  {
    var m := |line| - 1;
    if k < m {
      OrderedAt(line[..m], offered, line[m], k);
    }
  }

  lemma OrderedIncreases(line: seq<nat>, offered: seq<Frame>, n: int, j: nat, k: nat)
    requires Ordered(line, offered, n) && j < k < |line|
    ensures line[j] < line[k]
    decreases |line|
  {
    var m := |line| - 1;
    if k < m {
      OrderedIncreases(line[..m], offered, line[m], j, k);
    } else {
      OrderedAt(line[..m], offered, line[m], j);
    }
  }

  lemma PollKeepsLine(r: Ring)
    requires r.queue != []
    ensures Line(Step(r, Poll)) == Line(r)
  {
    HeadTail(r.queue);
    Assoc(r.polled, [r.queue[0]], r.queue[1..]);
  }

  lemma BeginKeepsOrder(r: Ring, frame: Frame)
    requires OrderInv(r) && r.producer.Ready?
    ensures OrderInv(Begin(r, frame))
  {
    OfferedGrows(Line(r), r.offered, frame, |r.offered|);
    LineLoosens(Line(r), r.offered + [frame], |r.offered|, |r.offered| + 1);
    assert Line(Begin(r, frame)) == Line(r);
  }

  lemma PollKeepsOrder(r: Ring)
    requires OrderInv(r)
    ensures OrderInv(Step(r, Poll))
  {
    if r.queue != [] {
      PollKeepsLine(r);
    }
  }

  lemma ClearKeepsOrder(r: Ring)
    requires r.capacity >= 1 && OrderInv(r) && r.producer.Clearing?
    ensures OrderInv(Next(r))
  {
    var t := Next(r);
    LineShortens(r.polled, r.queue, r.offered, |r.offered| - 1);
    Unit(r.polled);
    assert Line(t) == r.polled && Pending(t) == Pending(r) && t.offered == r.offered;
    assert Key(t, t.producer.i);
  }

  lemma EnqueueKeepsOrder(r: Ring)
    requires OrderInv(r) && r.producer.Enqueuing?
    ensures OrderInv(Next(r))
  {
    LineGrows(Line(r), r.offered, r.producer.i);
    Assoc(r.polled, r.queue, [r.producer.i]);
  }

  lemma OrderStep(r: Ring, e: Event)
    requires r.capacity >= 1 && OrderInv(r)
    ensures OrderInv(Step(r, e))
  {
    match e
    case BeginOffer(frame) =>
      if r.producer.Ready? {
        BeginKeepsOrder(r, frame);
      }
    case Poll => PollKeepsOrder(r);
    case Advance =>
      match r.producer
      case Ready =>
      case Admitted(_) =>
      case Clearing(_) => ClearKeepsOrder(r);
      case Enqueuing(_) => EnqueueKeepsOrder(r);
  }

  // ----- conservation -----

  function UpTo(n: nat): seq<nat> {
    if n == 0 then [] else UpTo(n - 1) + [n - 1]
  }

  // Everything that has happened to an offered frame, with how often.
  function Fates(polled: seq<nat>, queue: seq<nat>, rejected: seq<nat>, cleared: seq<nat>, pending: seq<nat>)
    : multiset<nat>
  {
    multiset(polled) + multiset(queue) + multiset(rejected) + multiset(cleared) + multiset(pending)
  }

  ghost predicate ConservationInv(r: Ring) {
    Fates(r.polled, r.queue, r.rejected, r.cleared, Pending(r)) == multiset(UpTo(|r.offered|))
  }

  ghost predicate KeyframesInv(r: Ring) {
    && (forall i <- r.rejected :: i < |r.offered| && !IsKeyframe(r.offered[i]))
    && r.failed == []
  }

  lemma FatesReject(p: seq<nat>, q: seq<nat>, j: seq<nat>, c: seq<nat>, i: nat)
    ensures Fates(p, q, j + [i], c, []) == Fates(p, q, j, c, [i])
  {
  }

  lemma FatesEnqueue(p: seq<nat>, q: seq<nat>, j: seq<nat>, c: seq<nat>, i: nat)
    ensures Fates(p, q + [i], j, c, []) == Fates(p, q, j, c, [i])
  {
  }

  lemma FatesClear(p: seq<nat>, q: seq<nat>, j: seq<nat>, c: seq<nat>, pending: seq<nat>)
    ensures Fates(p, [], j, c + q, pending) == Fates(p, q, j, c, pending)
  {
  }

  lemma FatesBegin(p: seq<nat>, q: seq<nat>, j: seq<nat>, c: seq<nat>, n: nat)
    requires Fates(p, q, j, c, []) == multiset(UpTo(n))
    ensures Fates(p, q, j, c, [n]) == multiset(UpTo(n + 1))
  {
    assert UpTo(n + 1) == UpTo(n) + [n];
  }

  lemma FatesPoll(p: seq<nat>, q: seq<nat>, j: seq<nat>, c: seq<nat>, pending: seq<nat>)
    requires q != []
    ensures Fates(p + [q[0]], q[1..], j, c, pending) == Fates(p, q, j, c, pending)
  {
    HeadTail(q);
  }

  lemma BeginConserves(r: Ring, frame: Frame)
    requires ConservationInv(r) && r.producer.Ready?
    ensures ConservationInv(Begin(r, frame))
  {
    var n, t := |r.offered|, Begin(r, frame);
    assert |t.offered| == n + 1;
    FatesBegin(r.polled, r.queue, r.rejected, r.cleared, n);
    if t.producer.Ready? {
      FatesReject(r.polled, r.queue, r.rejected, r.cleared, n);
      assert t.rejected == r.rejected + [n] && Pending(t) == [];
    } else {
      assert t.rejected == r.rejected && Pending(t) == [n];
    }
  }

  lemma AdvanceConserves(r: Ring)
    requires OrderInv(r) && ConservationInv(r)
    ensures ConservationInv(Next(r))
  {
    match r.producer
    case Ready =>
    case Admitted(i) => FatesReject(r.polled, r.queue, r.rejected, r.cleared, i);
    case Clearing(i) => FatesClear(r.polled, r.queue, r.rejected, r.cleared, [i]);
    case Enqueuing(i) => FatesEnqueue(r.polled, r.queue, r.rejected, r.cleared, i);
  }

  lemma ConservationStep(r: Ring, e: Event)
    requires OrderInv(r) && ConservationInv(r)
    ensures ConservationInv(Step(r, e))
  {
    match e
    case BeginOffer(frame) =>
      if r.producer.Ready? {
        BeginConserves(r, frame);
      }
    case Poll =>
      if r.queue != [] {
        FatesPoll(r.polled, r.queue, r.rejected, r.cleared, Pending(r));
      }
    case Advance => AdvanceConserves(r);
  }

  lemma BeginKeepsKeyframes(r: Ring, frame: Frame)
    requires OrderInv(r) && KeyframesInv(r)
    ensures KeyframesInv(Begin(r, frame))
  {
    var offered := r.offered + [frame];
    assert offered[|r.offered|] == frame;
    assert forall i <- r.rejected :: offered[i] == r.offered[i];
  }

  lemma KeyframesStep(r: Ring, e: Event)
    requires OrderInv(r) && KeyframesInv(r)
    ensures KeyframesInv(Step(r, e))
  {
    if e.BeginOffer? && r.producer.Ready? {
      BeginKeepsKeyframes(r, e.frame);
    }
  }

  ghost predicate Inv(r: Ring) {
    r.capacity >= 1 && OrderInv(r) && ConservationInv(r) && KeyframesInv(r)
  }

  lemma CapacityStep(r: Ring, e: Event)
    ensures Step(r, e).capacity == r.capacity
  {
  }

  lemma InvOfParts(r: Ring)
    requires r.capacity >= 1 && OrderInv(r) && ConservationInv(r) && KeyframesInv(r)
    ensures Inv(r)
  {
  }

  lemma StepKeepsInv(r: Ring, e: Event)
    requires Inv(r)
    ensures Inv(Step(r, e))
  {
    CapacityStep(r, e);
    OrderStep(r, e);
    ConservationStep(r, e);
    KeyframesStep(r, e);
    InvOfParts(Step(r, e));
  }

  lemma {:induction false} RunKeepsInv(capacity: nat, events: seq<Event>)
    requires capacity >= 1
    ensures Inv(Run(Init(capacity), events))
  {
    if events != [] {
      var n := |events| - 1;
      RunKeepsInv(capacity, events[..n]);
      StepKeepsInv(Run(Init(capacity), events[..n]), events[n]);
    }
  }

  // ----- what holds of every interleaving -----

  lemma PolledIsOrdered(r: Ring)
    requires OrderInv(r)
    ensures Ordered(r.polled, r.offered, |r.offered|)
  {
    LineShortens(r.polled, r.queue, r.offered, |r.offered| - |Pending(r)|);
    LineLoosens(r.polled, r.offered, |r.offered| - |Pending(r)|, |r.offered|);
  }

  // Reference continuity: every polled P-frame but the first frame offered comes
  // out directly after the frame that was offered directly before it.
  lemma ReferenceContinuity(capacity: nat, events: seq<Event>, r: Ring, k: nat)
    requires capacity >= 1 && r == Run(Init(capacity), events)
    requires k < |r.polled|
    ensures r.polled[k] < |r.offered|
    ensures r.polled[k] > 0 && !IsKeyframe(r.offered[r.polled[k]]) ==>
              k > 0 && r.polled[k - 1] == r.polled[k] - 1
  {
    RunKeepsInv(capacity, events);
    PolledIsOrdered(r);
    OrderedAt(r.polled, r.offered, |r.offered|, k);
  }

  // Frames come out in the order they were offered, none twice.
  lemma PolledInOrder(capacity: nat, events: seq<Event>, r: Ring, j: nat, k: nat)
    requires capacity >= 1 && r == Run(Init(capacity), events)
    requires j < k < |r.polled|
    ensures r.polled[j] < r.polled[k] < |r.offered|
  {
    ReferenceContinuity(capacity, events, r, k);
    RunKeepsInv(capacity, events);
    PolledIsOrdered(r);
    OrderedIncreases(r.polled, r.offered, |r.offered|, j, k);
  }

  lemma {:induction false} UpToHoldsEachOnce(n: nat, i: nat)
    ensures multiset(UpTo(n))[i] == if i < n then 1 else 0
  {
    if n > 0 {
      UpToHoldsEachOnce(n - 1, i);
    }
  }

  // Every offered frame is in exactly one place; the queue is bounded; only
  // P-frames are rejected, and the final queue.offer never fails.
  lemma FramesAreConserved(capacity: nat, events: seq<Event>, r: Ring, i: nat)
    requires capacity >= 1 && r == Run(Init(capacity), events) && i < |r.offered|
    ensures multiset(r.polled)[i] + multiset(r.queue)[i] + multiset(r.rejected)[i]
            + multiset(r.cleared)[i] + multiset(Pending(r))[i] == 1
    ensures |r.queue| <= capacity && r.failed == []
    ensures i in r.rejected ==> !IsKeyframe(r.offered[i])
  {
    RunKeepsInv(capacity, events);
    CapacityIsFixed(capacity, events);
    UpToHoldsEachOnce(|r.offered|, i);
    assert Fates(r.polled, r.queue, r.rejected, r.cleared, Pending(r))[i] == multiset(UpTo(|r.offered|))[i];
  }

  lemma {:induction false} CapacityIsFixed(capacity: nat, events: seq<Event>)
    ensures Run(Init(capacity), events).capacity == capacity
  {
    if events != [] {
      var n := |events| - 1;
      CapacityIsFixed(capacity, events[..n]);
      CapacityStep(Run(Init(capacity), events[..n]), events[n]);
    }
  }

  // ----- loss -----

  predicate NothingLost(r: Ring) {
    r.rejected == [] && r.cleared == [] && r.failed == []
  }

  // The steps that lose frames: a P-frame meets a full queue or a dropping buffer,
  // or a keyframe clears frames away.
  predicate Loses(r: Ring, e: Event) {
    match e
    case BeginOffer(frame) => r.producer.Ready? && r.dropping && !IsKeyframe(frame)
    case Advance =>
      (r.producer.Admitted? && |r.queue| >= r.capacity && !Key(r, r.producer.i))
      || (r.producer.Clearing? && r.queue != [])
    case Poll => false
  }

  ghost predicate NoStepLoses(r: Ring, events: seq<Event>) {
    events == [] ||
    var n := |events| - 1;
    NoStepLoses(r, events[..n]) && !Loses(Run(r, events[..n]), events[n])
  }

  // No capacity test of the run meets a full queue.
  ghost predicate NeverFull(r: Ring, events: seq<Event>) {
    events == [] ||
    var n := |events| - 1;
    var before := Run(r, events[..n]);
    && NeverFull(r, events[..n])
    && (events[n].Advance? && before.producer.Admitted? ==> |before.queue| < before.capacity)
  }

  // While nothing has been lost, all frames offered are there, in order.
  ghost predicate LossInv(r: Ring) {
    && |r.queue| <= r.capacity && (r.producer.Enqueuing? ==> |r.queue| < r.capacity)
    && (NothingLost(r) ==> !r.dropping && Line(r) + Pending(r) == UpTo(|r.offered|))
  }

  lemma UpToGrows(n: nat)
    ensures UpTo(n + 1) == UpTo(n) + [n]
  {
  }

  lemma BeginKeepsLoss(r: Ring, frame: Frame)
    requires LossInv(r) && r.producer.Ready?
    ensures LossInv(Begin(r, frame))
    ensures NothingLost(Begin(r, frame)) <==> NothingLost(r) && !Loses(r, BeginOffer(frame))
  {
    var t, n := Begin(r, frame), |r.offered|;
    UpToGrows(n);
    Unit(Line(r));
    Unit(r.rejected);
    assert Line(t) == Line(r);
    if r.dropping && !IsKeyframe(frame) {
      assert t.rejected == r.rejected + [n];
    } else {
      assert Pending(t) == [n];
    }
  }

  lemma EnqueueKeepsLoss(r: Ring)
    requires LossInv(r) && r.producer.Enqueuing?
    ensures LossInv(Next(r)) && (NothingLost(Next(r)) <==> NothingLost(r))
  {
    Assoc(r.polled, r.queue, [r.producer.i]);
    Unit(Line(Next(r)));
  }

  lemma ClearKeepsLoss(r: Ring)
    requires r.capacity >= 1 && LossInv(r) && r.producer.Clearing?
    ensures LossInv(Next(r))
    ensures NothingLost(Next(r)) <==> NothingLost(r) && r.queue == []
  {
    Unit(r.cleared);
  }

  lemma LossStep(r: Ring, e: Event)
    requires r.capacity >= 1 && LossInv(r)
    ensures LossInv(Step(r, e))
    ensures NothingLost(Step(r, e)) <==> NothingLost(r) && !Loses(r, e)
  {
    match e
    case BeginOffer(frame) =>
      if r.producer.Ready? {
        BeginKeepsLoss(r, frame);
      }
    case Poll =>
      if r.queue != [] {
        PollKeepsLine(r);
      }
    case Advance =>
      match r.producer
      case Ready =>
      case Admitted(_) =>
      case Clearing(_) => ClearKeepsLoss(r);
      case Enqueuing(_) => EnqueueKeepsLoss(r);
  }

  // The exact condition: frames are lost if and only if a P-frame is offered to a
  // dropping buffer or tested against a full queue, or a keyframe clears some away.
  // Until then every frame offered has been polled, is queued or is being offered, in
  // that order.
  lemma {:induction false} NothingLostIffNoStepLoses(capacity: nat, events: seq<Event>)
    requires capacity >= 1
    ensures var r := Run(Init(capacity), events);
            && LossInv(r)
            && (NothingLost(r) <==> NoStepLoses(Init(capacity), events))
            && (NothingLost(r) ==> (r.polled + r.queue) + Pending(r) == UpTo(|r.offered|))
  {
    if events != [] {
      var before := events[..|events| - 1];
      CapacityIsFixed(capacity, before);
      NothingLostIffNoStepLoses(capacity, before);
      LossStep(Run(Init(capacity), before), events[|events| - 1]);
    }
  }

  // A buffer whose queue no capacity test has found full has lost nothing: whatever
  // the interleaving, every frame offered so far is polled, queued or on its way in.
  lemma {:induction false} NothingLostWhileNeverFull(capacity: nat, events: seq<Event>)
    requires capacity >= 1 && NeverFull(Init(capacity), events)
    ensures var r := Run(Init(capacity), events);
            && NothingLost(r) && !r.dropping && !r.producer.Clearing?
            && (r.polled + r.queue) + Pending(r) == UpTo(|r.offered|)
  {
    NothingLostIffNoStepLoses(capacity, events);
    if events != [] {
      var before := events[..|events| - 1];
      NothingLostWhileNeverFull(capacity, before);
      CapacityIsFixed(capacity, before);
      NothingLostIffNoStepLoses(capacity, before);
      LossStep(Run(Init(capacity), before), events[|events| - 1]);
    }
  }

  // ----- the object -----

  function Polls(r: Ring, n: nat): Ring
    decreases n
  {
    if n == 0 then r else Polls(Step(r, Poll), n - 1)
  }

  // One offer() during which the decoder polls a times after the keyframe test and
  // b times after the capacity test.
  function Offered(r: Ring, frame: Frame, a: nat, b: nat): Ring
    requires r.producer.Ready?
  {
    var r := Begin(r, frame);
    if r.producer.Ready? then r
    else
      var r := Next(Polls(r, a));
      if r.producer.Ready? then r
      else
        var r := Polls(r, b);
        if r.producer.Clearing? then Next(Next(r)) else Next(r)
  }

  lemma RunSnoc(r: Ring, events: seq<Event>, e: Event)
    ensures Run(r, events + [e]) == Step(Run(r, events), e)
  {
    DropFront(events, [e]);
  }

  lemma {:induction false} PollsExtendRun(r: Ring, events: seq<Event>, n: nat) returns (more: seq<Event>)
    ensures Run(r, more) == Polls(Run(r, events), n)
    decreases n
  {
    more := events;
    if n > 0 {
      RunSnoc(r, events, Poll);
      more := PollsExtendRun(r, events + [Poll], n - 1);
    }
  }

  // A whole offer(), with its interleaved polls, extends a run of the steps above,
  // so all that holds of every run holds after any sequence of offers and polls.
  lemma OfferExtendsRun(r: Ring, events: seq<Event>, frame: Frame, a: nat, b: nat) returns (more: seq<Event>)
    requires Run(r, events).producer.Ready?
    ensures Run(r, more) == Offered(Run(r, events), frame, a, b)
  {
    RunSnoc(r, events, BeginOffer(frame));
    more := events + [BeginOffer(frame)];
    if !Run(r, more).producer.Ready? {
      more := PollsExtendRun(r, more, a);
      RunSnoc(r, more, Advance);
      more := more + [Advance];
      if !Run(r, more).producer.Ready? {
        more := PollsExtendRun(r, more, b);
        var clearing := Run(r, more).producer.Clearing?;
        RunSnoc(r, more, Advance);
        more := more + [Advance];
        if clearing {
          RunSnoc(r, more, Advance);
          more := more + [Advance];
        }
      }
    }
  }

  // An offer that is not interleaved with polls: keyframes always get in, clearing
  // a full queue; a P-frame gets in when nothing is being dropped and there is room.
  lemma UncontendedOffer(r: Ring, frame: Frame)
    requires Inv(r) && r.producer.Ready?
    ensures var t := Offered(r, frame, 0, 0);
            var full := |r.queue| == r.capacity;
            var i := |r.offered|;
            && t.polled == r.polled && t.offered == r.offered + [frame]
            && (IsKeyframe(frame) ==> !t.dropping && t.queue == (if full then [] else r.queue) + [i])
            && (!IsKeyframe(frame) && !r.dropping && !full ==> !t.dropping && t.queue == r.queue + [i])
            && (!IsKeyframe(frame) && (r.dropping || full) ==> t.dropping && t.queue == r.queue)
  {
    DropFront(r.offered, [frame]);
  }

  // The queue holds the frames that the model names by position.
  ghost predicate Names(queue: seq<Frame>, r: Ring) {
    && |queue| == |r.queue|
    && (forall k | 0 <= k < |queue| :: r.queue[k] < |r.offered| && queue[k] == r.offered[r.queue[k]])
  }

  class FrameRingBuffer {
    const maxCapacity: nat
    var queue: seq<Frame>
    var isDroppingUntilKeyframe: bool
    ghost var ring: Ring

    ghost predicate Matches()
      reads this
    {
      ring.capacity == maxCapacity && isDroppingUntilKeyframe == ring.dropping && Names(queue, ring)
    }

    ghost predicate Valid()
      reads this
    {
      Matches() && ring.producer.Ready?
    }

    constructor (maxCapacity: nat)
      requires maxCapacity >= 1
      ensures Valid() && ring == Init(maxCapacity)
    {
      this.maxCapacity := maxCapacity;
      queue, isDroppingUntilKeyframe := [], false;
      ring := Init(maxCapacity);
    }

    // Also what the decoder does while offer() is between two of its steps.
    method Poll() returns (frame: Option<Frame>)
      requires Matches()
      modifies this
      ensures Matches() && ring == Step(old(ring), Event.Poll)
      ensures frame == if old(ring.queue) == [] then None else Some(ring.offered[old(ring.queue)[0]])
    {
      frame := None;
      if queue != [] {
        frame := Some(queue[0]);
        queue := queue[1..];
      }
      ring := Step(ring, Event.Poll);
    }

    method PollTimes(n: nat)
      requires Matches()
      modifies this
      ensures Matches() && ring == Polls(old(ring), n)
      ensures ring == old(ring).(polled := ring.polled, queue := ring.queue)
    {
      var k := 0;
      while k < n
        invariant k <= n && Matches() && Polls(ring, n - k) == Polls(old(ring), n)
        invariant ring == old(ring).(polled := ring.polled, queue := ring.queue)
      {
        var frame := Poll();
        k := k + 1;
      }
    }

    // The capacity test of offer() and what it does about a full queue.
    method MakeRoom(frame: Frame, b: nat) returns (room: bool)
      requires Matches() && ring.producer.Admitted? && Key(ring, ring.producer.i) == IsKeyframe(frame)
      modifies this
      ensures Matches() && room == !Next(old(ring)).producer.Ready?
      ensures !room ==> ring == Next(old(ring))
      ensures room ==>
                var r := Polls(Next(old(ring)), b);
                ring == if r.producer.Clearing? then Next(r) else r
      ensures room ==> ring == old(ring).(polled := ring.polled, queue := ring.queue, cleared := ring.cleared,
                                          producer := Enqueuing(old(ring.producer.i)))
    {
      if |queue| >= maxCapacity {
        ring := Next(ring);
        if IsKeyframe(frame) {
          PollTimes(b);
          queue := [];
          ring := Next(ring);
        } else {
          isDroppingUntilKeyframe := true;
          return false;
        }
      } else {
        ring := Next(ring);
        PollTimes(b);
      }
      room := true;
    }

    method Offer(frame: Frame, a: nat, b: nat) returns (accepted: bool)
      requires Valid()
      modifies this
      ensures Valid() && ring == Offered(old(ring), frame, a, b)
      ensures ring.offered == old(ring.offered) + [frame]
      ensures accepted ==> queue != [] && queue[|queue| - 1] == frame
      ensures accepted <==> ring.rejected == old(ring.rejected) && ring.failed == old(ring.failed)
    {
      DropFront(ring.offered, [frame]);
      if IsKeyframe(frame) {
        isDroppingUntilKeyframe := false;
      } else if isDroppingUntilKeyframe {
        ring := Begin(ring, frame);
        return false;
      }
      ring := Begin(ring, frame);
      PollTimes(a);
      var room := MakeRoom(frame, b);
      if !room {
        return false;
      }
      assert ring.offered[ring.producer.i] == frame;
      accepted := |queue| < maxCapacity;
      if accepted {
        queue := queue + [frame];
      }
      ring := Next(ring);
    }
  }
}
