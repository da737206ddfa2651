// A TCP session as its peers see it: what it makes of its inputs, by message types and
// packet fields, and which inputs end it.
module TcpHistory {
  import opened Wrappers
  import opened Packets
  import opened Seqs
  import opened VideoFrames
  import opened UsbAccounting
  import opened TcpSession
  import P = UsbPipeline

  function FramesAmong(inputs: seq<Input>): seq<VideoFrame> {
    if inputs == [] then []
    else (if inputs[0].Frame? then [inputs[0].frame] else []) + FramesAmong(inputs[1..])
  }

  predicate IsPing(i: Input) {
    i.FromClient? && i.packet.header.msgType == 0x30
  }

  function PingsAmong(inputs: seq<Input>): seq<Packet> {
    if inputs == [] then []
    else (if IsPing(inputs[0]) then [inputs[0].packet] else []) + PingsAmong(inputs[1..])
  }

  // ----- which inputs end the session -----

  ghost predicate NoEnd(inputs: seq<Input>) {
    forall i <- inputs :: !i.ReadFails? && (i.FromClient? ==> i.packet.header.msgType != 0xFF)
  }

  lemma NoEndOfBoth(i: Input, inputs: seq<Input>)
    ensures NoEnd([i] + inputs) <==> NoEnd([i]) && NoEnd(inputs)
    ensures NoEnd([i]) <==> !Ends(i)
  {
    assert forall j <- [i] + inputs :: j == i || j in inputs;
    assert i in [i] + inputs && i in [i] && forall j <- inputs :: j in [i] + inputs;
  }

  lemma {:induction false} TakenGoesOn(a: seq<Input>, b: seq<Input>)
    requires NoEnd(a)
    ensures Taken(a + b) == FramesAmong(a) + Taken(b)
    decreases |a|
  {
    if a == [] {
      Unit(b);
      Unit(Taken(b));
    } else {
      HeadTail(a);
      NoEndOfBoth(a[0], a[1..]);
      TakenGoesOn(a[1..], b);
      DropWithin(a, b, 1);
      Assoc(if a[0].Frame? then [a[0].frame] else [], FramesAmong(a[1..]), Taken(b));
    }
  }

  lemma {:induction false} PingsGoOn(a: seq<Input>, b: seq<Input>)
    requires NoEnd(a)
    ensures Pings(a + b) == PingsAmong(a) + Pings(b)
    decreases |a|
  {
    if a == [] {
      Unit(b);
      Unit(Pings(b));
    } else {
      HeadTail(a);
      NoEndOfBoth(a[0], a[1..]);
      PingsGoOn(a[1..], b);
      DropWithin(a, b, 1);
      Assoc(if IsPing(a[0]) then [a[0].packet] else [], PingsAmong(a[1..]), Pings(b));
    }
  }

  lemma {:induction false} OutputGoesOn(n: nat, a: seq<Input>, b: seq<Input>)
    requires NoEnd(a)
    ensures Output(n, a + b) == Output(n, a) + Output(n + |FramesAmong(a)|, b)
    decreases |a|
  {
    if a == [] {
      Unit(b);
      Unit(Output(n, b));
    } else {
      HeadTail(a);
      NoEndOfBoth(a[0], a[1..]);
      var m := if a[0].Frame? then n + 1 else n;
      OutputGoesOn(m, a[1..], b);
      DropWithin(a, b, 1);
      Assoc(Response(n, a[0]), Output(m, a[1..]), Output(n + |FramesAmong(a)|, b));
    }
  }

  // A session in which the read has not failed and no DISCONNECT has come goes on: it has
  // taken every frame and answers every PING, and what it makes of further inputs follows
  // on from there.
  lemma GoesOn(n: nat, a: seq<Input>, b: seq<Input>)
    requires forall i <- a :: !i.ReadFails? && (i.FromClient? ==> i.packet.header.msgType != 0xFF)
    ensures Taken(a) == FramesAmong(a) && Taken(a + b) == FramesAmong(a) + Taken(b)
    ensures Pings(a) == PingsAmong(a) && Pings(a + b) == PingsAmong(a) + Pings(b)
    ensures Output(n, a + b) == Output(n, a) + Output(n + |FramesAmong(a)|, b)
  {
    TakenGoesOn(a, []);
    TakenGoesOn(a, b);
    PingsGoOn(a, []);
    PingsGoOn(a, b);
    OutputGoesOn(n, a, b);
    Unit(a);
    Unit(FramesAmong(a));
    Unit(PingsAmong(a));
  }

  // A DISCONNECT or a failing read ends it: what comes after makes no difference.
  lemma {:induction false} StopsAt(n: nat, a: seq<Input>, d: Input, b: seq<Input>)
    requires d.ReadFails? || (d.FromClient? && d.packet.header.msgType == 0xFF)
    ensures Output(n, (a + [d]) + b) == Output(n, a)
    ensures Taken((a + [d]) + b) == Taken(a) && Pings((a + [d]) + b) == Pings(a)
    decreases |a|
  {
    var all := (a + [d]) + b;
    if a == [] {
      assert all[0] == d;
    } else {
      assert all[0] == a[0];
      Assoc(a, [d], b);
      DropWithin(a, [d] + b, 1);
      Assoc(a[1..], [d], b);
      StopsAt(if a[0].Frame? then n + 1 else n, a[1..], d, b);
    }
  }

  lemma {:induction false} LiveIffNoEnd(inputs: seq<Input>)
    ensures Live(inputs)
       <==> forall i <- inputs :: !i.ReadFails? && (i.FromClient? ==> i.packet.header.msgType != 0xFF)
  {
    if inputs != [] {
      LiveIffNoEnd(inputs[1..]);
      HeadTail(inputs);
      NoEndOfBoth(inputs[0], inputs[1..]);
    }
  }

  // ----- what it writes for each -----

  // The packet of a frame with both flag bits and the next number, a METRICS report with
  // the same number, a PONG that echoes its PING, and nothing for any other packet.
  lemma OneInput(n: nat, i: Input)
    ensures var ps := Output(n, [i]);
            match i
            case Frame(frame, metrics) =>
              && |ps| == (if metrics.Some? then 2 else 1)
              && ShowsFrame(ps[0], frame.isKeyframe, frame.data, n + 1)
              && (metrics.Some? ==>
                    && ps[1].payload == metrics.value
                    && ps[1].header == Header(1, 0x40, 0, (n + 1) % 0x1_0000_0000,
                                              |metrics.value| % 0x1_0000_0000))
            case FromClient(packet) =>
              if packet.header.msgType == 0x30 then |ps| == 1 && Answers(ps[0], packet) else ps == []
            case ReadFails => ps == []
  {
    assert Output(n, [i]) == if Ends(i) then [] else Response(n, i) + Output(if i.Frame? then n + 1 else n, [i][1..]);
    Unit(Response(n, i));
  }

  // Over a whole session: the k-th video packet shows the k-th frame taken.
  lemma VideoPacketsShowFrames(inputs: seq<Input>, k: nat)
    ensures |OfType(Output(0, inputs), 0x11)| == |Taken(inputs)|
    ensures k < |Taken(inputs)| ==>
              ShowsFrame(OfType(Output(0, inputs), 0x11)[k], Taken(inputs)[k].isKeyframe, Taken(inputs)[k].data, k + 1)
  {
    EveryFrameIsWritten(0, inputs);
    NumberedLength(0, Taken(inputs));
    if k < |Taken(inputs)| {
      NumberedAt(0, Taken(inputs), k);
      P.FrameInFields(Taken(inputs)[k], k + 1);
    }
  }
}
