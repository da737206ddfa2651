// The host's TCP session loop, which writes every frame before it takes the next.
module TcpSession {
  import opened Wrappers
  import opened Bytes
  import opened Packets
  import opened Seqs
  import opened UsbAccounting
  import opened FramedStreams
  import opened VideoFrames
  import P = UsbPipeline

  // What the select! delivers: a frame, with a metrics report if one is due, or
  // the result of read_packet.
  datatype Input = Frame(frame: VideoFrame, metrics: Option<seq<byte>>) | FromClient(packet: Packet) | ReadFails

  predicate Ends(i: Input) {
    i.ReadFails? || (i.FromClient? && i.packet.header.msgType == MSG_DISCONNECT)
  }

  // None of the inputs ends the session.
  predicate Live(inputs: seq<Input>) {
    inputs == [] || (!Ends(inputs[0]) && Live(inputs[1..]))
  }

  // The packets written in answer to one input, the n-th frame having been taken.
  function Response(n: nat, i: Input): seq<Packet> {
    match i
    case Frame(frame, metrics) =>
      var sequence := (n + 1) % 0x1_0000_0000;
      [P.VideoPacket(frame, sequence)]
      + (if metrics.Some? then [NewPacket(MSG_METRICS, 0, sequence, metrics.value)] else [])
    case FromClient(packet) => if packet.header.msgType == MSG_PING then [P.PongFor(packet)] else []
    case ReadFails => []
  }

  function Output(n: nat, inputs: seq<Input>): seq<Packet>
    decreases |inputs|
  {
    if inputs == [] || Ends(inputs[0]) then []
    else Response(n, inputs[0]) + Output(if inputs[0].Frame? then n + 1 else n, inputs[1..])
  }

  // The frames the loop takes, and the video packets it should write for them.
  function Taken(inputs: seq<Input>): seq<VideoFrame> {
    if inputs == [] || Ends(inputs[0]) then []
    else (if inputs[0].Frame? then [inputs[0].frame] else []) + Taken(inputs[1..])
  }

  function Numbered(n: nat, frames: seq<VideoFrame>): seq<Packet>
    decreases |frames|
  {
    if frames == [] then []
    else [P.VideoPacket(frames[0], (n + 1) % 0x1_0000_0000)] + Numbered(n + 1, frames[1..])
  }

  function Pings(inputs: seq<Input>): seq<Packet> {
    if inputs == [] || Ends(inputs[0]) then []
    else
      (if inputs[0].FromClient? && inputs[0].packet.header.msgType == MSG_PING then [inputs[0].packet] else [])
      + Pings(inputs[1..])
  }

  lemma {:induction false} OfTypeAppend(ps: seq<Packet>, qs: seq<Packet>, msgType: byte)
    ensures OfType(ps + qs, msgType) == OfType(ps, msgType) + OfType(qs, msgType)
    decreases |qs|
  {
    if qs == [] {
      Unit(ps);
      Unit(OfType(ps, msgType));
    } else {
      var n := |qs| - 1;
      TailAt(qs, n);
      assert qs[..n + 1] == qs;
      Assoc(ps, qs[..n], [qs[n]]);
      OfTypeAppend(ps, qs[..n], msgType);
      OfTypeSnoc(ps + qs[..n], qs[n], msgType);
      Assoc(OfType(ps, msgType), OfType(qs[..n], msgType), if qs[n].header.msgType == msgType then [qs[n]] else []);
    }
  }

  lemma OfTypeOfResponse(n: nat, i: Input)
    ensures OfType(Response(n, i), MSG_VIDEO_DATA)
         == if i.Frame? then [P.VideoPacket(i.frame, (n + 1) % 0x1_0000_0000)] else []
    ensures OfType(Response(n, i), MSG_PONG)
         == if i.FromClient? && i.packet.header.msgType == MSG_PING then [P.PongFor(i.packet)] else []
  {
    match i
    case Frame(frame, metrics) =>
      var sequence := (n + 1) % 0x1_0000_0000;
      var v := P.VideoPacket(frame, sequence);
      Unit([v]);
      OfTypeSnoc([], v, MSG_VIDEO_DATA);
      OfTypeSnoc([], v, MSG_PONG);
      if metrics.Some? {
        var m := NewPacket(MSG_METRICS, 0, sequence, metrics.value);
        OfTypeSnoc([v], m, MSG_VIDEO_DATA);
        OfTypeSnoc([v], m, MSG_PONG);
      }
    case FromClient(packet) =>
      Unit([P.PongFor(packet)]);
      OfTypeSnoc([], P.PongFor(packet), MSG_VIDEO_DATA);
      OfTypeSnoc([], P.PongFor(packet), MSG_PONG);
    case ReadFails =>
  }

  // The TCP session loop drops no frame it has taken: the video packets are exactly those,
  // numbered without a gap, whatever is written between them.
  lemma {:induction false} EveryFrameIsWritten(n: nat, inputs: seq<Input>)
    ensures OfType(Output(n, inputs), MSG_VIDEO_DATA) == Numbered(n, Taken(inputs))
    decreases |inputs|
  {
    if inputs != [] && !Ends(inputs[0]) {
      var i := inputs[0];
      var m := if i.Frame? then n + 1 else n;
      EveryFrameIsWritten(m, inputs[1..]);
      OfTypeOfResponse(n, i);
      OfTypeAppend(Response(n, i), Output(m, inputs[1..]), MSG_VIDEO_DATA);
      Unit(Numbered(m, Taken(inputs[1..])));
      if i.Frame? {
        DropFront([i.frame], Taken(inputs[1..]));
      } else {
        Unit(Taken(inputs[1..]));
      }
    }
  }

  lemma {:induction false} NumberedAt(n: nat, frames: seq<VideoFrame>, k: nat)
    requires k < |frames|
    ensures |Numbered(n, frames)| == |frames|
    ensures Numbered(n, frames)[k] == P.VideoPacket(frames[k], (n + k + 1) % 0x1_0000_0000)
    decreases |frames|
  {
    if k > 0 {
      NumberedAt(n + 1, frames[1..], k - 1);
    } else if |frames| > 1 {
      NumberedAt(n + 1, frames[1..], 0);
    }
  }

  lemma {:induction false} NumberedLength(n: nat, frames: seq<VideoFrame>)
    ensures |Numbered(n, frames)| == |frames|
    decreases |frames|
  {
    if frames != [] {
      NumberedLength(n + 1, frames[1..]);
    }
  }

  // Every PING read is answered by one PONG, in order, with its sequence and payload.
  lemma EveryPingIsAnswered(n: nat, inputs: seq<Input>, k: nat)
    ensures |OfType(Output(n, inputs), 0x31)| == |Pings(inputs)|
    ensures k < |Pings(inputs)| ==> Answers(OfType(Output(n, inputs), 0x31)[k], Pings(inputs)[k])
  {
    PongsWritten(n, inputs);
    PongsForAt(Pings(inputs), k);
  }

  lemma {:induction false} PongsWritten(n: nat, inputs: seq<Input>)
    ensures OfType(Output(n, inputs), MSG_PONG) == PongsFor(Pings(inputs))
    decreases |inputs|
  {
    if inputs != [] && !Ends(inputs[0]) {
      var i := inputs[0];
      var m := if i.Frame? then n + 1 else n;
      PongsWritten(m, inputs[1..]);
      OfTypeOfResponse(n, i);
      OfTypeAppend(Response(n, i), Output(m, inputs[1..]), MSG_PONG);
      if i.FromClient? && i.packet.header.msgType == MSG_PING {
        PongsForCons(i.packet, Pings(inputs[1..]));
      } else {
        Unit(Pings(inputs[1..]));
        Unit(PongsFor(Pings(inputs[1..])));
      }
    }
  }

  lemma {:induction false} PongsForCons(p: Packet, pings: seq<Packet>)
    ensures PongsFor([p] + pings) == [P.PongFor(p)] + PongsFor(pings)
    decreases |pings|
  {
    if pings == [] {
      PongsForSnoc([], p);
      Unit([p]);
      Unit([P.PongFor(p)]);
    } else {
      var n := |pings| - 1;
      TailAt(pings, n);
      assert pings[..n + 1] == pings;
      Assoc([p], pings[..n], [pings[n]]);
      PongsForSnoc([p] + pings[..n], pings[n]);
      PongsForCons(p, pings[..n]);
      Assoc([P.PongFor(p)], PongsFor(pings[..n]), [P.PongFor(pings[n])]);
    }
  }

  // ----- the loop over a socket that may fail -----

  // What gets onto a socket that takes room more bytes and then fails.
  function Front(bytes: seq<byte>, room: nat): seq<byte> {
    if |bytes| <= room then bytes else bytes[..room]
  }

  function Left(bytes: seq<byte>, room: nat): nat {
    if |bytes| <= room then room - |bytes| else 0
  }

  lemma FrontOfBoth(a: seq<byte>, b: seq<byte>, room: nat)
    ensures Front(a + b, room) == Front(a, room) + Front(b, Left(a, room))
    ensures Left(a + b, room) == Left(b, Left(a, room))
  {
    if |a| <= room < |a + b| {
      assert (a + b)[..room] == a + b[..room - |a|];
    } else if room < |a| {
      DropWithin(a, b, room);
      Unit(a[..room]);
    }
  }

  // No write but perhaps that of a METRICS report fails.
  predicate Survives(n: nat, inputs: seq<Input>, room: nat)
    decreases |inputs|
  {
    inputs == [] || Ends(inputs[0]) ||
    var response := Response(n, inputs[0]);
    && (response == [] || Size(response[0]) <= room)
    && Survives(if inputs[0].Frame? then n + 1 else n, inputs[1..], Left(EncodeAll(response), room))
  }

  predicate LastIsMetrics(ps: seq<Packet>) {
    ps != [] && ps[|ps| - 1].header.msgType == MSG_METRICS
  }

  // All the packets fit, or all but a METRICS report at the very end.
  predicate Fits(ps: seq<Packet>, room: nat) {
    |EncodeAll(ps)| <= room || (LastIsMetrics(ps) && |EncodeAll(ps[..|ps| - 1])| <= room)
  }

  lemma OutputStartsWithoutMetrics(n: nat, inputs: seq<Input>)
    ensures Output(n, inputs) != [] ==> Output(n, inputs)[0].header.msgType != MSG_METRICS
    decreases |inputs|
  {
    if inputs != [] && !Ends(inputs[0]) {
      OutputStartsWithoutMetrics(if inputs[0].Frame? then n + 1 else n, inputs[1..]);
    }
  }

  lemma ResponseFits(n: nat, i: Input, room: nat)
    requires Response(n, i) != []
    ensures Fits(Response(n, i), room) <==> Size(Response(n, i)[0]) <= room
  {
    var p := Response(n, i)[0];
    EncodeAllOne(p);
    if i.Frame? && i.metrics.Some? {
      var report := NewPacket(MSG_METRICS, 0, (n + 1) % 0x1_0000_0000, i.metrics.value);
      EncodeAllTwo(p, report);
      DropFront([p], [report]);
      assert Response(n, i) == [p] + [report];
    } else {
      Unit([p]);
      assert Response(n, i) == [p];
    }
  }

  lemma SomethingHasSize(ps: seq<Packet>)
    ensures ps != [] ==> |EncodeAll(ps)| >= HEADER_SIZE
  {
  }

  lemma LastOfBoth(response: seq<Packet>, rest: seq<Packet>)
    requires rest != []
    ensures var ps, m := response + rest, |rest| - 1;
            && (LastIsMetrics(ps) <==> LastIsMetrics(rest))
            && |EncodeAll(ps)| == |EncodeAll(response)| + |EncodeAll(rest)|
            && |EncodeAll(ps[..|ps| - 1])| == |EncodeAll(response)| + |EncodeAll(rest[..m])|
  {
    LastOfSum(response, rest);
    EncodeAllAppend(response, rest);
    EncodeAllAppend(response, rest[..|rest| - 1]);
  }

  lemma FitsLater(response: seq<Packet>, rest: seq<Packet>, room: nat)
    requires rest != [] && rest[0].header.msgType != MSG_METRICS
    ensures Fits(response + rest, room) <==> Fits(rest, Left(EncodeAll(response), room))
    ensures Fits(rest, Left(EncodeAll(response), room)) ==> |EncodeAll(response)| <= room
  {
    LastOfBoth(response, rest);
    SomethingHasSize(rest);
    SomethingHasSize(rest[..|rest| - 1]);
  }

  // The exact condition: the loop meets a write error if and only if the socket has no
  // room for all its output up to a METRICS report at the very end.
  lemma {:induction false} SurvivesIffFits(n: nat, inputs: seq<Input>, room: nat)
    ensures Survives(n, inputs, room) <==> Fits(Output(n, inputs), room)
    decreases |inputs|
  {
    if inputs != [] && !Ends(inputs[0]) {
      var response := Response(n, inputs[0]);
      var m := if inputs[0].Frame? then n + 1 else n;
      var rest := Output(m, inputs[1..]);
      SurvivesIffFits(m, inputs[1..], Left(EncodeAll(response), room));
      if response == [] {
        Unit(rest);
      } else if rest == [] {
        Unit(response);
        ResponseFits(n, inputs[0], room);
      } else {
        OutputStartsWithoutMetrics(m, inputs[1..]);
        FitsLater(response, rest, room);
      }
    }
  }

  // The session loop over a socket that takes room more bytes: whatever fails, and
  // although a failed METRICS report does not end the loop, what is on the socket is a
  // front part of what the loop has to say, all of it if there is room.
  method RunSessionLoop(framed: FramedStream, inputs: seq<Input>, room: nat) returns (ok: bool)
    modifies framed`wire
    ensures framed.wire == old(framed.wire) + Front(EncodeAll(Output(0, inputs)), room)
    ensures ok <==> Survives(0, inputs, room)
  {
    var frameSeq: u32 := 0;
    ghost var n: nat := 0;
    var k, left := 0, room;
    ghost var written := [];
    Unit(framed.wire);
    Unit(Output(0, inputs));
    while k < |inputs|
      invariant k <= |inputs| && frameSeq == n % 0x1_0000_0000
      invariant written + Output(n, inputs[k..]) == Output(0, inputs)
      invariant framed.wire == old(framed.wire) + Front(EncodeAll(written), room)
      invariant left == Left(EncodeAll(written), room)
      invariant Survives(n, inputs[k..], left) <==> Survives(0, inputs, room)
    {
      TailAt(inputs, k);
      if Ends(inputs[k]) {
        Unit(written);
        return true;
      }
      ghost var response := Response(n, inputs[k]);
      ghost var m := if inputs[k].Frame? then n + 1 else n;
      MoreOutput(written, response, Output(m, inputs[k + 1..]), room);
      Assoc(old(framed.wire), Front(EncodeAll(written), room), Front(EncodeAll(response), left));
      ghost var left0 := left;
      SurvivesStep(n, inputs, k, left);
      frameSeq, ok, left := HandleInput(framed, inputs[k], frameSeq, left, n);
      if !ok {
        FirstDoesNotFit(response, left0);
        return;
      }
      written := written + response;
      n := m;
      k := k + 1;
    }
    Unit(written);
    ok := true;
  }

  // One response more on the socket; if it does not fit, nothing after it matters.
  lemma MoreOutput(written: seq<Packet>, response: seq<Packet>, rest: seq<Packet>, room: nat)
    ensures (written + response) + rest == written + (response + rest)
    ensures Front(EncodeAll(written + response), room)
         == Front(EncodeAll(written), room) + Front(EncodeAll(response), Left(EncodeAll(written), room))
    ensures Left(EncodeAll(written + response), room) == Left(EncodeAll(response), Left(EncodeAll(written), room))
    ensures Left(EncodeAll(written), room) < |EncodeAll(response)| ==>
              && Front(EncodeAll(written + (response + rest)), room) == Front(EncodeAll(written + response), room)
              && room < |EncodeAll(written + (response + rest))|
  {
    Assoc(written, response, rest);
    EncodeAllAppend(written, response);
    EncodeAllAppend(written + response, rest);
    FrontOfBoth(EncodeAll(written), EncodeAll(response), room);
    FrontOfBoth(EncodeAll(written + response), EncodeAll(rest), room);
    Unit(Front(EncodeAll(written + response), room));
  }

  lemma SurvivesStep(n: nat, inputs: seq<Input>, k: nat, room: nat)
    requires k < |inputs| && !Ends(inputs[k])
    ensures var response := Response(n, inputs[k]);
            Survives(n, inputs[k..], room)
            <==> (response == [] || Size(response[0]) <= room)
                 && Survives(if inputs[k].Frame? then n + 1 else n, inputs[k + 1..], Left(EncodeAll(response), room))
  {
    TailAt(inputs, k);
  }

  lemma FirstDoesNotFit(ps: seq<Packet>, room: nat)
    requires ps != [] && room < Size(ps[0])
    ensures room < |EncodeAll(ps)|
  {
  }

  method HandleInput(framed: FramedStream, i: Input, frameSeq: u32, room: nat, ghost n: nat)
    returns (next: u32, ok: bool, left: nat)
    requires !Ends(i) && frameSeq == n % 0x1_0000_0000
    modifies framed`wire
    ensures framed.wire == old(framed.wire) + Front(EncodeAll(Response(n, i)), room)
    ensures left == Left(EncodeAll(Response(n, i)), room)
    ensures ok <==> Response(n, i) == [] || Size(Response(n, i)[0]) <= room
    ensures next == (if i.Frame? then n + 1 else n) % 0x1_0000_0000
  {
    next, ok, left := frameSeq, true, room;
    match i {
      case Frame(frame, metrics) =>
        NextSequence(n);
        next := (frameSeq + 1) % 0x1_0000_0000;
        ok, left := HandleFrame(framed, frame, metrics, next, room, n);
      case FromClient(packet) =>
        if packet.header.msgType == MSG_PING {
          var pong := NewPacket(MSG_PONG, 0, packet.header.sequence, packet.payload);
          EncodeAllOne(pong);
          ok, left := framed.WritePacket(pong, room);
        } else {
          Unit(framed.wire);
        }
    }
  }

  // The result of writing a METRICS report is ignored.
  method HandleFrame(framed: FramedStream, frame: VideoFrame, metrics: Option<seq<byte>>, sequence: u32,
                     room: nat, ghost n: nat)
    returns (ok: bool, left: nat)
    requires sequence == (n + 1) % 0x1_0000_0000
    modifies framed`wire
    ensures ok <==> Size(P.VideoPacket(frame, sequence)) <= room
    ensures var response := EncodeAll(Response(n, Frame(frame, metrics)));
            framed.wire == old(framed.wire) + Front(response, room) && left == Left(response, room)
  {
    var flags: u16 := if frame.isKeyframe then FLAG_KEYFRAME + FLAG_END_OF_FRAME else FLAG_END_OF_FRAME;
    ghost var before, video := framed.wire, P.VideoPacket(frame, sequence);
    EncodeAllOne(video);
    Unit([video]);
    ok, left := framed.WriteFrameData(sequence, flags, frame.data, room);
    assert framed.wire == before + Front(Encode(video), room) && left == Left(Encode(video), room);
    if metrics.Some? {
      var report := NewPacket(MSG_METRICS, 0, sequence, metrics.value);
      EncodeAllTwo(video, report);
      FrontOfBoth(Encode(video), Encode(report), room);
      Assoc(before, Front(Encode(video), room), Front(Encode(report), left));
      if ok {
        var reported;
        reported, left := framed.WritePacket(report, left);
      } else {
        Unit(framed.wire);
      }
    }
  }
}
