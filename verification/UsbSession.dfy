// The host's side of a USB session as an object: the arms of the session loop's
// select!, and the write worker that empties the output channel.
module UsbSession {
  import opened Bytes
  import opened Packets
  import opened Seqs
  import opened UsbPipeline
  import opened UsbWriter
  import opened VideoFrames

  class UsbHost {
    var loop: Loop
    var frameSeq: u32
    var channel: seq<seq<byte>>
    var worker: Worker
    var closed: bool
    var sent: seq<byte>               // bytes the bulk writes have taken
    ghost var accepted: seq<Packet>   // packets the channel has accepted

    // The bytes sent, being sent and queued are those of the packets accepted, in order.
    ghost predicate Valid()
      reads this`sent, this`worker, this`channel, this`accepted
    {
      && sent + (Unsent(worker) + Flatten(channel)) == EncodeAll(accepted)
      && |channel| <= CHANNEL_SIZE
      && (worker.Writing? ==> worker.written <= |worker.data|)
    }

    constructor ()
      ensures Valid() && loop == SendingAck && frameSeq == 0 && channel == [] && worker == Idle && !closed
      ensures sent == [] && accepted == []
    {
      loop, frameSeq, channel, worker, closed, sent, accepted := SendingAck, 0, [], Idle, false, [], [];
    }

    // What has been sent is a front part of the packets accepted, and all of them once
    // the worker is idle and the channel empty.
    lemma SentIsFront()
      requires Valid()
      ensures sent <= EncodeAll(accepted)
      ensures worker.Idle? && channel == [] ==> sent == EncodeAll(accepted)
    {
      Unit(sent);
    }

    // ----- the session loop -----

    predicate Room()
      reads this
    {
      !worker.Stopped? && |channel| < CHANNEL_SIZE
    }

    // try_send, and send().await once there is room.
    method TrySend(p: Packet) returns (full: bool, gone: bool)
      requires Valid()
      modifies this`channel, this`accepted
      ensures Valid() && gone == worker.Stopped? && full == (!gone && |old(channel)| == CHANNEL_SIZE)
      ensures if old(Room()) then channel == old(channel) + [Encode(p)] && accepted == old(accepted) + [p]
              else channel == old(channel) && accepted == old(accepted)
    {
      var bytes := EncodePacket(p);
      gone := worker.Stopped?;
      full := !gone && |channel| >= CHANNEL_SIZE;
      if !full && !gone {
        EncodeAllSnoc(accepted, p);
        FlattenSnoc(channel, bytes);
        Assoc(Unsent(worker), Flatten(channel), bytes);
        Assoc(sent, Unsent(worker) + Flatten(channel), bytes);
        channel, accepted := channel + [bytes], accepted + [p];
      }
    }

    // A frame from the encoder: numbered, then queued, dropped on a full channel, or the
    // end of the session when the worker is gone.
    method HandleFrame(frame: VideoFrame)
      requires Valid() && loop.Serving?
      modifies this`frameSeq, this`channel, this`accepted, this`loop, this`closed
      ensures Valid() && frameSeq == (old(frameSeq) + 1) % 0x1_0000_0000
      ensures if old(Room()) then
                var p := VideoPacket(frame, frameSeq);
                && channel == old(channel) + [Encode(p)] && accepted == old(accepted) + [p]
                && ShowsFrame(p, frame.isKeyframe, frame.data, frameSeq)
              else channel == old(channel) && accepted == old(accepted)
      ensures loop == if worker.Stopped? then Over else Serving
      ensures closed == (old(closed) || worker.Stopped?)
    {
      frameSeq := (frameSeq + 1) % 0x1_0000_0000;
      var p := PacketOf(frame);
      var full, gone := TrySend(p);
      if gone {
        Leave();
      }
    }

    method PacketOf(frame: VideoFrame) returns (p: Packet)
      ensures p == VideoPacket(frame, frameSeq) && ShowsFrame(p, frame.isKeyframe, frame.data, frameSeq)
    {
      var flags: u16 := 0;
      if frame.isKeyframe {
        flags := flags + FLAG_KEYFRAME;
      }
      flags := flags + FLAG_END_OF_FRAME;
      FrameInFields(frame, frameSeq);
      p := NewPacket(MSG_VIDEO_DATA, flags, frameSeq, frame.data);
    }

    // The arm for a packet from the client; a PONG still has to be sent.
    method HandlePacket(packet: Packet)
      requires loop.Serving?
      modifies this`loop, this`closed
      ensures loop == LoopAfter(packet) && closed == (old(closed) || EndsSession(packet))
      ensures packet.header.msgType == 0x30 ==> loop.Ponging? && Answers(loop.pong, packet)
      ensures packet.header.msgType in {0x01, 0xFF} ==> loop.Over? && closed
      ensures packet.header.msgType !in {0x01, 0x30, 0xFF} ==> loop.Serving? && closed == old(closed)
    {
      var msgType := packet.header.msgType;
      if msgType == MSG_PING {
        loop := Ponging(NewPacket(MSG_PONG, 0, packet.header.sequence, packet.payload));
      } else if msgType == MSG_DISCONNECT || msgType == MSG_HELLO {
        Leave();
      }
    }

    // Awaits room for a packet, if there is none stays where it is; a closed channel
    // loses the packet.
    method SendAwaiting(p: Packet, next: Loop)
      requires Valid()
      modifies this`loop, this`channel, this`accepted
      ensures Valid()
      ensures if old(Room()) then channel == old(channel) + [Encode(p)] && accepted == old(accepted) + [p]
              else channel == old(channel) && accepted == old(accepted)
      ensures loop == if worker.Stopped? || old(Room()) then next else old(loop)
    {
      var full, gone := TrySend(p);
      if !full {
        loop := next;
      }
    }

    method Leave()
      modifies this`loop, this`closed
      ensures loop == Over && closed
    {
      loop, closed := Over, true;
    }

    // ----- the write worker -----

    method TakeNext()
      requires Valid() && worker.Idle? && channel != []
      modifies this`channel, this`worker
      ensures Valid() && channel == old(channel)[1..]
      ensures worker == if closed then Stopped(old(channel)[0]) else Writing(old(channel)[0], 0)
    {
      Unit(channel[0]);
      Unit(Flatten(channel));
      assert channel[0][0..] == channel[0];
      worker := if closed then Stopped(channel[0]) else Writing(channel[0], 0);
      channel := channel[1..];
    }

    // One bulk write; a failing one closes the stream and ends the worker.
    method WriteSome(bulk: Bulk)
      requires Valid() && worker.Writing? && worker.written < |worker.data|
      modifies this`worker, this`sent, this`closed
      ensures Valid()
      ensures var data, w := old(worker.data), old(worker.written);
              var m := TakenBy(bulk, |data| - w);
              && sent == old(sent) + data[w..][..m]
              && worker == (if bulk.Error? then Stopped(data[w..][m..]) else Writing(data, w + m))
              && closed == (old(closed) || bulk.Error?)
    {
      var data, w := worker.data, worker.written;
      var m := TakenBy(bulk, |data| - w);
      MoveToWire(sent, data, w, m, Flatten(channel));
      sent := sent + data[w..][..m];
      if bulk.Error? {
        worker, closed := Stopped(data[w..][m..]), true;
      } else {
        worker := Writing(data, w + m);
      }
      assert Unsent(worker) == data[w..][m..];
    }

    method FinishWrite()
      requires Valid() && worker.Writing? && worker.written == |worker.data|
      modifies this`worker
      ensures Valid() && worker == Idle
    {
      assert worker.data[worker.written..] == [];
      worker := Idle;
    }

    // ----- whole runs -----

    // The fields are the host's part of a state of the pipeline.
    ghost predicate Mirrors(s: State)
      reads this
    {
      && loop == s.loop && frameSeq == s.frameSeq && channel == s.channel && worker == s.worker
      && closed == s.closed && accepted == s.accepted
    }

    method GreetTurn(payload: seq<byte>, ghost s: State)
      requires Valid() && Mirrors(s)
      modifies this
      ensures Valid() && Mirrors(OnGreet(s, payload)) && sent == old(sent)
    {
      if loop.SendingAck? {
        SendAwaiting(NewPacket(MSG_HELLO_ACK, 0, 0, payload), SendingConfig);
      } else if loop.SendingConfig? {
        SendAwaiting(NewPacket(MSG_DISPLAY_CONFIG, 0, 1, payload), Serving);
      }
    }

    method FrameTurn(frame: VideoFrame, ghost s: State)
      requires Valid() && Mirrors(s) && loop.Serving?
      modifies this
      ensures Valid() && Mirrors(OnFrame(s, frame)) && sent == old(sent)
    {
      HandleFrame(frame);
    }

    method PacketTurn(packet: Packet, ghost s: State)
      requires Valid() && Mirrors(s) && loop.Serving?
      modifies this
      ensures Valid() && Mirrors(OnPacket(s, packet)) && sent == old(sent)
    {
      PacketFields(s, packet);
      HandlePacket(packet);
    }

    method PongTurn(ghost s: State)
      requires Valid() && Mirrors(s)
      modifies this
      ensures Valid() && Mirrors(OnSendPong(s)) && sent == old(sent)
    {
      if loop.Ponging? {
        SendAwaiting(loop.pong, Serving);
      }
    }

    // One step of the session loop.
    method Turn(e: Event, ghost s: State)
      requires Valid() && Mirrors(s) && !OfTransport(e) && !e.ReadByte?
      modifies this
      ensures Valid() && Mirrors(Step(s, e)) && sent == old(sent)
    {
      match e {
        case Greet(payload) => GreetTurn(payload, s);
        case TakeFrame(frame) =>
          if loop.Serving? {
            FrameTurn(frame, s);
          }
        case FromClient(packet) =>
          if loop.Serving? {
            PacketTurn(packet, s);
          }
        case SendPong => PongTurn(s);
        case EndSession =>
          if loop.Serving? {
            Leave();
          }
      }
    }

    method BulkStep(bulk: Bulk, ghost s: State)
      requires Valid() && Mirrors(s) && worker.Writing? && worker.written < |worker.data|
      modifies this
      ensures Valid() && Mirrors(OnBulk(s, bulk)) && old(sent) <= sent
    {
      BulkFields(s, bulk);
      WriteSome(bulk);
    }

    method TakeStep(ghost s: State)
      requires Valid() && Mirrors(s) && worker.Idle? && channel != []
      modifies this
      ensures Valid() && Mirrors(OnTake(s)) && sent == old(sent)
    {
      TakeNext();
    }

    method FinishStep(ghost s: State)
      requires Valid() && Mirrors(s)
      modifies this
      ensures Valid() && Mirrors(Step(s, Event.FinishWrite)) && sent == old(sent)
    {
      if worker.Writing? && worker.written == |worker.data| {
        FinishWrite();
      }
    }

    method FailStep(ghost s: State)
      requires Valid() && Mirrors(s)
      modifies this`closed
      ensures Mirrors(Step(s, ReadSideFails))
    {
      closed := true;
    }

    // One step of the write worker, or an error on the read side of the stream.
    method Work(e: Event, ghost s: State)
      requires Valid() && Mirrors(s) && OfTransport(e) && !e.Refill?
      modifies this
      ensures Valid() && Mirrors(Step(s, e)) && old(sent) <= sent
    {
      match e {
        case TakeFromChannel =>
          if worker.Idle? && channel != [] {
            TakeStep(s);
          }
        case BulkWrite(bulk) =>
          if worker.Writing? && worker.written < |worker.data| {
            BulkStep(bulk, s);
          }
        case FinishWrite => FinishStep(s);
        case ReadSideFails => FailStep(s);
      }
    }

    // One step of the system, of which those of the client do not concern the host.
    method FollowOne(e: Event, ghost s: State)
      requires Valid() && Mirrors(s)
      modifies this
      ensures Valid() && Mirrors(Step(s, e)) && old(sent) <= sent
    {
      if e.Refill? || e.ReadByte? {
        ClientLeavesHostAlone(s, e);
      } else if OfTransport(e) {
        Work(e, s);
      } else {
        Turn(e, s);
      }
    }

    // Over any whole run the object takes the steps of the system's host side, and what
    // it has sent is a front part of what its channel has accepted.
    method Follow(events: seq<Event>, ghost s: State)
      requires Valid() && Mirrors(s)
      modifies this
      ensures Valid() && Mirrors(Run(s, events))
      ensures old(sent) <= sent <= EncodeAll(accepted)
    {
      var k := 0;
      assert events[..0] == [];
      while k < |events|
        invariant k <= |events| && Valid() && Mirrors(Run(s, events[..k])) && old(sent) <= sent
      {
        var e := events[k];
        TailAt(events, k);
        RunSnoc(s, events[..k], e);
        FollowOne(e, Run(s, events[..k]));
        k := k + 1;
      }
      assert events[..k] == events;
      SentIsFront();
    }
  }

  predicate EndsSession(packet: Packet) {
    packet.header.msgType == MSG_DISCONNECT || packet.header.msgType == MSG_HELLO
  }

  function LoopAfter(packet: Packet): Loop {
    if packet.header.msgType == MSG_PING then Ponging(PongFor(packet))
    else if EndsSession(packet) then Over
    else Serving
  }

  function TakenBy(bulk: Bulk, left: nat): nat {
    if bulk.Timeout? then 0 else Min(bulk.n, left)
  }

  lemma PacketFields(s: State, packet: Packet)
    requires s.loop.Serving?
    ensures var t := OnPacket(s, packet);
            && t.loop == LoopAfter(packet) && t.closed == (s.closed || EndsSession(packet))
            && t.frameSeq == s.frameSeq && t.channel == s.channel && t.worker == s.worker && t.accepted == s.accepted
  {
  }

  lemma BulkFields(s: State, bulk: Bulk)
    requires s.worker.Writing? && s.worker.written < |s.worker.data|
    ensures var t, data, w := OnBulk(s, bulk), s.worker.data, s.worker.written;
            var m := TakenBy(bulk, |data| - w);
            && t.worker == (if bulk.Error? then Stopped(data[w..][m..]) else Writing(data, w + m))
            && t.closed == (s.closed || bulk.Error?)
            && t.loop == s.loop && t.frameSeq == s.frameSeq && t.channel == s.channel && t.accepted == s.accepted
  {
  }

  lemma ClientLeavesHostAlone(s: State, e: Event)
    requires e.Refill? || e.ReadByte?
    ensures var t := Step(s, e);
            && t.loop == s.loop && t.frameSeq == s.frameSeq && t.channel == s.channel && t.worker == s.worker
            && t.closed == s.closed && t.accepted == s.accepted
  {
  }
}
