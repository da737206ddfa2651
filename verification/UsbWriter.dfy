// The host's USB write side: a packet is pushed out by bulk transfers that may
// take only part of it, and the first hard error closes the stream for good.
module UsbWriter {
  import opened Bytes
  import opened Packets
  import opened Scanning
  import opened Seqs
  import opened Window

  // What one bulk write does with the bytes offered to it: takes at most n of
  // them, times out with none taken, or fails after at most n.
  datatype Bulk = Taken(n: nat) | Timeout | Error(n: nat)

  datatype Status = Done | Failed | StillWriting

  // The write loop has no bound on its retries, so a run is followed for as many
  // bulk writes as are given; StillWriting is a run that is not over yet.
  datatype Transfer = Transfer(status: Status, written: nat)

  function Min(a: nat, b: nat): nat {
    if a <= b then a else b
  }

  function TransferOf(length: nat, written: nat, bulks: seq<Bulk>): (t: Transfer)
    requires written <= length
    ensures written <= t.written <= length
    ensures t.status.Done? <==> t.written == length && !t.status.Failed?
    decreases |bulks|
  {
    if written == length then Transfer(Done, written)
    else if bulks == [] then Transfer(StillWriting, written)
    else
      match bulks[0]
      case Taken(n) => TransferOf(length, written + Min(n, length - written), bulks[1..])
      case Timeout => TransferOf(length, written, bulks[1..])
      case Error(n) => Transfer(Failed, written + Min(n, length - written))
  }

  // The bytes that the bulk writes would take of an endless packet.
  function TakenIn(bulks: seq<Bulk>): nat {
    if bulks == [] then 0 else (if bulks[0].Taken? then bulks[0].n else 0) + TakenIn(bulks[1..])
  }

  // Timeouts do not count: a transfer without an error is done once its bulk writes have
  // taken the length of the packet, and the first error before that ends it.
  lemma {:induction false} TransferAddsUp(length: nat, written: nat, bulks: seq<Bulk>, n: nat, more: seq<Bulk>)
    requires written <= length && forall b <- bulks :: !b.Error?
    ensures var total := written + TakenIn(bulks);
            && TransferOf(length, written, bulks)
               == (if total < length then Transfer(StillWriting, total) else Transfer(Done, length))
            && TransferOf(length, written, bulks + ([Error(n)] + more))
               == (if total + n < length then Transfer(Failed, total + n)
                   else Transfer(if total < length then Failed else Done, length))
    decreases |bulks|
  {
    if bulks == [] {
      Unit([Error(n)] + more);
    } else if written < length {
      assert bulks[0] in bulks && forall b <- bulks[1..] :: b in bulks;
      DropWithin(bulks, [Error(n)] + more, 1);
      var m := if bulks[0].Taken? then Min(bulks[0].n, length - written) else 0;
      TransferAddsUp(length, written + m, bulks[1..], n, more);
      assert (bulks + ([Error(n)] + more))[0] == bulks[0];
    }
  }

  // A whole run of the write worker: packets written in full, and how much of the
  // next one if a write did not end well.
  datatype Worked = Worked(complete: nat, partial: nat, status: Status)

  function WorkOf(packets: seq<Packet>, bulks: seq<seq<Bulk>>): (w: Worked)
    requires |bulks| == |packets|
    ensures w.complete <= |packets|
    ensures w.complete == |packets| <==> w.status.Done?
    ensures w.complete < |packets| ==> w.partial <= Size(packets[w.complete])
  {
    if packets == [] then Worked(0, 0, Done)
    else
      var t := TransferOf(Size(packets[0]), 0, bulks[0]);
      if t.status.Done? then
        var tail := WorkOf(packets[1..], bulks[1..]);
        tail.(complete := 1 + tail.complete)
      else
        Worked(0, t.written, t.status)
  }

  lemma WorkStep(packets: seq<Packet>, bulks: seq<seq<Bulk>>, i: nat)
    requires |bulks| == |packets| && i < |packets|
    ensures var t := TransferOf(Size(packets[i]), 0, bulks[i]);
            var work, tail := WorkOf(packets[i..], bulks[i..]), WorkOf(packets[i + 1..], bulks[i + 1..]);
            work == if t.status.Done? then tail.(complete := 1 + tail.complete) else Worked(0, t.written, t.status)
  {
    TailAt(packets, i);
    TailAt(bulks, i);
  }

  class UsbAccessoryStream {
    var isClosed: bool
    var wire: seq<byte>

    constructor ()
      ensures !isClosed && wire == []
    {
      isClosed, wire := false, [];
    }

    // Exactly once: Done means the wire grew by the whole packet, any other result
    // that it grew by a prefix; a failure closes the stream, and a closed stream
    // takes nothing.
    method WritePacketSync(data: seq<byte>, bulks: seq<Bulk>) returns (status: Status)
      modifies this
      ensures old(isClosed) ==> status == Failed && isClosed && wire == old(wire)
      ensures !old(isClosed) ==>
                var t := TransferOf(|data|, 0, bulks);
                && status == t.status
                && wire == old(wire) + data[..t.written]
                && (isClosed <==> status == Failed)
    {
      if isClosed {
        return Failed;
      }
      ghost var before := wire;
      var written, i := 0, 0;
      Unit(wire);
      while written < |data|
        invariant written <= |data| && i <= |bulks| && !isClosed
        invariant wire == before + data[..written]
        invariant TransferOf(|data|, written, bulks[i..]) == TransferOf(|data|, 0, bulks)
        decreases |bulks| - i
      {
        if i == |bulks| {
          return StillWriting;
        }
        assert bulks[i..][1..] == bulks[i + 1..];
        match bulks[i] {
          case Taken(n) =>
            var taken := Min(n, |data| - written);
            SplitTake(data, written, taken);
            Assoc(before, data[..written], data[written..][..taken]);
            wire := wire + data[written..][..taken];
            written := written + taken;
          case Timeout =>
          case Error(n) =>
            var taken := Min(n, |data| - written);
            SplitTake(data, written, taken);
            Assoc(before, data[..written], data[written..][..taken]);
            wire := wire + data[written..][..taken];
            isClosed := true;
            return Failed;
        }
        i := i + 1;
      }
      status := Done;
    }

    // The write worker: packets in channel order until the channel is closed or a
    // write fails. bulks[k] are the bulk writes made for the k-th packet.
    method Work(packets: seq<Packet>, bulks: seq<seq<Bulk>>) returns (ghost w: Worked)
      requires |bulks| == |packets| && !isClosed
      modifies this
      ensures w == WorkOf(packets, bulks)
      ensures wire == old(wire) + EncodeAll(packets[..w.complete])
                      + if w.complete < |packets| then Encode(packets[w.complete])[..w.partial] else []
      ensures isClosed <==> w.status.Failed?
    {
      w := WorkOf(packets, bulks);
      ghost var before := wire;
      var i := 0;
      assert packets[..0] == [];
      Unit(wire);
      while i < |packets|
        invariant i <= |packets| && !isClosed
        invariant wire == before + EncodeAll(packets[..i])
        invariant var tail := WorkOf(packets[i..], bulks[i..]);
                  w == tail.(complete := i + tail.complete)
      {
        WorkStep(packets, bulks, i);
        var data := EncodePacket(packets[i]);
        var status := WritePacketSync(data, bulks[i]);
        if status != Done {
          return;
        }
        OneMoreWritten(before, packets, i);
        i := i + 1;
      }
      Unit(wire);
    }
  }

  lemma OneMoreWritten(wire: seq<byte>, packets: seq<Packet>, i: nat)
    requires i < |packets|
    ensures var data := Encode(packets[i]);
            && data[..|data|] == data
            && (wire + EncodeAll(packets[..i])) + data == wire + EncodeAll(packets[..i + 1])
  {
    var data := Encode(packets[i]);
    Cut(data, |data|);
    Unit(data);
    TailAt(packets, i);
    EncodeAllSnoc(packets[..i], packets[i]);
    Assoc(wire, EncodeAll(packets[..i]), data);
  }

  lemma SplitTake(s: seq<byte>, n: nat, m: nat)
    requires n + m <= |s|
    ensures s[..n] + s[n..][..m] == s[..n + m]
  {
  }

  // Part of a packet's encoding is no packet and no bad header yet.
  lemma CutEncodingIsIncomplete(p: Packet, c: seq<byte>)
    requires WellFormed(p) && c <= Encode(p) && |c| < Size(p)
    ensures Look(c).NeedMore? && WindowRead(c).Eof?
  {
    var e := Encode(p);
    Unit(e);
    LookAtEncoded(p, []);
    if !Look(c).NeedMore? {
      assert c == e[..|c|];
      Cut(e, |c|);
      LookIsStable(c, e[|c|..]);
      assert Look(c) == Complete(p);
      CompletePacketIsPrefix(c);
      assert false;
    }
    WindowReadAfterGarbage([], p, []);
    WindowReadIsOnline(e, c);
  }

  // A wire cut off inside a packet delivers every packet before it and nothing
  // else, to both kinds of receiver.
  lemma CutWireDeliversWholePackets(ps: seq<Packet>, p: Packet, cut: nat)
    requires AllWellFormed(ps) && WellFormed(p) && cut < Size(p)
    ensures var c := Encode(p)[..cut];
            && Scan(EncodeAll(ps) + c) == Scanned(ps, c)
            && ReadAll(EncodeAll(ps) + c) == Session(AllAsClient(ps), c, false)
  {
    var c := Encode(p)[..cut];
    CutEncodingIsIncomplete(p, c);
    ScanOfEncodings(ps, c);
    Unit(ps);
    ReadAllOfEncodings(ps);
    ReadAllAppend(EncodeAll(ps), c);
    Unit(c);
    Unit(AllAsClient(ps));
  }
}
