// The chain of references behind a polled frame, over positions among the frames
// that the encoder produced.
module ReferenceChain {
  import opened VideoFrames

  // The decoder can show the frame polled k-th: it is a keyframe, or it comes directly
  // after the frame produced just before it, and the decoder could show that one.
  ghost predicate Shows(produced: seq<VideoFrame>, places: seq<int>, k: nat) {
    && k < |places| && 0 <= places[k] < |produced|
    && (produced[places[k]].isKeyframe
        || (k > 0 && places[k] == places[k - 1] + 1 && Shows(produced, places, k - 1)))
  }

  // Every frame from j up to and with m was kept on the way.
  ghost predicate AllKept(kept: seq<bool>, j: nat, m: int) {
    m < |kept| && forall n | j <= n <= m :: kept[n]
  }

  // A keyframe was kept, and every frame from there to this one.
  ghost predicate KeptSinceKeyframe(produced: seq<VideoFrame>, kept: seq<bool>, m: int) {
    exists j: nat | j <= m :: j < |produced| && produced[j].isKeyframe && AllKept(kept, j, m)
  }

  // One link: the frame polled k-th was kept, and if it is a P-frame it comes directly
  // after the frame produced before it exactly when that one was kept.
  ghost predicate Link(produced: seq<VideoFrame>, kept: seq<bool>, places: seq<int>, k: nat) {
    && k < |places| && 0 <= places[k] < |produced| == |kept| && kept[places[k]]
    && (!produced[places[k]].isKeyframe && places[k] > 0 ==>
          (kept[places[k] - 1] <==> k > 0 && places[k - 1] == places[k] - 1))
  }

  lemma ExtendsKept(produced: seq<VideoFrame>, kept: seq<bool>, m: int)
    requires KeptSinceKeyframe(produced, kept, m) && m + 1 < |kept| && kept[m + 1]
    ensures KeptSinceKeyframe(produced, kept, m + 1)
  {
    var j: nat :| j <= m && j < |produced| && produced[j].isKeyframe && AllKept(kept, j, m);
    assert AllKept(kept, j, m + 1);
  }

  // A kept P-frame has a kept predecessor.
  lemma KeptBefore(produced: seq<VideoFrame>, kept: seq<bool>, m: nat)
    requires KeptSinceKeyframe(produced, kept, m) && m < |produced| && !produced[m].isKeyframe
    ensures m > 0 && kept[m - 1] && KeptSinceKeyframe(produced, kept, m - 1)
  {
    var j: nat :| j <= m && j < |produced| && produced[j].isKeyframe && AllKept(kept, j, m);
    assert AllKept(kept, j, m - 1);
  }

  // Link by link, the decoder can show a frame if and only if a keyframe and every
  // frame from there to this one were kept.
  lemma {:induction false} ShowsIffKept(produced: seq<VideoFrame>, kept: seq<bool>, places: seq<int>, k: nat)
    requires forall i: nat | i <= k :: Link(produced, kept, places, i)
    ensures k < |places| && (Shows(produced, places, k) <==> KeptSinceKeyframe(produced, kept, places[k]))
  {
    assert Link(produced, kept, places, k);
    var m := places[k];
    if produced[m].isKeyframe {
      assert AllKept(kept, m, m);
    } else {
      if k > 0 {
        ShowsIffKept(produced, kept, places, k - 1);
      }
      if Shows(produced, places, k) {
        ExtendsKept(produced, kept, m - 1);
      }
      if KeptSinceKeyframe(produced, kept, m) {
        KeptBefore(produced, kept, m);
      }
    }
  }

  // ----- where links come from -----

  // Rising positions, and up to each of them they are all the kept ones.
  ghost predicate Enumerates(origins: seq<nat>, kept: seq<bool>) {
    && (forall i, j | 0 <= i < j < |origins| :: origins[i] < origins[j])
    && (forall j | 0 <= j < |origins| :: origins[j] < |kept| && kept[origins[j]])
    && (forall m, j | 0 <= j < |origins| && 0 <= m < origins[j] && kept[m] :: m in origins)
  }

  function PlaceOf(origins: seq<nat>, j: nat): int {
    if j < |origins| then origins[j] else -1
  }

  // The produced positions of the frames polled; -1 stands for none.
  function Places(origins: seq<nat>, polled: seq<nat>): (places: seq<int>)
    ensures |places| == |polled|
  {
    seq(|polled|, k requires 0 <= k < |polled| => PlaceOf(origins, polled[k]))
  }

  // What the frame buffer guarantees of the frame polled k-th, turned into a link.
  lemma ContinuityIsLink(produced: seq<VideoFrame>, kept: seq<bool>, origins: seq<nat>, polled: seq<nat>, k: nat)
    requires |kept| == |produced| && Enumerates(origins, kept)
    requires k < |polled| && polled[k] < |origins|
    requires polled[k] > 0 && !produced[origins[polled[k]]].isKeyframe ==> k > 0 && polled[k - 1] == polled[k] - 1
    ensures Link(produced, kept, Places(origins, polled), k)
  {
    var m, places := origins[polled[k]], Places(origins, polled);
    if m > 0 && kept[m - 1] {
      assert m - 1 in origins;
    }
  }
}
