// An encoded frame as the host's encoder hands it out.
module VideoFrames {
  import opened Bytes

  datatype VideoFrame = VideoFrame(isKeyframe: bool, data: seq<byte>)
}
