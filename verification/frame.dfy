/** The `Frame` record of `src/frame.py`: built once per packet, never changed. */
module Frames {
  import opened Bytes
  import opened Wrappers
  import opened ErrorDetection

  datatype Frame = Frame(packetNum: int, data: seq<byte>, encodingInfo: string, checksum: nat)

  /**
   * `Frame.create_frame(packet_num, data, code)`: freezes the ground-truth
   * checksum of the unmodified payload.
   */
  function CreateFrame(packetNum: int, data: seq<byte>, code: DetectionCode): (f: Frame)
    ensures f.packetNum == packetNum && f.data == data
    ensures f.encodingInfo == code.ClassName()
    ensures f.checksum == code.Checksum(data) && f.checksum < code.Bound()
  {
    Frame(packetNum, data, code.ClassName(), code.Checksum(data))
  }

  /**
   * The frozen checksum is exactly what a clean transmission of the payload
   * carries in its trailer, and a payload accepted from that transmission
   * matches the frame.
   */
  lemma FrameChecksumIsTrailer(packetNum: int, data: seq<byte>, code: DetectionCode)
    ensures var f := CreateFrame(packetNum, data, code);
      var e := code.Encode(f.data);
      e == f.data + code.ChecksumBytes(f.checksum) &&
      code.Trailer(e) == f.checksum &&
      code.Decode(e) == Some(data) && code.Checksum(code.Decode(e).value) == f.checksum
  {
    var f := CreateFrame(packetNum, data, code);
    TrailerOfChecksumBytes(code, data, f.checksum);
    DecodeEncode(code, data);
  }
}
