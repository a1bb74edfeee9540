/** Packets, and the FLV media tag headers that classify them. */
module Av {
  import opened Bytes

  const TAG_AUDIO: nat := 8
  const TAG_VIDEO: nat := 9
  const SOUND_AAC: nat := 10
  const VIDEO_H264: nat := 7

  /** What a media tag header says; fields the header does not reach are zero. */
  datatype Tag = Tag(
    soundFormat: nat, aacPacketType: nat, frameType: nat, codecId: nat, avcPacketType: nat, compositionTime: nat)
  {
    predicate IsKeyFrame() { frameType == 1 }

    predicate IsSeq() { frameType == 1 && avcPacketType == 0 }

    predicate IsAacHeader() { soundFormat == SOUND_AAC && aacPacketType == 0 }
  }

  datatype Header = NoHeader | Parsed(tag: Tag)

  datatype Packet = Packet(
    isAudio: bool, isVideo: bool, isMetadata: bool, timestamp: u32, streamId: u32, header: Header, data: bytes)
  {
    predicate IsKey() { isVideo && header.Parsed? && header.tag.IsKeyFrame() && !header.tag.IsSeq() }
  }

  /** A header and its length; an error; or an index past the end. */
  datatype TagResult = Read(tag: Tag, n: nat) | Invalid | Panic

  function AudioTag(b: bytes): TagResult
  {
    if b == [] then Invalid
    else if b[0] / 16 != SOUND_AAC then Read(Tag(b[0] / 16, 0, 0, 0, 0, 0), 1)
    else if |b| == 1 then Panic
    else Read(Tag(SOUND_AAC, b[1], 0, 0, 0, 0), 2)
  }

  function VideoTag(b: bytes): TagResult
  {
    if |b| < 5 then Invalid
    else if b[0] / 16 == 1 || b[0] / 16 == 2 then Read(Tag(0, 0, b[0] / 16, b[0] % 16, b[1], FromBE(b[2..5])), 5)
    else Read(Tag(0, 0, b[0] / 16, b[0] % 16, 0, 0), 1)
  }

  function MediaTag(b: bytes, isVideo: bool): TagResult
  {
    if isVideo then VideoTag(b) else AudioTag(b)
  }

  /** An audio tag's format is its first four bits; only AAC, format 10, has a packet type, which must be there. */
  lemma AudioTagReads(format: nat, low: nat, next: u8, data: bytes)
    requires format < 16 && low < 16
    ensures AudioTag([format * 16 + low, next] + data) ==
            if format == 10 then Read(Tag(10, next, 0, 0, 0, 0), 2) else Read(Tag(format, 0, 0, 0, 0, 0), 1)
    ensures AudioTag([format * 16 + low]) == if format == 10 then Panic else Read(Tag(format, 0, 0, 0, 0, 0), 1)
    ensures AudioTag([]) == Invalid
  {
    assert (format * 16 + low) / 16 == format;
  }

  /** A video tag's frame type and codec are four bits each; the AVC fields are read of types 1 and 2 alone. */
  lemma VideoTagReads(frame: nat, codec: nat, avc: u8, time: nat, data: bytes)
    requires frame < 16 && codec < 16 && time < 0x100_0000
    ensures VideoTag([frame * 16 + codec, avc] + BE(time, 3) + data) ==
            if frame in {1, 2} then Read(Tag(0, 0, frame, codec, avc, time), 5)
            else Read(Tag(0, 0, frame, codec, 0, 0), 1)
    ensures |data| < 5 ==> VideoTag(data) == Invalid
  {
    hide BE, FromBE;
    var b := [frame * 16 + codec, avc] + BE(time, 3) + data;
    assert b[2..5] == BE(time, 3);
    assert (frame * 16 + codec) / 16 == frame && (frame * 16 + codec) % 16 == codec;
    Pow256Values();
    BEExact(time, 3);
  }

  method ParseVideoHeader(b: bytes) returns (r: TagResult)
    ensures r == VideoTag(b)
  {
    if |b| < 5 { return Invalid; }
    var tag := Tag(0, 0, b[0] / 16, b[0] % 16, 0, 0);
    var n := 1;
    if tag.frameType == 1 || tag.frameType == 2 {
      var time: nat := 0;
      for i := 2 to 5
        invariant time == FromBE(b[2..i])
      {
        assert b[2..i + 1][..i - 2] == b[2..i];
        var x: nat := b[i];
        time := time * 256 + x;
      }
      tag := tag.(avcPacketType := b[1], compositionTime := time);
      n := 5;
    }
    r := Read(tag, n);
  }

  /** The 24 bits of a signed number. */
  function Signed24(t: int): nat
    requires -0x80_0000 <= t < 0x80_0000
  {
    if t < 0 then t + 0x100_0000 else t
  }

  /** The composition time is signed (FLV 10.1, E.4.3.1), but it is read back only when it is not negative. */
  lemma CompositionIff(t: int, key: bool, avc: u8, data: bytes)
    requires -0x80_0000 <= t < 0x80_0000
    ensures var r := VideoTag([if key then 0x17 else 0x27, avc] + BE(Signed24(t), 3) + data);
            && r == Read(Tag(0, 0, if key then 1 else 2, VIDEO_H264, avc, Signed24(t)), 5)
            && (r.tag.compositionTime == t <==> t >= 0)
  {
    hide BE, FromBE;
    var b := [if key then 0x17 else 0x27, avc] + BE(Signed24(t), 3) + data;
    assert b[2..5] == BE(Signed24(t), 3);
    Pow256Values();
    BEExact(Signed24(t), 3);
  }
}
