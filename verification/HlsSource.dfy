/** From published packets to segments: tag headers off, H.264 to Annex B, AAC behind ADTS headers. */
module HlsSource {
  import opened Bytes
  import opened Options
  import opened Buffers
  import opened Av
  import AnnexB
  import Adts
  import opened HlsSpec
  import HlsMedia
  import HlsRun

  /** What the parsers remember: stored parameter sets, and the AAC configuration. */
  datatype Codec = Codec(stored: seq<bytes>, gotAac: bool, cfg: Adts.Fitting)

  /** A packet ends the sender, is passed over, or becomes a frame. */
  datatype Parsed = Stop | Skip | Got(f: Frame)

  /** A byte stream as it is; length-prefixed units converted; anything else refused. */
  function VideoData(b: bytes, stored: seq<bytes>): Option<bytes>
  {
    if |b| >= 4 && b[..4] == AnnexB.START then Some(b)
    else if |b| >= 4 && AnnexB.SplitNals(b).fault == AnnexB.Fine then
      Some(AnnexB.Coded(AnnexB.AccessUnit(AnnexB.SplitNals(b).nals, stored)))
    else None
  }

  function ParseVideo(c: Codec, p: Packet, tag: Tag, body: bytes): (Codec, Parsed)
  {
    if tag.codecId != VIDEO_H264 then (c, Skip)
    else if tag.IsSeq() then
      match AnnexB.ReadConfig(body)
      case Bad => (c, Skip)
      case Sets(sps, pps) => (c.(stored := c.stored + [sps, pps]), Skip)
    else
      match VideoData(body, c.stored)
      case None => (c, Skip)
      case Some(data) => (c, Got(VideoFrame(tag.IsKeyFrame(), p.timestamp, tag.compositionTime, data)))
  }

  /** The length of an AAC frame at 90 kHz. */
  function FrameTime(cfg: Adts.Config): nat { 90000 * 1024 / Adts.Rate(cfg) }

  function ParseAudio(c: Codec, p: Packet, tag: Tag, body: bytes): (Codec, Parsed)
  {
    if tag.soundFormat != SOUND_AAC then (c, Skip)
    else if tag.aacPacketType == 0 then
      (if |body| < 2 then c else c.(gotAac := true, cfg := Adts.ReadSpecific(body)), Skip)
    else if tag.aacPacketType == 1 then
      if body == [] || !c.gotAac then (c, Skip)
      else (c, Got(AudioFrame(p.timestamp, FrameTime(c.cfg), Adts.Framed([Adts.Raw(c.cfg, body)]))))
    else (c, Got(AudioFrame(p.timestamp, FrameTime(c.cfg), [])))
  }

  /** An end-of-sequence tag is passed over; a header that does not parse ends the sender. */
  function Parse(c: Codec, p: Packet): (Codec, Parsed)
  {
    if p.isMetadata then (c, Skip)
    else
      match MediaTag(p.data, p.isVideo)
      case Read(tag, n) =>
        if p.isVideo && tag.codecId == VIDEO_H264 && p.data[0] == 0x17 && p.data[1] == 0x02 then (c, Skip)
        else if p.isVideo then ParseVideo(c, p, tag, p.data[n..])
        else ParseAudio(c, p, tag, p.data[n..])
      case _ => (c, Stop)
  }

  // ---------- the audio in the segments ----------

  /** The raw frame in an AAC packet, read off its bytes; none before the first configuration. */
  function RawIn(c: Codec, p: Packet): seq<Adts.Raw>
  {
    if !p.isMetadata && !p.isVideo && |p.data| > 2 && p.data[0] / 16 == SOUND_AAC && p.data[1] == 1 && c.gotAac
    then [Adts.Raw(c.cfg, p.data[2..])]
    else []
  }

  /**
   * The sender after a list of packets: what its parsers remember, the frames it made, the raw AAC
   * frames published from the first key frame on, and whether a header that does not parse ended it.
   */
  datatype Sender = Sender(codec: Codec, frames: seq<Frame>, raws: seq<Adts.Raw>, stopped: bool)

  const FRESH: Codec := Codec([], false, Adts.Config(0, 0, 0))

  function Sending(ps: seq<Packet>): Sender
  {
    if ps == [] then Sender(FRESH, [], [], false) else Sent(Sending(ps[..|ps| - 1]), ps[|ps| - 1])
  }

  function Sent(s: Sender, p: Packet): Sender
  {
    if s.stopped then s
    else
      var (c, r) := Parse(s.codec, p);
      var frames := if r.Got? then s.frames + [r.f] else s.frames;
      Sender(c, frames, if HlsMedia.Accepted(frames) == [] then [] else s.raws + RawIn(s.codec, p), r.Stop?)
  }

  lemma SendingSnoc(ps: seq<Packet>, p: Packet)
    ensures Sending(ps + [p]) == Sent(Sending(ps), p)
  {
    assert (ps + [p])[..|ps|] == ps;
  }

  /** The audio bytes a packet gives are its raw frame behind a header. */
  lemma AudioParsed(c: Codec, p: Packet)
    ensures var r := Parse(c, p).1;
            Adts.Framed(RawIn(c, p)) == if r.Got? && r.f.AudioFrame? then r.f.data else []
  {
    hide ParseVideo;
    if p.isVideo { VideoOnly(c, p); }
  }

  lemma VideoOnly(c: Codec, p: Packet)
    requires p.isVideo
    ensures var r := Parse(c, p).1; r.Got? ==> r.f.VideoFrame?
  {
    hide VideoData;
  }

  lemma {:induction false} AudioSent(ps: seq<Packet>)
    ensures HlsMedia.AudioIn(HlsMedia.Accepted(Sending(ps).frames)) == Adts.Framed(Sending(ps).raws)
    ensures HlsMedia.Accepted(Sending(ps).frames) == [] ==> Sending(ps).raws == []
  {
    hide Parse, RawIn, Adts.Framed;
    if ps == [] {
      NoAudio();
    } else {
      AudioSent(ps[..|ps| - 1]);
      OneSent(Sending(ps[..|ps| - 1]), ps[|ps| - 1]);
    }
  }

  lemma NoAudio()
    ensures Adts.Framed([]) == [] && HlsMedia.AudioIn([]) == []
  {
  }

  lemma OneSent(s: Sender, p: Packet)
    requires HlsMedia.AudioIn(HlsMedia.Accepted(s.frames)) == Adts.Framed(s.raws)
    requires HlsMedia.Accepted(s.frames) == [] ==> s.raws == []
    ensures var t := Sent(s, p);
            && HlsMedia.AudioIn(HlsMedia.Accepted(t.frames)) == Adts.Framed(t.raws)
            && (HlsMedia.Accepted(t.frames) == [] ==> t.raws == [])
  {
    hide Parse, RawIn, Adts.Framed, HlsMedia.Accepted, HlsMedia.AudioIn, IsKeyFrame;
    var r := Parse(s.codec, p).1;
    NoAudio();
    AudioParsed(s.codec, p);
    OneRaw(s.codec, p);
    RawsSnoc(s.raws, RawIn(s.codec, p));
    assert Adts.Framed(s.raws) + [] == Adts.Framed(s.raws);
    if r.Got? { AcceptedSnoc(s.frames, r.f); }
  }

  lemma AcceptedSnoc(fs: seq<Frame>, f: Frame)
    ensures HlsMedia.Accepted(fs + [f]) == [] <==> HlsMedia.Accepted(fs) == [] && !IsKeyFrame(f)
    ensures HlsMedia.AudioIn(HlsMedia.Accepted(fs + [f])) ==
            HlsMedia.AudioIn(HlsMedia.Accepted(fs)) +
            if HlsMedia.Accepted(fs + [f]) == [] || f.VideoFrame? then [] else f.data
  {
    hide HlsMedia.AudioIn, IsKeyFrame;
    var a := HlsMedia.Accepted(fs);
    assert (fs + [f])[..|fs|] == fs;
    assert HlsMedia.Accepted(fs + [f]) == if a != [] || IsKeyFrame(f) then a + [f] else [];
    hide HlsMedia.Accepted;
    HlsMedia.InSnoc(a, f);
    NoAudio();
    assert HlsMedia.AudioIn(a) + [] == HlsMedia.AudioIn(a);
  }

  lemma OneRaw(c: Codec, p: Packet)
    ensures |RawIn(c, p)| <= 1
  {
  }

  lemma RawsSnoc(raws: seq<Adts.Raw>, more: seq<Adts.Raw>)
    requires |more| <= 1
    ensures Adts.Framed(raws + more) == Adts.Framed(raws) + Adts.Framed(more)
  {
    hide Adts.Framed;
    NoAudio();
    if more == [] {
      assert raws + [] == raws && Adts.Framed(raws) + [] == Adts.Framed(raws);
    } else {
      assert more == [more[0]];
      Adts.FramedSnoc(raws, more[0]);
    }
  }

  /**
   * From published packets to segments and back: the audio bytes of all segments, with those that wait,
   * split by their length fields into exactly the raw frames published from the first key frame on, if
   * and only if none of these is longer than 8184 bytes. The configuration may change on the way.
   */
  lemma AudioReadsBackIff(ps: seq<Packet>)
    ensures var audio, raws := HlsMedia.AudioSoFar(Run(Sending(ps).frames)), Sending(ps).raws;
            Adts.CameBack(Adts.SplitFrames(audio), raws) <==> forall r <- raws :: |r.data| <= 8184
  {
    hide Run, Sending, HlsMedia.AudioSoFar, HlsMedia.AudioIn, HlsMedia.Accepted, Adts.SplitFrames, Adts.CameBack;
    HlsMedia.MediaConserved(Sending(ps).frames);
    AudioSent(ps);
    Adts.FramesReadIff(Sending(ps).raws);
  }

  // ---------- what the sender leaves in the packets it was handed ----------

  /** The sender takes the tag header off a packet and puts the converted data into it. */
  function Rewritten(c: Codec, p: Packet): Packet
    requires Parse(c, p).1.Got?
  {
    p.(header := Parsed(MediaTag(p.data, p.isVideo).tag), data := Parse(c, p).1.f.data)
  }

  /** A converted picture begins with a start code, so it is no picture that anybody publishes. */
  lemma RewrittenIsForeign(c: Codec, p: Packet, d: Codec, q: Packet)
    requires p.isVideo && q.isVideo && Parse(c, p).1.Got? && Parse(d, q).1.Got?
    ensures Rewritten(c, p).data != q.data && Rewritten(c, p) != q
  {
    hide AnnexB.SplitNals, AnnexB.Picked;
    StartsWithZero(p, c);
    assert q.data[0] % 16 == VIDEO_H264;
  }

  lemma StartsWithZero(p: Packet, c: Codec)
    requires p.isVideo && Parse(c, p).1.Got?
    ensures Rewritten(c, p).data != [] && Rewritten(c, p).data[0] == 0
  {
    hide AnnexB.SplitNals, AnnexB.Picked;
  }

  // ---------- the sender ----------

  class Source {
    const h264: AnnexB.Parser
    const aac: Adts.AacParser
    const bwriter: Buffer
    const seg: HlsRun.Segmenter
    var closed: bool
    ghost var taken: seq<Packet>  // what was taken from the queue

    ghost predicate Shaped()
      reads h264, aac, seg, seg.muxer, seg.stat, seg.aligner, seg.cache, seg.tsCache
    {
      && h264.Valid() && aac.Valid() && seg.Valid() && bwriter != h264.pps
      && {this, h264, h264.pps, aac, aac.adtsHeader, bwriter} !! seg.Repr()
    }

    /** The segments are those of the packets taken so far. */
    ghost predicate Valid()
      reads this, h264, aac, seg, seg.muxer, seg.stat, seg.aligner, seg.cache, seg.tsCache, seg.btswriter
    {
      var s := Sending(taken);
      Shaped() && State() == s.codec && seg.Abs() == Run(s.frames) && closed == s.stopped
    }

    ghost function State(): Codec
      reads h264, aac
    {
      Codec(h264.stored, aac.gettedSpecific, aac.cfgInfo)
    }

    constructor ()
      ensures Valid() && taken == []
    {
      hide Sending, Run, HlsRun.Segmenter.Told, HlsRun.Segmenter.Abs;
      NothingSent();
      h264 := new AnnexB.Parser();
      aac := new Adts.AacParser();
      bwriter := new Buffer();
      seg := new HlsRun.Segmenter();
      closed, taken := false, [];
    }

    /** Converts a picture, or stores a sequence header. */
    method TakeVideo(p: Packet, tag: Tag, body: bytes) returns (r: Parsed)
      requires h264.Valid() && aac.Valid() && bwriter != h264.pps
      modifies h264, h264.pps, bwriter
      ensures h264.Valid() && (State(), r) == ParseVideo(old(State()), p, tag, body)
    {
      hide AnnexB.SplitNals, AnnexB.AccessUnit, AnnexB.Coded, AnnexB.ReadConfig;
      if tag.codecId != VIDEO_H264 { return Skip; }
      if tag.IsSeq() {
        var stored := h264.Parse(body, true, bwriter);
        assert old(h264.stored) + [] == old(h264.stored);
        return Skip;
      }
      bwriter.Reset();
      var ok := h264.Parse(body, false, bwriter);
      if !ok { return Skip; }
      OnEmpty(AnnexB.Coded(AnnexB.AccessUnit(AnnexB.SplitNals(body).nals, h264.stored)));
      OnEmpty(body);
      r := Got(VideoFrame(tag.IsKeyFrame(), p.timestamp, tag.compositionTime, bwriter.content));
    }

    lemma OnEmpty(b: bytes)
      ensures [] + b == b
    {
    }

    /** Frames raw audio, or takes its configuration. */
    method TakeAudio(p: Packet, tag: Tag, body: bytes) returns (r: Parsed)
      requires aac.Valid()
      modifies aac, aac.adtsHeader, bwriter
      ensures aac.Valid() && (State(), r) == ParseAudio(old(State()), p, tag, body)
    {
      hide Adts.Framed, Adts.ReadSpecific;
      if tag.soundFormat != SOUND_AAC { return Skip; }
      if tag.aacPacketType == 0 {
        var ok := aac.SpecificInfo(body);
        return Skip;
      }
      bwriter.Reset();
      if tag.aacPacketType == 1 {
        var ok := aac.Adts(body, bwriter);
        if !ok { return Skip; }
        OnEmpty(Adts.Framed([Adts.Raw(aac.cfgInfo, body)]));
      }
      var rate := aac.SampleRate();
      TimeIs(rate, aac.cfgInfo);
      hide FrameTime;
      r := Got(AudioFrame(p.timestamp, 90000 * 1024 / rate, bwriter.content));
    }

    /** One packet of the queue; false when the sender has ended. */
    method SendOne(p: Packet, now: nat) returns (go: bool)
      requires Valid()
      modifies this, h264, h264.pps, aac, aac.adtsHeader, bwriter, seg.Repr()
      ensures Valid() && fresh(seg.Repr() - old(seg.Repr()))
      ensures taken == old(taken) + [p] && go == !closed
    {
      hide Sending, Parse, Step, Run, HlsRun.Segmenter.Told, HlsRun.Segmenter.Abs;
      SendingSnoc(taken, p);
      if closed {
        taken := taken + [p];
        return false;
      }
      ghost var s := Sending(taken);
      taken := taken + [p];
      var r := Convert(p);
      Pass(r, now);
      go := r != Stop;
      closed := !go;
      RunSnoc(s.frames, r);
    }

    static lemma NothingSent()
      ensures Sending([]) == Sender(FRESH, [], [], false) && Run([]) == HlsSpec.START
    {
    }

    lemma RunSnoc(fs: seq<Frame>, r: Parsed)
      ensures r.Got? ==> Run(fs + [r.f]) == Step(Run(fs), r.f)
    {
      hide Step;
      if r.Got? { assert (fs + [r.f])[..|fs|] == fs; }
    }

    /** The tag header off, then the codec's parser. */
    method Convert(p: Packet) returns (r: Parsed)
      requires Shaped()
      modifies h264, h264.pps, aac, aac.adtsHeader, bwriter
      ensures Shaped() && (State(), r) == Parse(old(State()), p)
      ensures seg.Abs() == old(seg.Abs()) && seg.Repr() == old(seg.Repr())
    {
      hide ParseVideo, ParseAudio, MediaTag, HlsRun.Segmenter.Told;
      if p.isMetadata { return Skip; }
      var head := MediaTag(p.data, p.isVideo);
      if !head.Read? { return Stop; }
      HeadLength(p.data, p.isVideo);
      var tag, body := head.tag, p.data[head.n..];
      if p.isVideo && tag.codecId == VIDEO_H264 && p.data[0] == 0x17 && p.data[1] == 0x02 { return Skip; }
      if p.isVideo {
        r := TakeVideo(p, tag, body);
      } else {
        r := TakeAudio(p, tag, body);
      }
    }

    /** What was converted goes to the segments. */
    method Pass(r: Parsed, now: nat)
      requires Shaped()
      modifies seg.Repr()
      ensures Shaped() && State() == old(State()) && fresh(seg.Repr() - old(seg.Repr()))
      ensures seg.Abs() == if r.Got? then Step(old(seg.Abs()), r.f) else old(seg.Abs())
    {
      hide Step;
      if r.Got? { seg.Frame(r.f, now); }
    }

    lemma TimeIs(rate: nat, cfg: Adts.Config)
      requires rate == Adts.Rate(cfg)
      ensures 90000 * 1024 / rate == FrameTime(cfg)
    {
    }

    lemma HeadLength(b: bytes, isVideo: bool)
      ensures var t := MediaTag(b, isVideo); t.Read? ==> t.n <= |b| && (isVideo ==> |b| >= 5)
    {
    }
  }
}
