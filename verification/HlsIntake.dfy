/** What the HLS sender makes of a packet, told from the packet's bytes. */
module HlsIntake {
  import opened Bytes
  import opened Options
  import opened HlsSpec
  import opened HlsSource
  import opened HlsPictures
  import HlsMedia
  import Av
  import AnnexB
  import Adts

  /** A tag header that does not parse: fewer than five bytes of video, no audio, or an AAC tag without its type. */
  predicate Unreadable(p: Av.Packet)
  {
    && !p.isMetadata
    && if p.isVideo then |p.data| < 5 else p.data == [] || (|p.data| == 1 && p.data[0] / 16 == 10)
  }

  /** H.264 with a tag header that parses. */
  predicate Avc(p: Av.Packet) { !p.isMetadata && p.isVideo && |p.data| >= 5 && p.data[0] % 16 == 7 }

  /** Neither a sequence header nor an end of sequence. */
  predicate AvcPicture(p: Av.Packet) { Avc(p) && !(p.data[0] == 0x17 && p.data[1] in {0, 2}) }

  /** Behind five bytes of header in key frames and inter frames, one in any other frame. */
  function PictureBody(p: Av.Packet): bytes
    requires Avc(p)
  {
    if p.data[0] / 16 in {1, 2} then p.data[5..] else p.data[1..]
  }

  predicate IsStream(body: bytes) { |body| >= 4 && body[..4] == [0, 0, 0, 1] }

  /** Units behind four-byte lengths, and not nothing. */
  ghost predicate IsUnits(body: bytes, ns: seq<bytes>)
  {
    ns != [] && (forall n <- ns :: 0 < |n| < 0x1_0000_0000) && body == AnnexB.JoinNals(ns)
  }

  predicate Aac(p: Av.Packet) { !p.isMetadata && !p.isVideo && |p.data| >= 2 && p.data[0] / 16 == 10 }

  /** The sender ends at exactly the packets whose header does not parse. */
  lemma StopIff(c: Codec, p: Av.Packet)
    ensures Parse(c, p).1 == Stop <==> Unreadable(p)
  {
    hide ParseVideo, ParseAudio;
    VideoNeverStops(c, p);
  }

  lemma VideoNeverStops(c: Codec, p: Av.Packet)
    ensures forall tag, body :: ParseVideo(c, p, tag, body).1 != Stop && ParseAudio(c, p, tag, body).1 != Stop
  {
    hide VideoData, FrameTime, AnnexB.ReadConfig;
  }

  /** A picture reaches the segments exactly if it is a byte stream or made of units; it keeps its time and kind. */
  lemma PictureIff(c: Codec, p: Av.Packet)
    ensures var r := Parse(c, p).1;
            && (r.Got? && r.f.VideoFrame? <==>
                AvcPicture(p) && (IsStream(PictureBody(p)) || exists ns :: IsUnits(PictureBody(p), ns)))
            && (r.Got? && r.f.VideoFrame? ==>
                && r.f.key == (p.data[0] / 16 == 1) && r.f.ts == p.timestamp
                && r.f.compositionTime == if p.data[0] / 16 in {1, 2} then FromBE(p.data[2..5]) else 0)
  {
    hide VideoData, FromBE, FrameTime, AnnexB.ReadConfig, IsStream, IsUnits;
    if Avc(p) { DataIff(PictureBody(p), c.stored); }
  }

  lemma DataIff(body: bytes, stored: seq<bytes>)
    ensures VideoData(body, stored).Some? <==> IsStream(body) || exists ns :: IsUnits(body, ns)
  {
    hide AnnexB.SplitNals, AnnexB.Coded, AnnexB.AccessUnit, AnnexB.JoinNals;
    UnitsIff(body);
  }

  lemma UnitsIff(body: bytes)
    ensures |body| >= 4 && AnnexB.SplitNals(body).fault == AnnexB.Fine <==> exists ns :: IsUnits(body, ns)
  {
    hide AnnexB.SplitNals, AnnexB.JoinNals;
    if |body| >= 4 && AnnexB.SplitNals(body).fault == AnnexB.Fine {
      AnnexB.JoinSplit(body);
      NothingJoined();
      assert IsUnits(body, AnnexB.SplitNals(body).nals);
    }
    forall ns | IsUnits(body, ns) ensures |body| >= 4 && AnnexB.SplitNals(body).fault == AnnexB.Fine {
      AnnexB.SplitJoin(ns);
      SomethingJoined(ns);
    }
  }

  lemma NothingJoined()
    ensures AnnexB.JoinNals([]) == []
  {
  }

  lemma SomethingJoined(ns: seq<bytes>)
    requires ns != []
    ensures |AnnexB.JoinNals(ns)| >= 4
  {
  }

  /** The bytes of a picture: a byte stream as it is, units converted with the parameter sets stored so far. */
  lemma PictureBytes(c: Codec, p: Av.Packet, ns: seq<bytes>)
    requires AvcPicture(p)
    ensures IsStream(PictureBody(p)) ==>
              var r := Parse(c, p).1; r.Got? && r.f.VideoFrame? && r.f.data == PictureBody(p)
    ensures !IsStream(PictureBody(p)) && IsUnits(PictureBody(p), ns) ==>
              var r := Parse(c, p).1;
              r.Got? && r.f.VideoFrame? && r.f.data == AnnexB.Coded(AnnexB.AccessUnit(ns, c.stored))
  {
    hide AnnexB.SplitNals, AnnexB.Coded, AnnexB.AccessUnit, AnnexB.JoinNals, FromBE, FrameTime, AnnexB.ReadConfig;
    if IsUnits(PictureBody(p), ns) {
      AnnexB.SplitJoin(ns);
      SomethingJoined(ns);
    }
  }

  /**
   * Audio reaches the segments exactly if it is AAC, and not a configuration: raw data that is there, once a
   * configuration was, or a packet of an unknown type, which has none.
   */
  lemma SoundIff(c: Codec, p: Av.Packet)
    ensures var r := Parse(c, p).1;
            && (r.Got? && r.f.AudioFrame? <==>
                Aac(p) && (p.data[1] > 1 || (p.data[1] == 1 && |p.data| > 2 && c.gotAac)))
            && (r.Got? && r.f.AudioFrame? ==>
                && r.f.ts == p.timestamp && r.f.inc == 92160000 / Adts.Rate(c.cfg)
                && r.f.data == if p.data[1] > 1 then [] else Adts.Framed([Adts.Raw(c.cfg, p.data[2..])]))
  {
    hide ParseVideo, Adts.Framed, Adts.ReadSpecific, Adts.Rate;
    if p.isVideo { VideoOnly(c, p); }
  }

  /**
   * Sequence headers alone change what is remembered: the parameter sets of an AVC header join those stored, and
   * the configuration of an AAC header takes the place of the one before.
   */
  lemma CodecIff(c: Codec, p: Av.Packet)
    ensures var d := Parse(c, p).0;
            && d.stored ==
               c.stored
               + (if Avc(p) && p.data[0] == 0x17 && p.data[1] == 0 && AnnexB.ReadConfig(p.data[5..]).Sets? then
                    var s := AnnexB.ReadConfig(p.data[5..]); [s.sps, s.pps]
                  else [])
            && if Aac(p) && p.data[1] == 0 && |p.data| >= 4 then d.gotAac && d.cfg == Adts.ReadSpecific(p.data[2..])
               else d.gotAac == c.gotAac && d.cfg == c.cfg
  {
    hide VideoData, AnnexB.ReadConfig, Adts.ReadSpecific, Adts.Framed, FrameTime, FromBE;
    assert c.stored + [] == c.stored;
  }

  // ---------- runs ----------

  predicate AnyUnreadable(ps: seq<Av.Packet>) { exists i :: 0 <= i < |ps| && Unreadable(ps[i]) }

  lemma AnySnoc(ps: seq<Av.Packet>, p: Av.Packet)
    ensures AnyUnreadable(ps + [p]) <==> AnyUnreadable(ps) || Unreadable(p)
  {
    hide Unreadable;
    var more := ps + [p];
    if AnyUnreadable(ps) {
      var i :| 0 <= i < |ps| && Unreadable(ps[i]);
      assert Unreadable(more[i]);
    }
    if Unreadable(p) { assert Unreadable(more[|ps|]); }
  }

  /** Nothing more is taken once a header did not parse. */
  lemma {:induction false} StoppedIff(ps: seq<Av.Packet>)
    ensures Sending(ps).stopped <==> AnyUnreadable(ps)
    decreases |ps|
  {
    hide Unreadable, Parse, AnyUnreadable;
    if ps == [] {
      NoneUnreadable();
    } else {
      var k := |ps| - 1;
      StoppedIff(ps[..k]);
      StopIff(Sending(ps[..k]).codec, ps[k]);
      AnySnoc(ps[..k], ps[k]);
      assert ps[..k] + [ps[k]] == ps;
    }
  }

  lemma NoneUnreadable()
    ensures !AnyUnreadable([])
  {
  }

  /** There is something to play exactly if there is a picture. */
  lemma {:induction false} StartedIff(fs: seq<Frame>)
    ensures HlsMedia.Accepted(fs) == [] <==> HlsMedia.VideoIn(HlsMedia.Accepted(fs)) == []
    decreases |fs|
  {
    hide HlsMedia.VideoIn, HlsMedia.Accepted;
    if fs == [] {
      NoVideo();
    } else {
      var k := |fs| - 1;
      StartedIff(fs[..k]);
      AcceptedVideo(fs[..k], fs[k]);
      assert fs[..k] + [fs[k]] == fs;
    }
  }

  /**
   * Every run, packet by packet: before the first key picture nothing counts, neither picture nor sound; from then
   * on every picture and all raw audio do, until a header does not parse.
   */
  lemma CountsFrom(ps: seq<Av.Packet>, p: Av.Packet)
    ensures var q := PictureIn(Sending(ps).codec, p);
            var from := Pictures(ps) != [] || (q != [] && q[0].frame.keyFrame);
            var on := from && !AnyUnreadable(ps);
            && Pictures(ps + [p]) == Pictures(ps) + (if on then q else [])
            && Sending(ps + [p]).raws == Sending(ps).raws + (if on then RawIn(Sending(ps).codec, p) else [])
  {
    hide Parse, RawIn, HlsMedia.VideoIn, HlsMedia.Accepted, AnyUnreadable, UnitsIn, Body;
    var s, t := Sending(ps), Sending(ps + [p]);
    assert (ps + [p])[..|ps|] == ps;
    StoppedIff(ps);
    SendingSnoc(ps, p);
    FramesAreVideo(ps);
    FramesAreVideo(ps + [p]);
    StartedIff(s.frames);
    StartedIff(t.frames);
    AudioSent(ps);
    AudioSent(ps + [p]);
    var r := Parse(s.codec, p).1;
    if !s.stopped && r.Got? { AcceptedVideo(s.frames, r.f); }
  }
}
