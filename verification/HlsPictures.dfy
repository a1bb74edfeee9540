/** From published pictures to segments and back: what a decoder sees of each, and exactly when it is right. */
module HlsPictures {
  import opened Bytes
  import opened Options
  import opened TsSpec
  import opened HlsSpec
  import opened HlsTheorems
  import opened HlsMedia
  import opened HlsSource
  import Av
  import AnnexB

  /** A picture as it is multiplexed, and its units as they were published; `streamed` if as a byte stream. */
  datatype Picture = Picture(frame: Packet, units: seq<bytes>, streamed: bool)

  /** The packet's bytes behind the tag header. */
  function Body(p: Av.Packet): bytes
  {
    match Av.VideoTag(p.data) case Read(tag, n) => (if n <= |p.data| then p.data[n..] else []) case _ => []
  }

  predicate Streamed(body: bytes) { |body| >= 4 && body[..4] == AnnexB.START }

  /** The units of a picture packet: those in front of which the parameter sets go included. */
  function UnitsIn(c: Codec, p: Av.Packet): seq<bytes>
  {
    if Streamed(Body(p)) then AnnexB.SplitStream(Body(p))
    else AnnexB.AccessUnit(AnnexB.SplitNals(Body(p)).nals, c.stored)
  }

  /** The picture in a packet, if the sender makes a frame of it. */
  function PictureIn(c: Codec, p: Av.Packet): seq<Picture>
  {
    match Parse(c, p).1
    case Got(f) => if f.VideoFrame? then [Picture(VideoFrameIn(f)[0], UnitsIn(c, p), Streamed(Body(p)))] else []
    case _ => []
  }

  /** The pictures published from the first key frame on. */
  function Pictures(ps: seq<Av.Packet>): seq<Picture>
  {
    if ps == [] then []
    else
      var s := Sending(ps[..|ps| - 1]);
      if s.stopped || Accepted(Sending(ps).frames) == [] then Pictures(ps[..|ps| - 1])
      else Pictures(ps[..|ps| - 1]) + PictureIn(s.codec, ps[|ps| - 1])
  }

  function Frames(qs: seq<Picture>): (ps: seq<Packet>)
    ensures |ps| == |qs| && forall i :: 0 <= i < |qs| ==> ps[i] == qs[i].frame
  {
    seq(|qs|, i requires 0 <= i < |qs| => qs[i].frame)
  }

  // ---------- the frames of the pictures are the video in the segments ----------

  lemma AcceptedVideo(fs: seq<Frame>, f: Frame)
    ensures Accepted(fs + [f]) == [] <==> Accepted(fs) == [] && !IsKeyFrame(f)
    ensures Accepted(fs + [f]) != [] ==> VideoIn(Accepted(fs + [f])) == VideoIn(Accepted(fs)) + VideoFrameIn(f)
  {
    hide VideoIn;
    var a := Accepted(fs);
    assert (fs + [f])[..|fs|] == fs;
    assert Accepted(fs + [f]) == if a != [] || IsKeyFrame(f) then a + [f] else [];
    hide Accepted, IsKeyFrame;
    InSnoc(a, f);
  }

  lemma {:induction false} FramesAreVideo(ps: seq<Av.Packet>)
    ensures Frames(Pictures(ps)) == VideoIn(Accepted(Sending(ps).frames))
    ensures Accepted(Sending(ps).frames) == [] ==> Pictures(ps) == []
    decreases |ps|
  {
    hide Parse, Accepted, VideoIn, UnitsIn, Body, IsKeyFrame;
    if ps == [] {
      NoVideo();
    } else {
      var front, p := ps[..|ps| - 1], ps[|ps| - 1];
      var s := Sending(front);
      FramesAreVideo(front);
      assert Sending(ps) == Sent(s, p);
      if !s.stopped {
        var r := Parse(s.codec, p).1;
        if r.Got? {
          AcceptedVideo(s.frames, r.f);
          assert Frames(PictureIn(s.codec, p)) == VideoFrameIn(r.f);
        } else {
          assert PictureIn(s.codec, p) == [];
        }
        FramesAppend(Pictures(front), PictureIn(s.codec, p));
        NoVideo();
        assert VideoIn(Accepted(s.frames)) + [] == VideoIn(Accepted(s.frames));
      }
    }
  }

  lemma NoVideo()
    ensures Accepted([]) == [] && VideoIn([]) == []
  {
  }

  lemma FramesAppend(a: seq<Picture>, b: seq<Picture>)
    ensures Frames(a + b) == Frames(a) + Frames(b)
  {
  }

  lemma {:induction false} OfPidAppend(a: seq<Packet>, b: seq<Packet>, pid: nat)
    ensures OfPid(a + b, pid) == OfPid(a, pid) + OfPid(b, pid)
  {
    if a == [] {
      assert a + b == b;
    } else {
      OfPidAppend(a[1..], b, pid);
      assert (a + b)[1..] == a[1..] + b && (a + b)[0] == a[0];
      ConcatAssoc(if PidOf(a[0]) == pid then [a[0]] else [], OfPid(a[1..], pid), OfPid(b, pid));
    }
  }

  lemma {:induction false} MediaAppend(a: seq<Out>, b: seq<Out>)
    ensures MediaOf(a + b) == MediaOf(a) + MediaOf(b)
  {
    if a == [] {
      assert a + b == b;
    } else {
      MediaAppend(a[1..], b);
      assert (a + b)[1..] == a[1..] + b && (a + b)[0] == a[0];
      ConcatAssoc(if a[0].Media? then [a[0].p] else [], MediaOf(a[1..]), MediaOf(b));
    }
  }

  lemma {:induction false} VideoIsOfPid(log: seq<Out>)
    ensures OfPid(MediaOf(log), VIDEO_PID) == VideoOf(log)
    decreases |log|
  {
    if log != [] {
      var k := |log| - 1;
      VideoIsOfPid(log[..k]);
      assert log == log[..k] + [log[k]];
      MediaAppend(log[..k], [log[k]]);
      OfPidAppend(MediaOf(log[..k]), MediaOf([log[k]]), VIDEO_PID);
      OneOut(log[k]);
    }
  }

  lemma OneOut(o: Out)
    ensures OfPid(MediaOf([o]), VIDEO_PID) == VideoOut(o)
  {
    assert [o][1..] == [];
    if o.Media? { assert [o.p][1..] == []; }
  }

  // ---------- what a decoder sees ----------

  /** A picture's bytes are its units behind start codes, or the byte stream it was published as. */
  predicate Carries(q: Picture)
  {
    if q.streamed then q.units == AnnexB.SplitStream(q.frame.data) else q.frame.data == AnnexB.Coded(q.units)
  }

  lemma PictureCarries(c: Codec, p: Av.Packet)
    ensures forall q <- PictureIn(c, p) :: Carries(q)
  {
    hide AnnexB.SplitStream, AnnexB.SplitNals, AnnexB.Picked, AnnexB.Coded, AnnexB.ReadConfig;
  }

  lemma {:induction false} PicturesCarry(ps: seq<Av.Packet>)
    ensures forall q <- Pictures(ps) :: Carries(q)
    decreases |ps|
  {
    hide PictureIn, Carries, Sending, Accepted;
    if ps != [] {
      PicturesCarry(ps[..|ps| - 1]);
      PictureCarries(Sending(ps[..|ps| - 1]).codec, ps[|ps| - 1]);
    }
  }

  /** The units a decoder cuts out of the data of a PES unit. */
  function Seen(unit: bytes): Option<seq<bytes>>
  {
    match PesData(unit) case None => None case Some(data) => Some(AnnexB.SplitStream(data))
  }

  /** No key frame too short for its clock field, and units that start codes can separate. */
  predicate Survives(q: Picture) { Recoverable(q.frame) && (q.streamed || AnnexB.Readable(q.units)) }

  lemma SeenIff(u: bytes, q: Picture)
    requires ArrivedAs(u, q.frame) && Carries(q)
    ensures Seen(u) == Some(q.units) <==> Survives(q)
  {
    hide AnnexB.SplitStream, AnnexB.Coded, AnnexB.Readable, Recoverable, PesData, Unit;
    if !q.streamed { AnnexB.StreamReadsIff(q.units); }
  }

  /**
   * For every list of published packets: the segments and what waits behind them demultiplex to one PES unit
   * for each picture from the first key frame on, in order, and cutting its data at the start codes gives
   * the picture's published units if and only if it is no key frame too short for its clock field and its
   * units are such that start codes separate them.
   */
  lemma PicturesReadBackIff(ps: seq<Av.Packet>)
    ensures var s, qs := Run(Sending(ps).frames), Pictures(ps);
            && |AllData(s)| % PACKET == 0
            && var g := Demux(VIDEO_PID, AllData(s));
               && g.loose == [] && |g.units| == |qs|
               && forall j :: 0 <= j < |qs| ==> (Seen(g.units[j]) == Some(qs[j].units) <==> Survives(qs[j]))
  {
    hide Run, Sending, Demux, AllData, AllLog, MediaOf, VideoOf, VideoIn, Accepted, Pictures, Seen, Survives;
    hide Carries, ArrivedAs;
    var fs, qs := Sending(ps).frames, Pictures(ps);
    var s := Run(fs);
    PlaybackIff(fs, VIDEO_PID);
    MediaConserved(fs);
    VideoIsOfPid(AllLog(s));
    FramesAreVideo(ps);
    PicturesCarry(ps);
    var g := Demux(VIDEO_PID, AllData(s));
    assert Arrived(g, Frames(qs));
    forall j | 0 <= j < |qs| ensures Seen(g.units[j]) == Some(qs[j].units) <==> Survives(qs[j]) {
      assert qs[j] in qs && ArrivedAs(g.units[j], Frames(qs)[j]);
      SeenIff(g.units[j], qs[j]);
    }
  }
}
