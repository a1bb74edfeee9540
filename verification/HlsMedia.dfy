/** What a player gets out of the segments. */
module HlsMedia {
  import opened Bytes
  import opened Options
  import opened TsSpec
  import opened HlsSpec
  import opened HlsTheorems
  import Crc32

  // ---------- no frame is lost ----------

  /** The frames from the first key frame on; earlier ones are dropped. */
  function Accepted(fs: seq<Frame>): seq<Frame>
  {
    if fs == [] then []
    else
      var a, f := Accepted(fs[..|fs| - 1]), fs[|fs| - 1];
      if a != [] || IsKeyFrame(f) then a + [f] else []
  }

  function VideoIn(fs: seq<Frame>): seq<Packet>
  {
    if fs == [] then [] else VideoIn(fs[..|fs| - 1]) + VideoFrameIn(fs[|fs| - 1])
  }

  function VideoFrameIn(f: Frame): seq<Packet>
  {
    match f case VideoFrame(key, ts, ct, data) => [Packet(true, ts, key, ct, data)] case AudioFrame(_, _, _) => []
  }

  function AudioIn(fs: seq<Frame>): bytes
  {
    if fs == [] then [] else AudioIn(fs[..|fs| - 1]) + AudioFrameIn(fs[|fs| - 1])
  }

  function AudioFrameIn(f: Frame): bytes { if f.AudioFrame? then f.data else [] }

  function VideoOf(log: seq<Out>): seq<Packet>
  {
    if log == [] then [] else VideoOf(log[..|log| - 1]) + VideoOut(log[|log| - 1])
  }

  function VideoOut(o: Out): seq<Packet> { if o.Media? && o.p.isVideo then [o.p] else [] }

  function AudioOf(log: seq<Out>): bytes
  {
    if log == [] then [] else AudioOf(log[..|log| - 1]) + AudioOut(log[|log| - 1])
  }

  function AudioOut(o: Out): bytes { if o.Media? && !o.p.isVideo then o.p.data else [] }

  lemma LogSnoc(log: seq<Out>, o: Out)
    ensures VideoOf(log + [o]) == VideoOf(log) + VideoOut(o) && AudioOf(log + [o]) == AudioOf(log) + AudioOut(o)
  {
    assert (log + [o])[..|log|] == log;
  }

  /** The media so far, with the audio that waits. */
  function VideoSoFar(s: State): seq<Packet> { VideoOf(AllLog(s)) }

  function AudioSoFar(s: State): bytes { AudioOf(AllLog(s)) + s.cache.Pending() }

  lemma EmitLogs(s: State, o: Out)
    requires s.open.Some? && s.ccs.streams.Ok()
    ensures Emit(s, o).open.Some? && AllLog(Emit(s, o)) == AllLog(s) + [o] && Emit(s, o).cache == s.cache
    ensures VideoOf(AllLog(Emit(s, o))) == VideoOf(AllLog(s)) + VideoOut(o)
    ensures AudioOf(AllLog(Emit(s, o))) == AudioOf(AllLog(s)) + AudioOut(o)
  {
    hide OutBytes, CcsAfter, VideoOf, AudioOf;
    ConcatAssoc(LogOf(s.items), s.open.value.log, [o]);
    LogSnoc(AllLog(s), o);
  }

  lemma MuxKeeps(s: State, limit: nat)
    requires s.open.Some? && s.ccs.streams.Ok() && limit > 0
    ensures VideoSoFar(MuxAudio(s, limit)) == VideoSoFar(s) && AudioSoFar(MuxAudio(s, limit)) == AudioSoFar(s)
  {
    hide Emit, VideoOf, AudioOf, AllLog;
    if s.cache.num >= limit {
      var t := s.(cache := s.cache.(num := 0));
      EmitLogs(t, Media(AudioPacket(s.cache)));
      SameLog(s, t);
      var audio := AudioOf(AllLog(s)) + s.cache.buf;
      assert audio + [] == audio && VideoOf(AllLog(s)) + [] == VideoOf(AllLog(s));
    }
  }

  lemma SameLog(s: State, t: State)
    requires s.items == t.items && s.open.Some? && t.open.Some? && s.open.value.log == t.open.value.log
    ensures AllLog(s) == AllLog(t)
  {
  }

  lemma OpenLogs(s: State)
    requires s.ccs.streams.Ok()
    ensures AllLog(Opened(s)) == LogOf(s.items) + [Tables] && Opened(s).cache == s.cache
    ensures VideoOf(AllLog(Opened(s))) == VideoOf(LogOf(s.items)) &&
            AudioOf(AllLog(Opened(s))) == AudioOf(LogOf(s.items))
  {
    hide OutBytes, CcsAfter, VideoOf, AudioOf;
    var log := LogOf(s.items);
    assert [] + [Tables] == [Tables];
    LogSnoc(log, Tables);
    assert VideoOf(log) + [] == VideoOf(log) && AudioOf(log) + [] == AudioOf(log);
  }

  /** A cut moves nothing but the waiting audio, into the segment that ends. */
  lemma CutKeeps(s: State)
    requires s.ccs.streams.Ok() && (s.open.None? ==> s.items == [])
    ensures VideoSoFar(Cut(s)) == VideoSoFar(s) && AudioSoFar(Cut(s)) == AudioSoFar(s)
  {
    hide VideoOf, AudioOf, Opened, MuxAudio;
    if s.open.None? {
      OpenLogs(s);
      assert LogOf(s.items) + [] == LogOf(s.items);
    } else if s.stat.Duration() >= DURATION {
      var t := MuxAudio(s, 1);
      MuxKeeps(s, 1);
      var items := t.items + [Item(|t.items| + 1, t.stat.Duration(), t.open.value)];
      assert items[..|t.items|] == t.items;
      OpenLogs(t.(items := items, stat := t.stat.(hasFirst := false)));
    }
  }

  lemma AddKeeps(s: State, f: Frame)
    requires s.open.Some? && s.ccs.streams.Ok()
    ensures VideoSoFar(Add(s, f)) == VideoSoFar(s) + VideoFrameIn(f) &&
            AudioSoFar(Add(s, f)) == AudioSoFar(s) + AudioFrameIn(f)
  {
    hide VideoOf, AudioOf, Emit, MuxAudio, Aligned, AllLog;
    var g := s.open.value;
    var t := s.(open := Some(g.(times := g.times + [f.ts])), stat := Updated(s.stat, f.ts));
    SameLog(s, t);
    match f {
      case VideoFrame(key, ts, ct, data) =>
        EmitLogs(t, Media(Packet(true, ts, key, ct, data)));
        assert AudioOf(AllLog(s)) + [] == AudioOf(AllLog(s)) && AudioSoFar(s) + [] == AudioSoFar(s);
      case AudioFrame(ts, inc, data) =>
        var (a, pts) := Aligned(t.align, ts * 90, inc);
        var u := t.(align := a, cache := t.cache.Add(data, pts));
        SameLog(t, u);
        MuxKeeps(u, CACHE_MAX);
        ConcatAssoc(AudioOf(AllLog(s)), s.cache.Pending(), data);
        assert [] + data == data && VideoSoFar(s) + [] == VideoSoFar(s);
    }
  }

  predicate MediaKept(s: State, fs: seq<Frame>)
  {
    && (s.open.Some? <==> Accepted(fs) != [])
    && VideoSoFar(s) == VideoIn(Accepted(fs)) && AudioSoFar(s) == AudioIn(Accepted(fs))
  }

  /**
   * From the first key frame on, every video frame is in exactly one place, in order, and the audio
   * bytes of the segments followed by those that wait are the audio bytes of the frames.
   */
  lemma {:induction false} MediaConserved(fs: seq<Frame>)
    ensures MediaKept(Run(fs), fs)
    decreases |fs|
  {
    hide VideoSoFar, AudioSoFar, Cut, Add, VideoIn, AudioIn;
    if fs == [] {
      NothingYet();
    } else {
      var s, f := Run(fs[..|fs| - 1]), fs[|fs| - 1];
      var a := Accepted(fs[..|fs| - 1]);
      MediaConserved(fs[..|fs| - 1]);
      RunFormed(fs[..|fs| - 1]);
      InSnoc(a, f);
      if IsKeyFrame(f) {
        CutKeeps(s);
        AddKeeps(Cut(s), f);
        AddOpen(Cut(s), f);
      } else if s.open.Some? {
        AddKeeps(s, f);
        AddOpen(s, f);
      }
    }
  }

  lemma AddOpen(s: State, f: Frame)
    requires s.open.Some? && s.ccs.streams.Ok()
    ensures Add(s, f).open.Some?
  {
  }

  lemma NothingYet()
    ensures MediaKept(START, [])
  {
  }

  lemma InSnoc(a: seq<Frame>, f: Frame)
    ensures VideoIn(a + [f]) == VideoIn(a) + VideoFrameIn(f) && AudioIn(a + [f]) == AudioIn(a) + AudioFrameIn(f)
  {
    assert (a + [f])[..|a|] == a;
  }

  // ---------- what a demultiplexer recovers ----------

  function MediaOf(log: seq<Out>): seq<Packet>
  {
    if log == [] then [] else (if log[0].Media? then [log[0].p] else []) + MediaOf(log[1..])
  }

  lemma RenderedFirst(o: Out, log: seq<Out>, c: Ccs)
    requires c.streams.Ok()
    ensures Rendered([o] + log, c) == OutBytes(o, c) + Rendered(log, CcsAfter(o, c))
    ensures CcsAll([o] + log, c) == CcsAll(log, CcsAfter(o, c))
  {
    hide OutBytes, CcsAfter;
    RenderedAppend([o], log, c);
    assert [o][..0] == [];
    assert Rendered([o], c) == [] + OutBytes(o, c) && [] + OutBytes(o, c) == OutBytes(o, c);
  }

  lemma TableHead(pid: nat, cc: nat, section: bytes)
    requires pid < 0x2000 && cc < 16 && |section| <= 100
    ensures TablePacket(pid, cc, section)[0] == 0x47 && Pid(TablePacket(pid, cc, section)) == pid
  {
    hide Crc32.Divide, Crc32.CrcBytes, Head;
    var rest := [0] + section + Crc32.CrcBytes(Crc32.Divide(Crc32.INIT, section)) + Fill(0xff, 179 - |section|);
    assert TablePacket(pid, cc, section) == Head(pid, true, false, cc) + rest;
    HeadReads(pid, true, false, cc, rest);
  }

  /** Tables in front of a stream are nothing to an elementary stream. */
  lemma TablesThen(c: Ccs, pid: nat, rest: bytes, cc: nat, last: nat)
    requires c.streams.Ok() && (pid == VIDEO_PID || pid == AUDIO_PID) && |rest| % PACKET == 0
    ensures |OutBytes(Tables, c) + rest| % PACKET == 0
    ensures Demux(pid, OutBytes(Tables, c) + rest) == Demux(pid, rest)
    ensures Continuous(pid, OutBytes(Tables, c) + rest, cc, last) == Continuous(pid, rest, cc, last)
  {
    hide Demux, Continuous, TablePacket, PmtSection, Pid;
    var pat, pmt := Pat(c.pat), Pmt(c.pmt, AAC, true);
    TableHead(0, TableCc(c.pat), PAT_SECTION);
    TableHead(0x1001, TableCc(c.pmt), PmtSection(AAC, true));
    ConcatAssoc(pat, pmt, rest);
    PacketThen(pid, pmt, rest, cc, last);
    PacketThen(pid, pat, pmt + rest, cc, last);
  }

  /**
   * Any stretch of a log demultiplexes to one PES unit for each packet of the stream, in order, with its
   * continuity counter stepping by one modulo 16 throughout. They are the packets' own units if and only if
   * none is a key frame too short for its clock field; audio always is right.
   */
  lemma LogIff(log: seq<Out>, c: Ccs, pid: nat)
    requires c.streams.Ok() && (pid == VIDEO_PID || pid == AUDIO_PID)
    ensures |Rendered(log, c)| % PACKET == 0 && Plays(Rendered(log, c), OfPid(MediaOf(log), pid), pid)
    ensures Continuous(pid, Rendered(log, c), c.streams.Of(pid), CcsAll(log, c).streams.Of(pid))
  {
    LogArrives(log, c, pid);
    hide Rendered, MediaOf, CcsAll, Continuous;
    PlaysIff(Rendered(log, c), MediaOf(log), pid);
  }

  /** What a receiver of a stream makes of segment data, exactly. */
  predicate Plays(data: bytes, ps: seq<Packet>, pid: nat)
    requires |data| % PACKET == 0
  {
    var g := Demux(pid, data);
    && Arrived(g, ps) && (g == Got([], Units(ps)) <==> forall p <- ps :: Recoverable(p))
    && (pid == AUDIO_PID ==> g == Got([], Units(ps)))
  }

  lemma PlaysIff(data: bytes, media: seq<Packet>, pid: nat)
    requires |data| % PACKET == 0 && Arrived(Demux(pid, data), OfPid(media, pid))
    ensures Plays(data, OfPid(media, pid), pid)
  {
    hide Demux, Unit, Arrived, Recoverable;
    OfPidHas(media, pid);
    ArrivedIff(Demux(pid, data), OfPid(media, pid));
  }

  lemma {:induction false} LogArrives(log: seq<Out>, c: Ccs, pid: nat)
    requires c.streams.Ok() && (pid == VIDEO_PID || pid == AUDIO_PID)
    ensures |Rendered(log, c)| % PACKET == 0 && Arrived(Demux(pid, Rendered(log, c)), OfPid(MediaOf(log), pid))
    ensures Continuous(pid, Rendered(log, c), c.streams.Of(pid), CcsAll(log, c).streams.Of(pid))
  {
    hide Demux, Continuous, First, Unit, Payload, FirstTakes, Mux, MuxCc, Recoverable, Rendered, CcsAll, OutBytes,
        Arrived;
    if log == [] {
      NothingRendered(c);
      EmptyStream(pid, c.streams.Of(pid));
    } else {
      var o, more := log[0], log[1..];
      assert log == [o] + more;
      var c1 := CcsAfter(o, c);
      RenderedFirst(o, more, c);
      LogArrives(more, c1, pid);
      var last := CcsAll(log, c).streams.Of(pid);
      if o == Tables {
        TablesThen(c, pid, Rendered(more, c1), c.streams.Of(pid), last);
        assert [] + MediaOf(more) == MediaOf(more);
      } else {
        MediaThen(o.p, c, pid, Rendered(more, c1), MediaOf(more), last);
        assert MediaOf(log) == [o.p] + MediaOf(more);
      }
    }
  }

  lemma NothingRendered(c: Ccs)
    requires c.streams.Ok()
    ensures Rendered([], c) == [] && CcsAll([], c) == c
  {
  }

  lemma MediaThen(p: Packet, c: Ccs, pid: nat, rest: bytes, more: seq<Packet>, last: nat)
    requires c.streams.Ok() && (pid == VIDEO_PID || pid == AUDIO_PID) && |rest| % PACKET == 0
    requires Arrived(Demux(pid, rest), OfPid(more, pid))
    ensures |OutBytes(Media(p), c) + rest| % PACKET == 0
    ensures Arrived(Demux(pid, OutBytes(Media(p), c) + rest), OfPid([p] + more, pid))
    ensures Continuous(pid, rest, CcsAfter(Media(p), c).streams.Of(pid), last) ==>
              Continuous(pid, OutBytes(Media(p), c) + rest, c.streams.Of(pid), last)
  {
    hide Demux, Continuous, First, Unit, Payload, FirstTakes, Mux, MuxCc, Recoverable, Arrived, Delivered;
    var cc := c.streams.Of(PidOf(p));
    FrameThen(p, cc, pid, rest, c.streams.Of(pid), last);
    assert ([p] + more)[1..] == more;
    if PidOf(p) == pid {
      ArrivedMore(Demux(pid, rest), OfPid(more, pid), p, NextCc(cc));
    } else {
      assert [] + OfPid(more, pid) == OfPid(more, pid);
    }
  }

  /**
   * Playing every segment in turn, and the open one: one unit for each of the stream's packets, in order,
   * right exactly where the packet is recoverable, with gapless counters.
   */
  lemma PlaybackIff(fs: seq<Frame>, pid: nat)
    requires pid == VIDEO_PID || pid == AUDIO_PID
    ensures var s := Run(fs);
            && |AllData(s)| % PACKET == 0 && Plays(AllData(s), OfPid(MediaOf(AllLog(s)), pid), pid)
            && Continuous(pid, AllData(s), 0, s.ccs.streams.Of(pid))
  {
    hide Run, Demux, Continuous, Rendered, CcsAll, AllLog, AllData, Plays;
    Conserved(fs);
    LogIff(AllLog(Run(fs)), START.ccs, pid);
  }

  /**
   * Every published segment, whatever is in it: whole packets, first of all tables that pass their check, and
   * by itself one unit for each of its packets, right exactly where the packet is recoverable.
   */
  lemma SegmentStandsAlone(fs: seq<Frame>, i: nat, pid: nat)
    requires i < |Run(fs).items| && (pid == VIDEO_PID || pid == AUDIO_PID)
    ensures var g := Run(fs).items[i].segment;
            && |g.data| % PACKET == 0 && |g.data| >= 2 * PACKET
            && g.data[..PACKET] == Pat(g.at.pat) && g.data[PACKET..2 * PACKET] == Pmt(g.at.pmt, AAC, true)
            && Crc32.Divide(Crc32.INIT, SectionOf(g.data[..PACKET])) == 0
            && Crc32.Divide(Crc32.INIT, SectionOf(g.data[PACKET..2 * PACKET])) == 0
            && Plays(g.data, OfPid(MediaOf(g.log), pid), pid)
  {
    hide Run, Demux, Continuous, Rendered, CcsAll, Pat, Pmt, SectionOf, Crc32.Divide, Chain, Plays;
    var s := Run(fs);
    var g := s.items[i].segment;
    RunTraced(fs);
    RunFormed(fs);
    TiedAt(s, i);
    LogIff(g.log, g.at, pid);
    assert g.log == [Tables] + g.log[1..];
    RenderedFirst(Tables, g.log[1..], g.at);
    TablesCheck(g.at.pat, AAC, true);
    TablesCheck(g.at.pmt, AAC, true);
    TablesInFront(Pat(g.at.pat), Pmt(g.at.pmt, AAC, true), Rendered(g.log[1..], CcsAfter(Tables, g.at)));
  }

  lemma TablesInFront(pat: bytes, pmt: bytes, rest: bytes)
    requires |pat| == |pmt| == PACKET
    ensures (pat + pmt + rest)[..PACKET] == pat && (pat + pmt + rest)[PACKET..2 * PACKET] == pmt
  {
  }

  lemma TiedAt(s: State, i: nat)
    requires Traced(s) && i < |s.items|
    ensures var g := s.items[i].segment; g.at.streams.Ok() && g.data == Rendered(g.log, g.at)
  {
    hide Rendered, CcsAll;
    ChainAt(s.items, s.open.value.at, i);
  }

  lemma {:induction false} ChainAt(items: seq<Item>, c: Ccs, i: nat)
    requires Chain(items, c) && i < |items|
    ensures var g := items[i].segment; g.at.streams.Ok() && g.data == Rendered(g.log, g.at)
    decreases |items|
  {
    hide Rendered, CcsAll;
    if i < |items| - 1 { ChainAt(items[..|items| - 1], items[|items| - 1].segment.at, i); }
  }

  // ---------- audio times ----------

  /** Alignment moves a time by at most two milliseconds. */
  lemma AlignedNear(a: Align, dts: nat, inc: nat)
    ensures var t := Aligned(a, dts, inc).1; dts - SYNC <= t <= dts + SYNC
  {
  }

  /** The times at which frames that came at `ts` go out. */
  function AlignedAll(a: Align, ts: seq<nat>, inc: nat): (r: (Align, seq<nat>))
    ensures |r.1| == |ts|
  {
    if ts == [] then (a, [])
    else
      var (b, out) := AlignedAll(a, ts[..|ts| - 1], inc);
      var (c, t) := Aligned(b, ts[|ts| - 1], inc);
      (c, out + [t])
  }

  /**
   * A frame more than two milliseconds (180 at 90 kHz) off its place goes out when it came and starts a grid; the
   * frames behind it go out exactly on the grid as long as each came within two milliseconds of its place.
   */
  lemma {:induction false} GridKept(a: Align, ts: seq<nat>, inc: nat)
    requires ts != [] && !Near(ts[0], a.frameBase + a.frameNum * inc)
    requires forall k :: 1 <= k < |ts| ==> Near(ts[k], ts[0] + k * inc)
    ensures AlignedAll(a, ts, inc).0 == Align(|ts|, ts[0])
    ensures forall k :: 0 <= k < |ts| ==> AlignedAll(a, ts, inc).1[k] == ts[0] + k * inc
  {
    var n := |ts| - 1;
    var out := AlignedAll(a, ts[..n], inc);
    if n == 0 {
      assert out == (a, []);
    } else {
      assert forall k :: 1 <= k < n ==> ts[..n][k] == ts[k];
      GridKept(a, ts[..n], inc);
      assert Near(ts[n], ts[0] + n * inc);
    }
  }

  predicate Near(t: nat, place: nat) { t - 180 <= place <= t + 180 }

  /** A group of audio frames goes out within two milliseconds of its first frame, if that fits 32 bits. */
  lemma AudioTime(a: Align, ts: u32, inc: nat, c: AudioCache, data: bytes)
    requires c.num == 0 && ts + 2 < MOD32
    ensures var t: nat, at: nat := AudioPacket(c.Add(data, Aligned(a, ts * 90, inc).1)).timeStamp, ts;
            at - 2 <= t <= at + 2
  {
    var x: nat := ts;
    AlignedNear(a, x * 90, inc);
    var pts := Aligned(a, x * 90, inc).1;
    assert x - 2 <= pts / 90 <= x + 2;
  }
}
