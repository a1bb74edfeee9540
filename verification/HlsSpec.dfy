/**
 * The HLS segmenter as a machine over frames: a segment is cut at a key frame once three seconds are
 * in it, and audio waits in a cache of up to six frames.
 */
module HlsSpec {
  import opened Bytes
  import opened Options
  import opened TsSpec
  import Crc32

  const DURATION: int := 3000      // milliseconds
  const CACHE_MAX: nat := 6        // audio frames
  const SYNC: nat := 180           // two milliseconds at 90 kHz
  const AAC: nat := 10

  /** A frame as it reaches the segmenter; `inc` is the length of an audio frame at 90 kHz. */
  datatype Frame =
    | VideoFrame(key: bool, ts: u32, compositionTime: nat, data: bytes)
    | AudioFrame(ts: u32, inc: nat, data: bytes)

  /** What goes into a segment: program tables, or a multiplexed packet. */
  datatype Out = Tables | Media(p: Packet)

  /** The muxer's counters: of the elementary streams and of the two tables. */
  datatype Ccs = Ccs(streams: Counters, pat: nat, pmt: nat)

  /**
   * A segment's bytes, with the counters at its start, what it is made of, and the times of the frames
   * it was open for.
   */
  datatype Segment = Segment(at: Ccs, data: bytes, log: seq<Out>, times: seq<u32>)

  datatype Item = Item(seqNum: nat, duration: int, segment: Segment)

  datatype Status = Status(hasFirst: bool, first: int, last: int)
  {
    function Duration(): int { last - first }
  }

  datatype Align = Align(frameNum: nat, frameBase: nat)

  datatype AudioCache = AudioCache(num: nat, pts: nat, buf: bytes)
  {
    /** The bytes that wait; an emptied cache keeps its buffer until the next frame. */
    function Pending(): bytes { if num == 0 then [] else buf }

    function Add(data: bytes, at: nat): AudioCache
    {
      if num == 0 then AudioCache(1, at, data) else AudioCache(num + 1, pts, buf + data)
    }
  }

  datatype State = State(
    items: seq<Item>, open: Option<Segment>, ccs: Ccs, stat: Status, align: Align, cache: AudioCache)

  const START: State :=
    State([], None, Ccs(Counters(0, 0), 0, 0), Status(false, 0, 0), Align(0, 0), AudioCache(0, 0, []))

  // ---------- the output of a log ----------

  function OutBytes(o: Out, c: Ccs): bytes
    requires c.streams.Ok()
  {
    match o
    case Tables => Pat(c.pat) + Pmt(c.pmt, AAC, true)
    case Media(p) => Mux(p, c.streams.Of(PidOf(p)))
  }

  function CcsAfter(o: Out, c: Ccs): (r: Ccs)
    requires c.streams.Ok()
    ensures r.streams.Ok()
  {
    match o
    case Tables => c.(pat := TableCc(c.pat) + 1, pmt := TableCc(c.pmt) + 1)
    case Media(p) => c.(streams := CountersAfter(c.streams, p))
  }

  function Rendered(log: seq<Out>, c: Ccs): bytes
    requires c.streams.Ok()
    decreases |log|
  {
    if log == [] then [] else Rendered(log[..|log| - 1], c) + OutBytes(log[|log| - 1], CcsAll(log[..|log| - 1], c))
  }

  function CcsAll(log: seq<Out>, c: Ccs): (r: Ccs)
    requires c.streams.Ok()
    ensures r.streams.Ok()
    decreases |log|
  {
    if log == [] then c else CcsAfter(log[|log| - 1], CcsAll(log[..|log| - 1], c))
  }

  // ---------- steps ----------

  /** Keeps audio on its frame grid while it is within two milliseconds of it. */
  function Aligned(a: Align, dts: nat, inc: nat): (r: (Align, nat))
  {
    var est := a.frameBase + a.frameNum * inc;
    var d := if est >= dts then est - dts else dts - est;
    if d <= SYNC then (a.(frameNum := a.frameNum + 1), est) else (Align(1, dts), dts)
  }

  /** Writes one output into the open segment. */
  function Emit(s: State, o: Out): State
    requires s.open.Some? && s.ccs.streams.Ok()
  {
    var g := s.open.value;
    s.(open := Some(g.(data := g.data + OutBytes(o, s.ccs), log := g.log + [o])), ccs := CcsAfter(o, s.ccs))
  }

  /** The cached audio as one packet, at the time of its first frame. */
  function AudioPacket(c: AudioCache): Packet { Packet(false, c.pts / 90 % MOD32, false, 0, c.buf) }

  function MuxAudio(s: State, limit: nat): (r: State)
    requires s.open.Some? && s.ccs.streams.Ok()
    ensures r.ccs.streams.Ok() && r.open.Some?
  {
    if s.cache.num < limit then s else Emit(s.(cache := s.cache.(num := 0)), Media(AudioPacket(s.cache)))
  }

  function Opened(s: State): State
    requires s.ccs.streams.Ok()
  {
    Emit(s.(open := Some(Segment(s.ccs, [], [], []))), Tables)
  }

  /** Nothing open: open a segment. Three seconds in it: flush the audio, publish it, open the next. */
  function Cut(s: State): (r: State)
    requires s.ccs.streams.Ok()
    ensures r.ccs.streams.Ok() && r.open.Some?
  {
    if s.open.None? then Opened(s)
    else if s.stat.Duration() >= DURATION then
      var t := MuxAudio(s, 1);
      Opened(t.(items := t.items + [Item(|t.items| + 1, t.stat.Duration(), t.open.value)],
                stat := t.stat.(hasFirst := false)))
    else s
  }

  function Updated(st: Status, ts: int): Status
  {
    Status(true, if st.hasFirst then st.first else ts, ts)
  }

  /** The frame itself, into the open segment or the audio cache. */
  function Add(s: State, f: Frame): State
    requires s.open.Some? && s.ccs.streams.Ok()
  {
    var g := s.open.value;
    var t := s.(open := Some(g.(times := g.times + [f.ts])), stat := Updated(s.stat, f.ts));
    match f
    case VideoFrame(key, ts, ct, data) => Emit(t, Media(Packet(true, ts, key, ct, data)))
    case AudioFrame(ts, inc, data) =>
      var (a, pts) := Aligned(t.align, ts * 90, inc);
      MuxAudio(t.(align := a, cache := t.cache.Add(data, pts)), CACHE_MAX)
  }

  predicate IsKeyFrame(f: Frame) { f.VideoFrame? && f.key }

  function Step(s: State, f: Frame): (r: State)
    requires s.ccs.streams.Ok()
    ensures r.ccs.streams.Ok()
  {
    var t := if IsKeyFrame(f) then Cut(s) else s;
    if t.open.None? then t else Add(t, f)
  }

  function Run(fs: seq<Frame>): (r: State)
    ensures r.ccs.streams.Ok()
    decreases |fs|
  {
    if fs == [] then START else Step(Run(fs[..|fs| - 1]), fs[|fs| - 1])
  }
}
