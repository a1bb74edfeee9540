/** Where segments begin and end, and what is in each, told from the frames alone. */
module HlsCuts {
  import opened Bytes
  import opened Options
  import opened TsSpec
  import opened HlsSpec
  import opened HlsTheorems
  import opened HlsMedia
  import Crc32

  // ---------- one step ----------

  lemma OpenedFacts(s: State)
    requires s.ccs.streams.Ok()
    ensures var t := Opened(s);
            && t.items == s.items && t.stat == s.stat && t.cache == s.cache && t.open.Some?
            && t.open.value.log == [Tables] && t.open.value.times == []
  {
    hide OutBytes, CcsAfter;
    assert [] + [Tables] == [Tables];
  }

  /** The waiting audio, if there is any, leaves as one packet. */
  lemma FlushFacts(s: State, limit: nat)
    requires s.ccs.streams.Ok() && s.open.Some?
    ensures var t, g := MuxAudio(s, limit), s.open.value;
            && t.items == s.items && t.stat == s.stat && t.open.Some? && t.open.value.times == g.times
            && (s.cache.num < limit ==> t.cache == s.cache && t.open.value.log == g.log)
            && (s.cache.num >= limit ==>
                t.cache.num == 0 && t.open.value.log == g.log + [Media(AudioPacket(s.cache))])
  {
    hide OutBytes, CcsAfter;
  }

  predicate IsFull(s: State) { s.open.Some? && s.stat.Duration() >= 3000 }

  /** The segment a cut publishes, and what it leaves. */
  lemma CutFacts(s: State)
    requires s.ccs.streams.Ok()
    ensures var t := Cut(s);
            && t.open.Some?
            && (s.open.Some? && !IsFull(s) ==> t == s)
            && (s.open.None? || IsFull(s) ==> t.open.value.log == [Tables] && t.open.value.times == [])
            && (s.open.None? ==> t.items == s.items && t.cache == s.cache)
            && (IsFull(s) ==>
                var g := MuxAudio(s, 1).open.value;
                t.items == s.items + [Item(|s.items| + 1, s.stat.Duration(), g)] && t.cache.num == 0)
  {
    hide Opened, MuxAudio;
    if s.open.None? {
      OpenedFacts(s);
    } else if IsFull(s) {
      var u := MuxAudio(s, 1);
      FlushFacts(s, 1);
      var it := Item(|u.items| + 1, u.stat.Duration(), u.open.value);
      OpenedFacts(u.(items := u.items + [it], stat := u.stat.(hasFirst := false)));
    }
  }

  /** The waiting audio with one more frame. */
  function WithSound(s: State, f: Frame): AudioCache
    requires f.AudioFrame?
  {
    s.cache.Add(f.data, Aligned(s.align, f.ts * 90, f.inc).1)
  }

  /** A frame added: its time, and its packet or its bytes. */
  lemma AddFacts(s: State, f: Frame)
    requires s.ccs.streams.Ok() && s.open.Some?
    ensures var t, g := Add(s, f), s.open.value;
            && t.items == s.items && t.open.Some? && t.open.value.times == g.times + [f.ts]
            && (f.VideoFrame? ==>
                && t.cache == s.cache
                && t.open.value.log == g.log + [Media(Packet(true, f.ts, f.key, f.compositionTime, f.data))])
            && (f.AudioFrame? && WithSound(s, f).num < 6 ==> t.cache == WithSound(s, f) && t.open.value.log == g.log)
            && (f.AudioFrame? && WithSound(s, f).num >= 6 ==>
                t.cache.num == 0 && t.open.value.log == g.log + [Media(AudioPacket(WithSound(s, f)))])
  {
    hide OutBytes, CcsAfter, MuxAudio, Aligned;
    var g := s.open.value;
    var u := s.(open := Some(g.(times := g.times + [f.ts])), stat := Updated(s.stat, f.ts));
    if f.AudioFrame? {
      var (a, pts) := Aligned(u.align, f.ts * 90, f.inc);
      FlushFacts(u.(align := a, cache := u.cache.Add(f.data, pts)), CACHE_MAX);
    }
  }

  // ---------- when a segment is published ----------

  /**
   * A frame publishes a segment exactly if it is a key frame, a segment is open, and at least 3000
   * milliseconds lie between that segment's first frame and its last; nothing published ever changes.
   */
  lemma PublishIff(fs: seq<Frame>, f: Frame)
    ensures var s, t := Run(fs), Run(fs + [f]);
            && s.items <= t.items && |t.items| <= |s.items| + 1
            && (|t.items| == |s.items| + 1 <==>
                f.VideoFrame? && f.key && s.open.Some? && SpansThree(s.open.value.times))
  {
    hide Add, Cut, Formed;
    var s := Run(fs);
    assert (fs + [f])[..|fs|] == fs;
    RunFormed(fs);
    if s.open.Some? { FormedClock(s); }
    if f.VideoFrame? && f.key {
      CutFacts(s);
      AddFacts(Cut(s), f);
    } else if s.open.Some? {
      AddFacts(s, f);
    }
  }

  /** At least 3000 milliseconds from the first to the last. */
  predicate SpansThree(times: seq<u32>)
  {
    times != [] && times[|times| - 1] as int - times[0] as int >= 3000
  }

  lemma FormedClock(s: State)
    requires Formed(s) && s.open.Some?
    ensures IsFull(s) <==> SpansThree(s.open.value.times)
    ensures s.open.value.times != [] && s.stat.Duration() == Span(s.open.value.times)
  {
    hide StartsRight, ItemOk;
  }

  // ---------- the tables' counters ----------

  /** The next counter of a table that was written n times. */
  predicate Turn(cc: nat, n: nat) { TableCc(cc) == n % 16 }

  /** Each segment's tables carry the segment's number, from zero, modulo 16. */
  predicate Numbered(s: State)
  {
    && (forall i :: 0 <= i < |s.items| ==> Turns(s.items[i].segment.at, i))
    && (s.open.None? ==> s.items == [] && Turns(s.ccs, 0))
    && (s.open.Some? ==> Turns(s.open.value.at, |s.items|) && Turns(s.ccs, |s.items| + 1))
  }

  predicate Turns(c: Ccs, n: nat) { Turn(c.pat, n) && Turn(c.pmt, n) }

  /** Frames do not touch the tables' counters. */
  predicate SameTables(s: State, t: State)
  {
    && s.open.Some? && t.open.Some? && t.open.value.at == s.open.value.at
    && t.ccs.pat == s.ccs.pat && t.ccs.pmt == s.ccs.pmt
  }

  lemma FlushTables(s: State, limit: nat)
    requires s.ccs.streams.Ok() && s.open.Some?
    ensures SameTables(s, MuxAudio(s, limit))
  {
    hide OutBytes, CountersAfter;
  }

  lemma AddTables(s: State, f: Frame)
    requires s.ccs.streams.Ok() && s.open.Some?
    ensures SameTables(s, Add(s, f))
  {
    hide OutBytes, CountersAfter, Aligned, MuxAudio;
    var g := s.open.value;
    var u := s.(open := Some(g.(times := g.times + [f.ts])), stat := Updated(s.stat, f.ts));
    if f.AudioFrame? {
      var (a, pts) := Aligned(u.align, f.ts * 90, f.inc);
      FlushTables(u.(align := a, cache := u.cache.Add(f.data, pts)), CACHE_MAX);
    }
  }

  lemma NextTurn(cc: nat, n: nat)
    requires Turn(cc, n)
    ensures Turn(TableCc(cc) + 1, n + 1)
  {
  }

  lemma OpenTables(s: State, n: nat)
    requires s.ccs.streams.Ok() && Turns(s.ccs, n)
    ensures var t := Opened(s); t.open.Some? && Turns(t.open.value.at, n) && Turns(t.ccs, n + 1)
  {
    hide OutBytes, Turn, TableCc;
    NextTurn(s.ccs.pat, n);
    NextTurn(s.ccs.pmt, n);
  }

  lemma CutNumbered(s: State)
    requires s.ccs.streams.Ok() && Numbered(s)
    ensures Numbered(Cut(s))
  {
    hide Opened, MuxAudio, Turns;
    if s.open.None? {
      OpenedFacts(s);
      OpenTables(s, 0);
    } else if IsFull(s) {
      var u := MuxAudio(s, 1);
      FlushFacts(s, 1);
      FlushTables(s, 1);
      SameTurns(s, u, |s.items| + 1);
      var it := Item(|u.items| + 1, u.stat.Duration(), u.open.value);
      var v := u.(items := u.items + [it], stat := u.stat.(hasFirst := false));
      OpenedFacts(v);
      OpenTables(v, |s.items| + 1);
    }
  }

  lemma SameTurns(s: State, t: State, n: nat)
    requires SameTables(s, t)
    ensures Turns(t.ccs, n) == Turns(s.ccs, n)
  {
  }

  lemma {:induction false} RunNumbered(fs: seq<Frame>)
    ensures Numbered(Run(fs))
    decreases |fs|
  {
    hide Numbered, Add, Cut;
    if fs == [] {
      StartNumbered();
    } else {
      var s, f := Run(fs[..|fs| - 1]), fs[|fs| - 1];
      RunNumbered(fs[..|fs| - 1]);
      if IsKeyFrame(f) { CutNumbered(s); }
      var t := if IsKeyFrame(f) then Cut(s) else s;
      if t.open.Some? { AddNumbered(t, f); }
    }
  }

  lemma AddNumbered(s: State, f: Frame)
    requires s.ccs.streams.Ok() && s.open.Some? && Numbered(s)
    ensures Numbered(Add(s, f))
  {
    hide Add, Turns;
    AddFacts(s, f);
    AddTables(s, f);
    SameTurns(s, Add(s, f), |s.items| + 1);
  }

  lemma StartNumbered()
    ensures Numbered(START)
  {
  }

  /** Over every run, the two tables at the head of the i-th segment have the continuity counter i modulo 16. */
  lemma TablesCount(fs: seq<Frame>, i: nat)
    requires i < |Run(fs).items|
    ensures var data := Run(fs).items[i].segment.data;
            |data| >= 376 && data[3] % 16 == i % 16 && data[191] % 16 == i % 16
  {
    hide Run, TablePacket, PmtSection;
    RunNumbered(fs);
    SegmentStandsAlone(fs, i, VIDEO_PID);
    var g := Run(fs).items[i].segment;
    assert Turns(g.at, i);
    TableCounter(0, TableCc(g.at.pat), PAT_SECTION);
    TableCounter(0x1001, TableCc(g.at.pmt), PmtSection(AAC, true));
    assert g.data[3] == g.data[..PACKET][3] && g.data[191] == g.data[PACKET..2 * PACKET][3];
  }

  lemma TableCounter(pid: nat, cc: nat, section: bytes)
    requires pid < 0x2000 && cc < 16 && |section| <= 100
    ensures TablePacket(pid, cc, section)[3] % 16 == cc
  {
    hide Crc32.Divide, Crc32.CrcBytes, Head;
    var rest := [0] + section + Crc32.CrcBytes(Crc32.Divide(Crc32.INIT, section)) + Fill(0xff, 179 - |section|);
    assert TablePacket(pid, cc, section) == Head(pid, true, false, cc) + rest;
    HeadReads(pid, true, false, cc, rest);
  }

  // ---------- what is in a segment ----------

  function Joined(xs: seq<bytes>): bytes
  {
    if xs == [] then [] else Joined(xs[..|xs| - 1]) + xs[|xs| - 1]
  }

  /** Audio frames joined by sixes, and what is over at the end. */
  function Sixes(xs: seq<bytes>): seq<bytes>
  {
    if xs == [] then [] else if |xs| <= 6 then [Joined(xs)] else [Joined(xs[..6])] + Sixes(xs[6..])
  }

  lemma JoinedSnoc(xs: seq<bytes>, x: bytes)
    ensures Joined(xs + [x]) == Joined(xs) + x && (xs == [] ==> Joined(xs) + x == x)
  {
    assert (xs + [x])[..|xs|] == xs;
  }

  lemma {:induction false} SixesSnoc(xs: seq<bytes>, x: bytes)
    ensures |xs| % 6 == 0 ==> Sixes(xs + [x]) == Sixes(xs) + [x]
    ensures |xs| % 6 != 0 ==>
              var g := Sixes(xs);
              g != [] && Sixes(xs + [x]) == g[..|g| - 1] + [g[|g| - 1] + x]
  {
    var ys := xs + [x];
    if |xs| < 6 {
      JoinedSnoc(xs, x);
    } else {
      assert ys[..6] == xs[..6] && ys[6..] == xs[6..] + [x];
      SixesSnoc(xs[6..], x);
      hide Joined;
      if |xs| == 6 { assert xs[..6] == xs; }
    }
  }

  function Sounds(fs: seq<Frame>): seq<bytes>
  {
    if fs == [] then []
    else Sounds(fs[..|fs| - 1]) + if fs[|fs| - 1].AudioFrame? then [fs[|fs| - 1].data] else []
  }

  /** The payloads of the audio packets of a log. */
  function Spoken(log: seq<Out>): seq<bytes>
  {
    if log == [] then [] else Spoken(log[..|log| - 1]) + SpokenIn(log[|log| - 1])
  }

  function SpokenIn(o: Out): seq<bytes> { if o.Media? && !o.p.isVideo then [o.p.data] else [] }

  lemma SpokenSnoc(log: seq<Out>, o: Out)
    ensures Spoken(log + [o]) == Spoken(log) + SpokenIn(o)
  {
    assert (log + [o])[..|log|] == log;
  }

  lemma SoundsSnoc(fs: seq<Frame>, f: Frame)
    ensures Sounds(fs + [f]) == Sounds(fs) + if f.AudioFrame? then [f.data] else []
  {
    assert (fs + [f])[..|fs|] == fs;
  }

  /** The segment was open for just these frames, and all their pictures are in it. */
  predicate Shown(g: Segment, fs: seq<Frame>)
  {
    && |g.times| == |fs| && (forall i :: 0 <= i < |fs| ==> g.times[i] == fs[i].ts)
    && VideoOf(g.log) == VideoIn(fs)
  }

  /** A published segment: the pictures and the sound of just these frames, sound by sixes. */
  predicate Whole(g: Segment, fs: seq<Frame>)
  {
    Shown(g, fs) && Spoken(g.log) == Sixes(Sounds(fs))
  }

  /** The open segment: fewer than six audio frames wait for its next packet. */
  predicate Holds(s: State, fs: seq<Frame>)
  {
    && s.open.Some? && Shown(s.open.value, fs)
    && s.cache.num == |Sounds(fs)| % 6
    && Spoken(s.open.value.log) + Waiting(s.cache) == Sixes(Sounds(fs))
  }

  function Waiting(c: AudioCache): seq<bytes> { if c.num == 0 then [] else [c.buf] }

  lemma NothingHeld(s: State)
    requires s.open.Some? && s.open.value.log == [Tables] && s.open.value.times == [] && s.cache.num == 0
    ensures Holds(s, [])
  {
    assert [Tables][..0] == [];
    assert VideoOf([Tables]) == [] + [] && Spoken([Tables]) == [] + [];
  }

  /** What a cut publishes has the sound that waited. */
  lemma CutWhole(s: State, fs: seq<Frame>)
    requires s.ccs.streams.Ok() && Holds(s, fs)
    ensures Whole(MuxAudio(s, 1).open.value, fs)
  {
    hide VideoOf, VideoIn, Spoken, Sixes, Sounds, MuxAudio;
    FlushFacts(s, 1);
    var log, o := s.open.value.log, Media(AudioPacket(s.cache));
    if s.cache.num >= 1 {
      SpokenSnoc(log, o);
      LogSnoc(log, o);
      assert VideoOf(log) + [] == VideoOf(log);
    } else {
      assert Spoken(log) + [] == Spoken(log);
    }
  }

  lemma TimesSnoc(g: Segment, h: Segment, fs: seq<Frame>, f: Frame)
    requires Shown(g, fs) && h.times == g.times + [f.ts]
    requires VideoOf(h.log) == VideoOf(g.log) + VideoFrameIn(f)
    ensures Shown(h, fs + [f])
  {
    hide VideoOf, VideoIn;
    InSnoc(fs, f);
  }

  lemma AddHolds(s: State, fs: seq<Frame>, f: Frame)
    requires s.ccs.streams.Ok() && Holds(s, fs)
    ensures Holds(Add(s, f), fs + [f])
  {
    hide VideoOf, VideoIn, Spoken, Sixes, Sounds, Add, Shown;
    AddFacts(s, f);
    SoundsSnoc(fs, f);
    var t := Add(s, f);
    var log := s.open.value.log;
    if f.VideoFrame? {
      var o := Media(Packet(true, f.ts, f.key, f.compositionTime, f.data));
      LogSnoc(log, o);
      SpokenSnoc(log, o);
      assert Spoken(log) + [] == Spoken(log) && Sounds(fs) + [] == Sounds(fs);
      TimesSnoc(s.open.value, t.open.value, fs, f);
    } else {
      SoundAdded(s, fs, f);
    }
  }

  lemma SoundAdded(s: State, fs: seq<Frame>, f: Frame)
    requires s.ccs.streams.Ok() && Holds(s, fs) && f.AudioFrame?
    ensures Holds(Add(s, f), fs + [f])
  {
    hide VideoOf, VideoIn, Spoken, Sixes, Sounds, Add, Shown, WithSound;
    AddFacts(s, f);
    SoundsSnoc(fs, f);
    var log, t, c := s.open.value.log, Add(s, f), WithSound(s, f);
    SoundWaits(s, fs, f);
    SoundOut(log, c);
    TimesSnoc(s.open.value, t.open.value, fs, f);
  }

  lemma SoundOut(log: seq<Out>, c: AudioCache)
    ensures Spoken(log + [Media(AudioPacket(c))]) + [] == Spoken(log) + [c.buf]
    ensures VideoOf(log + [Media(AudioPacket(c))]) == VideoOf(log) == VideoOf(log) + []
  {
    hide VideoOf, Spoken;
    SpokenSnoc(log, Media(AudioPacket(c)));
    LogSnoc(log, Media(AudioPacket(c)));
  }

  lemma SoundWaits(s: State, fs: seq<Frame>, f: Frame)
    requires Holds(s, fs) && f.AudioFrame?
    ensures var c := WithSound(s, f);
            && c.num == |Sounds(fs)| % 6 + 1
            && Spoken(s.open.value.log) + [c.buf] == Sixes(Sounds(fs) + [f.data])
  {
    hide Spoken, Sounds, Sixes, Aligned, Shown;
    WaitingMore(Spoken(s.open.value.log), s.cache, Sounds(fs), f.data, Aligned(s.align, f.ts * 90, f.inc).1);
  }

  lemma WaitingMore(done: seq<bytes>, c: AudioCache, xs: seq<bytes>, x: bytes, pts: nat)
    requires c.num == |xs| % 6 && done + Waiting(c) == Sixes(xs)
    ensures c.Add(x, pts).num == |xs| % 6 + 1 && done + [c.Add(x, pts).buf] == Sixes(xs + [x])
  {
    SixesSnoc(xs, x);
    hide Sixes;
    var g := Sixes(xs);
    if c.num == 0 {
      assert done + [] == done;
    } else {
      assert g[|g| - 1] == c.buf && g[..|g| - 1] == done;
    }
  }

  // ---------- where segments begin ----------

  /** The frames behind frame i that came before frame j last three seconds, from i on. */
  predicate ThreeFrom(fs: seq<Frame>, i: nat, j: nat)
  {
    && i < j <= |fs|
    && fs[j - 1].ts as int - fs[i].ts as int >= 3000
  }

  predicate KeyAt(fs: seq<Frame>, j: nat)
  {
    && j < |fs| && fs[j].VideoFrame? && fs[j].key
  }

  function EndOf(fs: seq<Frame>, at: seq<nat>, i: nat): nat
    requires i < |at|
  {
    if i + 1 < |at| then at[i + 1] else |fs|
  }

  /**
   * A segment from frame i to frame j: it begins with a key frame, at every other key frame in it less than three
   * seconds were there, and where it ended there were three.
   */
  predicate Stretch(fs: seq<Frame>, i: nat, j: nat, ended: bool)
  {
    && i < j <= |fs| && KeyAt(fs, i) && (ended ==> KeyAt(fs, j) && ThreeFrom(fs, i, j))
    && forall k :: i < k < j && KeyAt(fs, k) ==> !ThreeFrom(fs, i, k)
  }

  /** The frames at which segments begin: nothing before the first key frame, and then stretch after stretch. */
  predicate Begins(fs: seq<Frame>, at: seq<nat>)
  {
    && (forall j :: 0 <= j < (if at == [] then |fs| else at[0]) ==> !KeyAt(fs, j))
    && forall i :: 0 <= i < |at| ==> Stretch(fs, at[i], EndOf(fs, at, i), i + 1 < |at|)
  }

  /** What is known of the published segments and the open one. */
  predicate Segmented(s: State, fs: seq<Frame>, at: seq<nat>)
  {
    && (at == [] ==> s.open.None? && s.items == [] && s.cache.num == 0)
    && (at != [] ==> |s.items| == |at| - 1 && at[|at| - 1] < |fs| && Holds(s, fs[at[|at| - 1]..]))
    && forall i :: 0 <= i < |at| - 1 ==> Published(s.items[i], fs, at[i], EndOf(fs, at, i))
  }

  predicate Published(it: Item, fs: seq<Frame>, i: nat, j: nat)
  {
    && i < j <= |fs|
    && Whole(it.segment, fs[i..j]) && it.duration == fs[j - 1].ts as int - fs[i].ts as int
  }

  /** The beginnings before the last frame. */
  function Earlier(fs: seq<Frame>, at: seq<nat>): seq<nat>
    requires fs != []
  {
    if at != [] && at[|at| - 1] == |fs| - 1 then at[..|at| - 1] else at
  }

  lemma SameFrames(fs: seq<Frame>, n: nat)
    requires n <= |fs|
    ensures forall j :: 0 <= j < n ==> KeyAt(fs[..n], j) == KeyAt(fs, j)
    ensures forall i, j :: 0 <= i < j <= n ==> ThreeFrom(fs[..n], i, j) == ThreeFrom(fs, i, j)
  {
  }

  lemma StretchLess(fs: seq<Frame>, i: nat, j: nat, ended: bool)
    requires fs != [] && Stretch(fs, i, j, ended)
    ensures j < |fs| - 1 ==> Stretch(fs[..|fs| - 1], i, j, ended)
    ensures j == |fs| - 1 ==> Stretch(fs[..|fs| - 1], i, j, false)
    ensures j == |fs| > i + 1 ==> Stretch(fs[..|fs| - 1], i, j - 1, false)
  {
    SameFrames(fs, |fs| - 1);
    hide KeyAt, ThreeFrom;
  }

  lemma StretchMore(fs: seq<Frame>, i: nat, j: nat, ended: bool)
    requires fs != [] && Stretch(fs[..|fs| - 1], i, j, ended)
    ensures Stretch(fs, i, j, ended)
    ensures var n := |fs| - 1;
            j == n ==> Stretch(fs, i, if KeyAt(fs, n) && ThreeFrom(fs, i, n) then n else n + 1,
                               KeyAt(fs, n) && ThreeFrom(fs, i, n))
  {
    SameFrames(fs, |fs| - 1);
    hide KeyAt, ThreeFrom;
  }

  lemma BeginsEarlier(fs: seq<Frame>, at: seq<nat>)
    requires fs != [] && Begins(fs, at)
    ensures Begins(fs[..|fs| - 1], Earlier(fs, at))
  {
    var n, bt := |fs| - 1, Earlier(fs, at);
    SameFrames(fs, n);
    forall i | 0 <= i < |bt| ensures Stretch(fs[..n], bt[i], EndOf(fs[..n], bt, i), i + 1 < |bt|) {
      StretchLess(fs, at[i], EndOf(fs, at, i), i + 1 < |at|);
      StretchEnds(fs, at, i);
    }
    hide KeyAt, Stretch;
  }

  lemma StretchEnds(fs: seq<Frame>, at: seq<nat>, i: nat)
    requires i < |at| && Begins(fs, at)
    ensures at[i] < EndOf(fs, at, i) <= |fs| && (i + 1 < |at| ==> EndOf(fs, at, i) < |fs|)
    ensures i + 2 < |at| ==> EndOf(fs, at, i) < EndOf(fs, at, i + 1) < |fs|
  {
    assert Stretch(fs, at[i], EndOf(fs, at, i), i + 1 < |at|);
    if i + 2 < |at| { assert Stretch(fs, at[i + 1], EndOf(fs, at, i + 1), i + 2 < |at|); }
    hide Begins;
  }

  /** The last frame begins a segment exactly if it is a key frame and the segment before it is long enough. */
  lemma BeginsLast(fs: seq<Frame>, at: seq<nat>)
    requires fs != [] && Begins(fs, at)
    ensures var n, bt := |fs| - 1, Earlier(fs, at);
            && (bt != [] ==> bt[|bt| - 1] < n)
            && (at == bt + [n] <==> KeyAt(fs, n) && (bt == [] || ThreeFrom(fs, bt[|bt| - 1], n)))
            && (at == bt || at == bt + [n])
  {
    hide KeyAt, ThreeFrom;
    var n, bt := |fs| - 1, Earlier(fs, at);
    if at != [] {
      var k := |at| - 1;
      assert Stretch(fs, at[k], EndOf(fs, at, k), false);
      if bt != at {
        assert at == bt + [n];
        if bt != [] { assert Stretch(fs, at[k - 1], EndOf(fs, at, k - 1), true); }
      }
      hide Stretch;
    }
  }

  /** The beginnings with one more frame. */
  function Later(fs: seq<Frame>, bt: seq<nat>): seq<nat>
    requires fs != []
  {
    var n := |fs| - 1;
    if KeyAt(fs, n) && (bt == [] || ThreeFrom(fs, bt[|bt| - 1], n)) then bt + [n] else bt
  }

  lemma BeginsMore(fs: seq<Frame>, bt: seq<nat>)
    requires fs != [] && Begins(fs[..|fs| - 1], bt)
    ensures Begins(fs, Later(fs, bt))
  {
    var n, at := |fs| - 1, Later(fs, bt);
    SameFrames(fs, n);
    if bt == [] {
      assert KeyAt(fs, n) ==> Stretch(fs, n, n + 1, false);
    } else {
      forall i | 0 <= i < |at| ensures Stretch(fs, at[i], EndOf(fs, at, i), i + 1 < |at|) {
        StretchesMore(fs, bt, i);
      }
    }
    hide Stretch, KeyAt, ThreeFrom;
  }

  lemma StretchesMore(fs: seq<Frame>, bt: seq<nat>, i: nat)
    requires fs != [] && bt != [] && Begins(fs[..|fs| - 1], bt) && i < |Later(fs, bt)|
    ensures var at := Later(fs, bt); Stretch(fs, at[i], EndOf(fs, at, i), i + 1 < |at|)
  {
    var n := |fs| - 1;
    if i < |bt| {
      StretchMore(fs, bt[i], EndOf(fs[..n], bt, i), i + 1 < |bt|);
      hide Begins, Stretch, KeyAt, ThreeFrom;
    } else {
      hide Begins, ThreeFrom;
    }
  }

  /** Every list of frames has its beginnings, and no others. */
  lemma {:induction false} BeginsOnce(fs: seq<Frame>)
    ensures exists at :: Begins(fs, at)
    ensures forall at, bt :: Begins(fs, at) && Begins(fs, bt) ==> at == bt
    decreases |fs|
  {
    hide Begins;
    if fs == [] {
      BeginsNone();
    } else {
      BeginsOnce(fs[..|fs| - 1]);
      var bt :| Begins(fs[..|fs| - 1], bt);
      BeginsMore(fs, bt);
      forall at, ct | Begins(fs, at) && Begins(fs, ct) ensures at == ct {
        BeginsEarlier(fs, at);
        BeginsEarlier(fs, ct);
        BeginsLast(fs, at);
        BeginsLast(fs, ct);
      }
    }
  }

  lemma BeginsNone()
    ensures Begins([], []) && forall at :: Begins([], at) ==> at == []
  {
    forall at ensures Begins([], at) ==> at == [] {
      if at != [] { assert !Stretch([], at[0], EndOf([], at, 0), 1 < |at|); }
    }
  }

  lemma SameSlices(fs: seq<Frame>, n: nat)
    requires n <= |fs|
    ensures forall i, j :: 0 <= i <= j <= n ==> fs[..n][i..j] == fs[i..j]
  {
  }

  /** Published segments stay what they are. */
  lemma StillPublished(it: Item, fs: seq<Frame>, n: nat, i: nat, j: nat)
    requires n <= |fs| && Published(it, fs[..n], i, j)
    ensures Published(it, fs, i, j)
  {
    hide Whole;
    SameSlices(fs, n);
  }

  lemma AllStillPublished(items: seq<Item>, fs: seq<Frame>, bt: seq<nat>, at: seq<nat>)
    requires fs != [] && bt <= at && |bt| <= |items| + 1
    requires forall i :: 0 <= i < |bt| - 1 ==> Published(items[i], fs[..|fs| - 1], bt[i], EndOf(fs[..|fs| - 1], bt, i))
    ensures forall i :: 0 <= i < |bt| - 1 ==> Published(items[i], fs, at[i], EndOf(fs, at, i))
  {
    hide Published;
    forall i | 0 <= i < |bt| - 1 ensures Published(items[i], fs, at[i], EndOf(fs, at, i)) {
      assert Published(items[i], fs[..|fs| - 1], bt[i], EndOf(fs[..|fs| - 1], bt, i));
      StillPublished(items[i], fs, |fs| - 1, bt[i], bt[i + 1]);
    }
  }

  /** The clock of the open segment. */
  lemma HeldSpan(s: State, fs: seq<Frame>, b: nat)
    requires b < |fs| && Formed(s) && Holds(s, fs[b..])
    ensures s.stat.Duration() == fs[|fs| - 1].ts as int - fs[b].ts as int
    ensures IsFull(s) <==> ThreeFrom(fs, b, |fs|)
  {
    FormedClock(s);
    hide VideoOf, VideoIn, Spoken, Sounds, Sixes, Formed;
  }

  /** A frame that begins no segment. */
  lemma SameSegment(s: State, fs: seq<Frame>, at: seq<nat>)
    requires fs != [] && at != [] && s.ccs.streams.Ok() && Formed(s)
    requires at[|at| - 1] < |fs| - 1 && Holds(s, fs[..|fs| - 1][at[|at| - 1]..])
    requires KeyAt(fs, |fs| - 1) ==> !ThreeFrom(fs, at[|at| - 1], |fs| - 1)
    ensures Holds(Step(s, fs[|fs| - 1]), fs[at[|at| - 1]..]) && Step(s, fs[|fs| - 1]).items == s.items
  {
    hide Add, Cut, Formed, Holds, IsFull;
    var n, b := |fs| - 1, at[|at| - 1];
    HeldSpan(s, fs[..n], b);
    SameFrames(fs, n);
    CutFacts(s);
    HeldOpen(s, fs[..n][b..]);
    AddHolds(s, fs[..n][b..], fs[n]);
    AddFacts(s, fs[n]);
    assert fs[..n][b..] + [fs[n]] == fs[b..];
  }

  lemma HeldOpen(s: State, fs: seq<Frame>)
    requires Holds(s, fs)
    ensures s.open.Some?
  {
  }

  /** A key frame that begins the first segment, or ends a long enough one and begins the next. */
  lemma NextSegment(s: State, fs: seq<Frame>)
    requires fs != [] && KeyAt(fs, |fs| - 1) && s.ccs.streams.Ok() && ((s.open.None? && s.cache.num == 0) || IsFull(s))
    ensures Holds(Step(s, fs[|fs| - 1]), fs[|fs| - 1..])
    ensures var t := Step(s, fs[|fs| - 1]);
            t.items == if s.open.None? then s.items
                       else s.items + [Item(|s.items| + 1, s.stat.Duration(), MuxAudio(s, 1).open.value)]
  {
    hide Add, Cut, Holds, MuxAudio;
    var f := fs[|fs| - 1];
    CutFacts(s);
    NothingHeld(Cut(s));
    AddHolds(Cut(s), [], f);
    AddFacts(Cut(s), f);
    assert [] + [f] == fs[|fs| - 1..];
  }

  lemma JustPublished(s: State, fs: seq<Frame>, b: nat)
    requires b < |fs| - 1 && s.ccs.streams.Ok() && Formed(s) && Holds(s, fs[..|fs| - 1][b..])
    ensures Published(Item(|s.items| + 1, s.stat.Duration(), MuxAudio(s, 1).open.value), fs, b, |fs| - 1)
  {
    hide Holds, Whole, Formed, MuxAudio;
    var n := |fs| - 1;
    HeldOpen(s, fs[..n][b..]);
    HeldSpan(s, fs[..n], b);
    CutWhole(s, fs[..n][b..]);
    assert fs[..n][b..] == fs[b..n];
  }

  /** One more frame. */
  lemma StepSegmented(s: State, fs: seq<Frame>, at: seq<nat>)
    requires fs != [] && Begins(fs, at) && Begins(fs[..|fs| - 1], Earlier(fs, at))
    requires s.ccs.streams.Ok() && Formed(s) && Segmented(s, fs[..|fs| - 1], Earlier(fs, at))
    ensures Segmented(Step(s, fs[|fs| - 1]), fs, at)
  {
    hide Begins, Step, Formed, Holds, Published, KeyAt, ThreeFrom, IsFull, MuxAudio, Earlier;
    var n, bt := |fs| - 1, Earlier(fs, at);
    BeginsLast(fs, at);
    AllStillPublished(s.items, fs, bt, at);
    if at == bt && bt == [] {
      NotBegun(s, fs);
    } else if at == bt {
      SameSegment(s, fs, at);
    } else if bt == [] {
      NextSegment(s, fs);
    } else {
      CutSegmented(s, fs, bt, at);
    }
  }

  /** A segment published, and the next one begun. */
  lemma CutSegmented(s: State, fs: seq<Frame>, bt: seq<nat>, at: seq<nat>)
    requires fs != [] && at == bt + [|fs| - 1] && bt != []
    requires s.ccs.streams.Ok() && Formed(s) && Segmented(s, fs[..|fs| - 1], bt)
    requires KeyAt(fs, |fs| - 1) && ThreeFrom(fs, bt[|bt| - 1], |fs| - 1)
    requires forall i :: 0 <= i < |bt| - 1 ==> Published(s.items[i], fs, bt[i], EndOf(fs, bt, i))
    ensures Segmented(Step(s, fs[|fs| - 1]), fs, at)
  {
    hide Step, Formed, Holds, Published, KeyAt, ThreeFrom, IsFull, MuxAudio;
    var n, b := |fs| - 1, bt[|bt| - 1];
    HeldOpen(s, fs[..n][b..]);
    HeldSpan(s, fs[..n], b);
    SameFrames(fs, n);
    NextSegment(s, fs);
    JustPublished(s, fs, b);
    var t := Step(s, fs[n]);
    forall i | 0 <= i < |at| - 1 ensures Published(t.items[i], fs, at[i], EndOf(fs, at, i)) {
      if i < |bt| - 1 { assert EndOf(fs, at, i) == EndOf(fs, bt, i); }
    }
  }

  lemma NotBegun(s: State, fs: seq<Frame>)
    requires fs != [] && s.ccs.streams.Ok() && s.open.None? && !KeyAt(fs, |fs| - 1)
    ensures Step(s, fs[|fs| - 1]) == s
  {
  }

  lemma StartSegmented()
    requires Begins([], [])
    ensures Segmented(START, [], [])
  {
  }

  /**
   * Every run: the segments begin at those frames, each published one has exactly the times, the pictures and
   * the sound of the frames from its beginning to the next, and the open one of the frames since.
   */
  lemma {:induction false} SegmentsBegin(fs: seq<Frame>, at: seq<nat>)
    requires Begins(fs, at)
    ensures Segmented(Run(fs), fs, at)
    decreases |fs|
  {
    hide Begins, Segmented, Step, Formed;
    if fs == [] {
      BeginsNone();
      StartSegmented();
    } else {
      var n, bt := |fs| - 1, Earlier(fs, at);
      var s, f := Run(fs[..n]), fs[n];
      BeginsEarlier(fs, at);
      BeginsLast(fs, at);
      SegmentsBegin(fs[..n], bt);
      RunFormed(fs[..n]);
      StepSegmented(s, fs, at);
    }
  }
}
