/** What holds of every run of the segmenter: nothing lost, nothing twice, every segment stands alone. */
module HlsTheorems {
  import opened Bytes
  import opened Options
  import opened TsSpec
  import opened HlsSpec

  // ---------- the output is the muxer's trace ----------

  /** The segment's bytes are its log's, and leave the counters at c. */
  predicate Tied(g: Segment, c: Ccs)
  {
    g.at.streams.Ok() && g.data == Rendered(g.log, g.at) && c == CcsAll(g.log, g.at)
  }

  /** Each segment's counters go on where the one before it ended. */
  predicate Chain(items: seq<Item>, c: Ccs)
  {
    if items == [] then c == START.ccs
    else Tied(items[|items| - 1].segment, c) && Chain(items[..|items| - 1], items[|items| - 1].segment.at)
  }

  predicate Traced(s: State)
  {
    if s.open.None? then s.items == [] && s.ccs == START.ccs
    else Tied(s.open.value, s.ccs) && Chain(s.items, s.open.value.at)
  }

  lemma RenderedSnoc(log: seq<Out>, o: Out, c: Ccs)
    requires c.streams.Ok()
    ensures Rendered(log + [o], c) == Rendered(log, c) + OutBytes(o, CcsAll(log, c))
    ensures CcsAll(log + [o], c) == CcsAfter(o, CcsAll(log, c))
  {
    assert (log + [o])[..|log|] == log;
  }

  lemma EmitTraced(s: State, o: Out)
    requires s.open.Some? && s.ccs.streams.Ok() && Traced(s)
    ensures Traced(Emit(s, o)) && Emit(s, o).items == s.items
  {
    hide OutBytes, CcsAfter, Chain;
    RenderedSnoc(s.open.value.log, o, s.open.value.at);
  }

  lemma OpenTraced(s: State)
    requires s.ccs.streams.Ok() && Chain(s.items, s.ccs)
    ensures Traced(Opened(s)) && Opened(s).items == s.items
  {
    hide OutBytes, CcsAfter, Chain;
    var t := s.(open := Some(Segment(s.ccs, [], [], [])));
    assert Tied(t.open.value, t.ccs);
    EmitTraced(t, Tables);
  }

  lemma MuxTraced(s: State, limit: nat)
    requires s.open.Some? && s.ccs.streams.Ok() && Traced(s)
    ensures Traced(MuxAudio(s, limit)) && MuxAudio(s, limit).open.Some? && MuxAudio(s, limit).items == s.items
  {
    hide Chain, Tied;
    if s.cache.num >= limit {
      EmitTraced(s.(cache := s.cache.(num := 0)), Media(AudioPacket(s.cache)));
    }
  }

  lemma CutTraced(s: State)
    requires s.ccs.streams.Ok() && Traced(s)
    ensures Traced(Cut(s)) && Cut(s).open.Some?
  {
    if s.open.None? {
      OpenTraced(s);
    } else if s.stat.Duration() >= DURATION {
      var t := MuxAudio(s, 1);
      MuxTraced(s, 1);
      var items := t.items + [Item(|t.items| + 1, t.stat.Duration(), t.open.value)];
      assert items[..|t.items|] == t.items;
      hide Tied;
      OpenTraced(t.(items := items, stat := t.stat.(hasFirst := false)));
    }
  }

  lemma AddTraced(s: State, f: Frame)
    requires s.open.Some? && s.ccs.streams.Ok() && Traced(s)
    ensures Traced(Add(s, f)) && Add(s, f).open.Some?
  {
    hide Chain, Aligned, Emit, MuxAudio;
    var g := s.open.value;
    var t := s.(open := Some(g.(times := g.times + [f.ts])), stat := Updated(s.stat, f.ts));
    match f {
      case VideoFrame(key, ts, ct, data) =>
        EmitTraced(t, Media(Packet(true, ts, key, ct, data)));
        EmitOpen(t, Media(Packet(true, ts, key, ct, data)));
      case AudioFrame(ts, inc, data) =>
        var (a, pts) := Aligned(t.align, ts * 90, inc);
        MuxTraced(t.(align := a, cache := t.cache.Add(data, pts)), CACHE_MAX);
    }
  }

  lemma EmitOpen(s: State, o: Out)
    requires s.open.Some? && s.ccs.streams.Ok()
    ensures Emit(s, o).open.Some?
  {
  }

  lemma {:induction false} RunTraced(fs: seq<Frame>)
    ensures Traced(Run(fs))
    decreases |fs|
  {
    hide Traced, Cut, Add;
    if fs == [] {
      StartTraced();
    } else {
      var s, f := Run(fs[..|fs| - 1]), fs[|fs| - 1];
      RunTraced(fs[..|fs| - 1]);
      var t := if IsKeyFrame(f) then Cut(s) else s;
      if IsKeyFrame(f) { CutTraced(s); }
      if t.open.Some? {
        CcsOk(t);
        AddTraced(t, f);
      }
    }
  }

  lemma CcsOk(s: State)
    requires Traced(s) && s.open.Some?
    ensures s.ccs.streams.Ok()
  {
  }

  lemma StartTraced()
    ensures Traced(START)
  {
  }

  // ---------- all segments together ----------

  function DataOf(items: seq<Item>): bytes
  {
    if items == [] then [] else DataOf(items[..|items| - 1]) + items[|items| - 1].segment.data
  }

  function LogOf(items: seq<Item>): seq<Out>
  {
    if items == [] then [] else LogOf(items[..|items| - 1]) + items[|items| - 1].segment.log
  }

  function AllData(s: State): bytes { DataOf(s.items) + if s.open.None? then [] else s.open.value.data }

  function AllLog(s: State): seq<Out> { LogOf(s.items) + if s.open.None? then [] else s.open.value.log }

  lemma {:induction false} RenderedAppend(a: seq<Out>, b: seq<Out>, c: Ccs)
    requires c.streams.Ok()
    ensures Rendered(a + b, c) == Rendered(a, c) + Rendered(b, CcsAll(a, c))
    ensures CcsAll(a + b, c) == CcsAll(b, CcsAll(a, c))
    decreases |b|
  {
    hide OutBytes, CcsAfter;
    if b == [] {
      assert a + b == a;
    } else {
      var k := |b| - 1;
      RenderedAppend(a, b[..k], c);
      assert (a + b)[..|a| + k] == a + b[..k] && (a + b)[|a| + k] == b[k];
      ConcatAssoc(Rendered(a, c), Rendered(b[..k], CcsAll(a, c)), OutBytes(b[k], CcsAll(a + b[..k], c)));
    }
  }

  lemma {:induction false} ChainRendered(items: seq<Item>, c: Ccs)
    requires Chain(items, c)
    ensures c.streams.Ok() && DataOf(items) == Rendered(LogOf(items), START.ccs) && c == CcsAll(LogOf(items), START.ccs)
    decreases |items|
  {
    hide Rendered, CcsAll;
    if items == [] {
      EmptyRendered();
    } else {
      var g := items[|items| - 1].segment;
      ChainRendered(items[..|items| - 1], g.at);
      RenderedAppend(LogOf(items[..|items| - 1]), g.log, START.ccs);
    }
  }

  lemma EmptyRendered()
    ensures Rendered([], START.ccs) == [] && CcsAll([], START.ccs) == START.ccs
  {
  }

  /** The published segments and the open one, joined, are the muxer's output with the tables put in. */
  lemma Conserved(fs: seq<Frame>)
    ensures var s := Run(fs); AllData(s) == Rendered(AllLog(s), START.ccs) && s.ccs == CcsAll(AllLog(s), START.ccs)
  {
    hide Run, Rendered, CcsAll;
    var s := Run(fs);
    RunTraced(fs);
    if s.open.None? {
      EmptyRendered();
    } else {
      ChainRendered(s.items, s.open.value.at);
      RenderedAppend(LogOf(s.items), s.open.value.log, START.ccs);
    }
  }

  // ---------- every segment ----------

  /** Tables first and only there, then a key frame. */
  predicate StartsRight(log: seq<Out>)
  {
    && |log| >= 2 && log[0] == Tables && log[1].Media? && IsKey(log[1].p)
    && forall i :: 1 <= i < |log| ==> log[i].Media?
  }

  predicate ItemOk(it: Item, seqNum: nat)
  {
    var g := it.segment;
    && it.seqNum == seqNum && StartsRight(g.log)
    && g.times != [] && it.duration == Span(g.times) && it.duration >= DURATION
  }

  /** From the first frame to the last. */
  function Span(times: seq<u32>): int
    requires times != []
  {
    var first: int, last: int := times[0], times[|times| - 1];
    last - first
  }

  /** Between frames: the open segment starts right, and the clock shows its first and last frame. */
  predicate Formed(s: State)
  {
    && (forall i :: 0 <= i < |s.items| ==> ItemOk(s.items[i], i + 1))
    && (s.open.None? ==> s.items == [] && !s.stat.hasFirst && s.cache.num == 0)
    && (s.open.Some? ==> StartsRight(s.open.value.log) && Timed(s.open.value.times, s.stat))
    && s.cache.num < CACHE_MAX
  }

  predicate Timed(times: seq<u32>, st: Status)
  {
    times != [] && st == Status(true, times[0], times[|times| - 1])
  }

  /** Within a step: a segment may just have been opened. */
  predicate Ready(s: State)
  {
    && (forall i :: 0 <= i < |s.items| ==> ItemOk(s.items[i], i + 1))
    && s.open.Some? && s.cache.num < CACHE_MAX
    && if s.stat.hasFirst then StartsRight(s.open.value.log) && Timed(s.open.value.times, s.stat)
       else s.open.value.log == [Tables] && s.open.value.times == []
  }

  lemma EmitMedia(s: State, p: Packet)
    requires s.open.Some? && s.ccs.streams.Ok()
    ensures var t := Emit(s, Media(p));
            && t.open.Some? && t.items == s.items && t.cache == s.cache && t.stat == s.stat && t.align == s.align
            && t.open.value.times == s.open.value.times && t.open.value.log == s.open.value.log + [Media(p)]
    ensures StartsRight(s.open.value.log) ==> StartsRight(s.open.value.log + [Media(p)])
    ensures s.open.value.log == [Tables] && IsKey(p) ==> StartsRight(s.open.value.log + [Media(p)])
  {
    hide OutBytes, CcsAfter;
  }

  lemma CutReady(s: State)
    requires s.ccs.streams.Ok() && Formed(s)
    ensures Ready(Cut(s))
  {
    hide OutBytes, CcsAfter;
    if s.open.Some? && s.stat.Duration() >= DURATION {
      var t := MuxAudio(s, 1);
      if s.cache.num >= 1 { EmitMedia(s.(cache := s.cache.(num := 0)), AudioPacket(s.cache)); }
      hide StartsRight;
      var it := Item(|t.items| + 1, t.stat.Duration(), t.open.value);
      assert ItemOk(it, |t.items| + 1);
      assert [] + [Tables] == [Tables];
      hide MuxAudio;
    }
    assert [] + [Tables] == [Tables];
  }

  lemma AddFormed(s: State, f: Frame)
    requires s.ccs.streams.Ok() && Ready(s) && (s.stat.hasFirst || IsKeyFrame(f))
    ensures Formed(Add(s, f))
  {
    hide Aligned, Emit, StartsRight, ItemOk;
    var g := s.open.value;
    var t := s.(open := Some(g.(times := g.times + [f.ts])), stat := Updated(s.stat, f.ts));
    assert Timed(t.open.value.times, t.stat);
    match f {
      case VideoFrame(key, ts, ct, data) => EmitMedia(t, Packet(true, ts, key, ct, data));
      case AudioFrame(ts, inc, data) =>
        var (a, pts) := Aligned(t.align, ts * 90, inc);
        var u := t.(align := a, cache := t.cache.Add(data, pts));
        if u.cache.num >= CACHE_MAX { EmitMedia(u.(cache := u.cache.(num := 0)), AudioPacket(u.cache)); }
    }
  }

  lemma ReadyFormed(s: State)
    requires Formed(s) && s.open.Some?
    ensures Ready(s) && s.stat.hasFirst
  {
  }

  lemma {:induction false} RunFormed(fs: seq<Frame>)
    ensures Formed(Run(fs))
    decreases |fs|
  {
    hide Formed, Ready, Cut, Add;
    if fs == [] {
      StartFormed();
    } else {
      var s, f := Run(fs[..|fs| - 1]), fs[|fs| - 1];
      RunFormed(fs[..|fs| - 1]);
      if IsKeyFrame(f) {
        CutReady(s);
        AddFormed(Cut(s), f);
      } else if s.open.Some? {
        ReadyFormed(s);
        AddFormed(s, f);
      }
    }
  }

  lemma StartFormed()
    ensures Formed(START)
  {
  }
}
