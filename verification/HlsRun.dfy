/** The segmenter at work: one buffer reused for every segment, counters, clock and audio cache updated in place. */
module HlsRun {
  import opened Bytes
  import opened Options
  import opened Buffers
  import opened TsSpec
  import opened TsMux
  import opened HlsSpec
  import opened Playlist

  class SegmentClock {
    var hasSetFirstTs: bool
    var firstTimestamp: int
    var lastTimestamp: int

    constructor ()
      ensures Abs() == Status(false, 0, 0)
    {
      hasSetFirstTs, firstTimestamp, lastTimestamp := false, 0, 0;
    }

    function Abs(): Status
      reads this
    {
      Status(hasSetFirstTs, firstTimestamp, lastTimestamp)
    }

    method Update(timestamp: u32)
      modifies this
      ensures Abs() == Updated(old(Abs()), timestamp)
    {
      if !hasSetFirstTs {
        hasSetFirstTs := true;
        firstTimestamp := timestamp;
      }
      lastTimestamp := timestamp;
    }

    method ResetAndNew()
      modifies this
      ensures Abs() == old(Abs()).(hasFirst := false)
    {
      hasSetFirstTs := false;
    }

    function DurationMs(): (d: int)
      reads this
    {
      lastTimestamp - firstTimestamp
    }
  }

  class Aligner {
    var frameNum: nat
    var frameBase: nat

    constructor ()
      ensures Abs() == Align(0, 0)
    {
      frameNum, frameBase := 0, 0;
    }

    function Abs(): Align
      reads this
    {
      Align(frameNum, frameBase)
    }

    method AlignTo(dts: nat, inc: nat) returns (r: nat)
      modifies this
      ensures (Abs(), r) == Aligned(old(Abs()), dts, inc)
    {
      var estPts := frameBase + frameNum * inc;
      var dPts := if estPts >= dts then estPts - dts else dts - estPts;
      if dPts <= 180 {
        frameNum := frameNum + 1;
        return estPts;
      }
      frameNum := 1;
      frameBase := dts;
      r := dts;
    }
  }

  class AudioBuffer {
    var num: nat
    var offset: nat
    var pts: nat
    var buf: bytes

    constructor ()
      ensures Abs() == AudioCache(0, 0, [])
    {
      num, offset, pts, buf := 0, 0, 0, [];
    }

    function Abs(): AudioCache
      reads this
    {
      AudioCache(num, pts, buf)
    }

    method Cache(src: bytes, at: nat)
      modifies this
      ensures Abs() == old(Abs()).Add(src, at)
    {
      if num == 0 {
        offset := 0;
        pts := at;
        buf := [];
      }
      buf := buf + src;
      offset := offset + |src|;
      num := num + 1;
      assert [] + src == src;
    }

    /** Hands the cached bytes out and counts from zero again. */
    method GetFrame() returns (at: nat, data: bytes)
      modifies `num
      ensures at == old(Abs()).pts && data == old(Abs()).buf && Abs() == old(Abs()).(num := 0)
    {
      num := 0;
      at, data := pts, buf;
    }
  }

  /** What the playlist keeps of a segment, under a name. */
  predicate Keeps(t: TsItem, it: Item)
  {
    t.seqNum == it.seqNum && t.duration == it.duration && t.data == it.segment.data
  }

  class Segmenter {
    var seqNum: nat
    var btswriter: Buffer?
    const muxer: Muxer
    const stat: SegmentClock
    const aligner: Aligner
    const cache: AudioBuffer
    const tsCache: TsCacheItem
    ghost var published: seq<TsItem>  // all that was put into the playlist
    ghost var items: seq<Item>     // the same segments, with what they are made of
    ghost var at: Ccs              // the same of the open one
    ghost var log: seq<Out>
    ghost var times: seq<u32>

    ghost function Repr(): set<object>
      reads this
    {
      {this, muxer, muxer.tsPacket, muxer.pat, muxer.pmt, stat, aligner, cache, tsCache}
      + if btswriter == null then {} else {btswriter}
    }

    ghost predicate Valid()
      reads this, muxer, stat, aligner, cache, tsCache
    {
      muxer.Valid() && Told()
    }

    /** The playlist has been told all segments, numbered from one. */
    ghost predicate Told()
      reads this`seqNum, this`published, this`items, tsCache
    {
      && seqNum == |published| == |items| && tsCache.Abs() == Listed(published)
      && forall i :: 0 <= i < |items| ==> published[i].seqNum == i + 1 && Keeps(published[i], items[i])
    }

    /**
     * The playlist shows the last three segments at all times exactly if those near each other have names of their
     * own.
     */
    lemma PlaylistIff()
      requires Valid()
      ensures AlwaysShowsLast(published) <==> Spread(published)
      ensures published != [] && Spread(published) ==>
                Text(ShownOf(tsCache.Abs())).sequence == 1 + if |items| <= 3 then 0 else |items| - 3
    {
      hide AlwaysShowsLast, Listed, Spread;
      ShowsLastIff(published);
      if published != [] && Spread(published) { SequenceCounts(published); }
    }

    ghost function Open(): Option<Segment>
      reads this, btswriter
    {
      if btswriter == null then None else Some(Segment(at, btswriter.content, log, times))
    }

    ghost function Abs(): State
      reads this, muxer, stat, aligner, cache, btswriter
    {
      State(items, Open(), Ccs(muxer.Ccs(), muxer.patCc, muxer.pmtCc), stat.Abs(), aligner.Abs(), cache.Abs())
    }

    constructor ()
      ensures Valid() && Abs() == START && fresh(Repr())
    {
      seqNum, published, btswriter := 0, [], null;
      tsCache := new TsCacheItem();
      muxer := new Muxer();
      stat := new SegmentClock();
      aligner := new Aligner();
      cache := new AudioBuffer();
      items, at, log, times := [], START.ccs, [], [];
    }

    /** Writes one packet into the open segment. */
    method Put(p: Packet)
      requires Valid() && btswriter != null
      modifies `log, muxer`videoCc, muxer`audioCc, muxer.tsPacket, btswriter
      ensures Valid() && Abs() == Emit(old(Abs()), Media(p))
    {
      hide Mux, CountersAfter, Told;
      muxer.Mux(p, btswriter);
      log := log + [Media(p)];
    }

    method MuxAudio(limit: nat)
      requires Valid() && btswriter != null
      modifies `log, cache, muxer`videoCc, muxer`audioCc, muxer.tsPacket, btswriter
      ensures Valid() && Abs() == HlsSpec.MuxAudio(old(Abs()), limit)
    {
      hide Emit, Told;
      if cache.num < limit { return; }
      ghost var s := Abs();
      var pts, buf := cache.GetFrame();
      assert Abs() == s.(cache := s.cache.(num := 0));
      Put(Packet(false, pts / 90 % MOD32, false, 0, buf));
    }

    /** The tables at the head of a segment. */
    method PutTables()
      requires Valid() && btswriter != null && btswriter.content == []
      modifies `at, `log, `times, muxer`patCc, muxer`pmtCc, muxer.pat, muxer.pmt, btswriter
      ensures Valid() && Abs() == Opened(old(Abs()))
    {
      hide Pat, Pmt, Told;
      at, log, times := Ccs(muxer.Ccs(), muxer.patCc, muxer.pmtCc), [], [];
      ghost var s := Abs();
      var pat := muxer.PAT();
      btswriter.Write(pat);
      var pmt := muxer.PMT(AAC, true);
      btswriter.Write(pmt);
      log := [Tables];
      TwoTables(s, pat, pmt);
    }

    lemma TwoTables(s: State, pat: bytes, pmt: bytes)
      requires s.open == Some(Segment(s.ccs, [], [], [])) && s.ccs.streams.Ok()
      requires pat == Pat(s.ccs.pat) && pmt == Pmt(s.ccs.pmt, AAC, true)
      ensures Opened(s) == s.(open := Some(Segment(s.ccs, [] + pat + pmt, [Tables], [])),
                              ccs := s.ccs.(pat := TableCc(s.ccs.pat) + 1, pmt := TableCc(s.ccs.pmt) + 1))
    {
      hide Pat, Pmt;
      ConcatAssoc([], pat, pmt);
      assert [] + [Tables] == [Tables];
    }

    /** Publishes the open segment under the next number and the given name. */
    method Publish(name: nat)
      requires Valid() && btswriter != null
      modifies `seqNum, `published, `items, stat, tsCache, btswriter
      ensures Valid() && btswriter.content == []
      ensures var s := old(Abs());
              Abs().(open := s.open) == s.(items := s.items + [Item(|s.items| + 1, s.stat.Duration(), s.open.value)],
                                           stat := s.stat.(hasFirst := false))
    {
      hide Told;
      Tell(name, Item(|items| + 1, stat.DurationMs(), Open().value), stat.DurationMs(), btswriter.content);
      btswriter.Reset();
      stat.ResetAndNew();
    }

    method Tell(name: nat, ghost it: Item, duration: int, data: bytes)
      requires Told() && it.seqNum == |items| + 1 && it.duration == duration && it.segment.data == data
      modifies `seqNum, `published, `items, tsCache
      ensures Told() && items == old(items) + [it]
    {
      hide Listed, Playlist.Put;
      seqNum := seqNum + 1;
      var item := TsItem(name, seqNum, duration, data);
      tsCache.SetItem(item);
      ListedSnoc(published, item);
      published := published + [item];
      items := items + [it];
    }

    method Cut(name: nat)
      requires Valid()
      modifies Repr()
      ensures Valid() && Abs() == HlsSpec.Cut(old(Abs())) && fresh(Repr() - old(Repr()))
    {
      hide HlsSpec.MuxAudio, Emit, Told;
      if btswriter == null {
        btswriter := new Buffer();
        PutTables();
      } else if stat.DurationMs() >= 3000 {
        CloseSegment(name);
      }
    }

    /** The waiting audio ends the open segment; the next one begins in the same buffer. */
    method CloseSegment(name: nat)
      requires Valid() && btswriter != null && stat.DurationMs() >= 3000
      modifies Repr()
      ensures Valid() && Abs() == HlsSpec.Cut(old(Abs())) && Repr() == old(Repr())
    {
      hide HlsSpec.MuxAudio, Emit, Told, Opened, Muxer.Valid, Muxer.Ccs;
      MuxAudio(1);
      ghost var s := Abs();
      Publish(name);
      OpenedAnew(Abs(), s.open);
      PutTables();
    }

    /** What was open does not matter to the next segment. */
    lemma OpenedAnew(s: State, o: Option<Segment>)
      requires s.ccs.streams.Ok()
      ensures Opened(s.(open := o)) == Opened(s)
    {
    }

    /** `name` stands for the second the frame arrives in. */
    method Frame(f: HlsSpec.Frame, name: nat)
      requires Valid()
      modifies Repr()
      ensures Valid() && Abs() == Step(old(Abs()), f) && fresh(Repr() - old(Repr()))
    {
      if f.VideoFrame? && f.key { Cut(name); }
      if btswriter != null { AddFrame(f); }
    }

    /** Clock, then the frame itself or the audio cache. */
    method AddFrame(f: HlsSpec.Frame)
      requires Valid() && btswriter != null
      modifies Repr()
      ensures Valid() && Abs() == Add(old(Abs()), f) && Repr() == old(Repr())
    {
      hide Emit, HlsSpec.MuxAudio, Aligned, Told;
      ghost var s := Abs();
      stat.Update(f.ts);
      times := times + [f.ts];
      match f {
        case VideoFrame(key, ts, ct, data) => Put(Packet(true, ts, key, ct, data));
        case AudioFrame(ts, inc, data) =>
          var pts := aligner.AlignTo(ts * 90, inc);
          cache.Cache(data, pts);
          MuxAudio(6);
      }
    }
  }
}
