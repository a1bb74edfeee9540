/**
 * Whole runs over the chunk layer: interleaved reassembly for any conforming sender, and a
 * connection's own writer against a peer's reader.
 */
module ChunkSession {
  import opened Bytes
  import opened Options
  import opened ChunkSpec
  import opened ChunkRun

  // ---------- interleaved reassembly ----------

  predicate ValidRun(s: Sender, evs: seq<Event>)
    decreases |evs|
  {
    evs == [] || (Good(s, evs[0]) && ValidRun(Next(s, evs[0]), evs[1..]))
  }

  function RunBytes(s: Sender, evs: seq<Event>): bytes
    requires ValidRun(s, evs)
    decreases |evs|
  {
    if evs == [] then [] else EventBytes(s, evs[0]) + RunBytes(Next(s, evs[0]), evs[1..])
  }

  /** The messages of a run in the order in which their last chunks were sent. */
  function Completed(s: Sender, evs: seq<Event>): seq<Msg>
    requires ValidRun(s, evs)
    decreases |evs|
  {
    if evs == [] then []
    else
      (if Completes(s, evs[0]) then [Carried(After(s, evs[0]))] else []) + Completed(Next(s, evs[0]), evs[1..])
  }

  function AfterRun(s: Sender, evs: seq<Event>): Sender
    requires ValidRun(s, evs)
    decreases |evs|
  {
    if evs == [] then s else AfterRun(Next(s, evs[0]), evs[1..])
  }

  /** The run's last chunk finishes a message. */
  predicate EndsComplete(s: Sender, evs: seq<Event>)
    requires ValidRun(s, evs)
    decreases |evs|
  {
    evs != [] ==> if |evs| == 1 then Completes(s, evs[0]) else EndsComplete(Next(s, evs[0]), evs[1..])
  }

  /** The run's first chunk and the rest. */
  lemma RunStep(s: Sender, e: Event, more: seq<Event>)
    requires Good(s, e) && ValidRun(Next(s, e), more)
    ensures var evs, s1 := [e] + more, Next(s, e);
            && ValidRun(s, evs) && RunBytes(s, evs) == EventBytes(s, e) + RunBytes(s1, more)
            && Completed(s, evs) == (if Completes(s, e) then [Carried(After(s, e))] else []) + Completed(s1, more)
            && AfterRun(s, evs) == AfterRun(s1, more)
            && (EndsComplete(s, evs) <==> if more == [] then Completes(s, e) else EndsComplete(s1, more))
  {
    hide Good, Next, EventBytes, Completes, After, Carried;
    assert ([e] + more)[1..] == more;
  }

  datatype Many = Many(msgs: seq<Msg>, rd: Reader, i: In)

  /** n successive message reads; None when one of them fails. */
  function ReadMany(rd: Reader, i: In, n: nat): (r: Option<Many>)
    ensures r.Some? ==> |r.value.msgs| == n
    decreases n
  {
    if n == 0 then Some(Many([], rd, i))
    else
      match ReadMsg(rd, i)
      case Delivered(m, _, rd1, i1) =>
        (match ReadMany(rd1, i1, n - 1)
         case Some(r) => Some(Many([View(m)] + r.msgs, r.rd, r.i))
         case None => None)
      case _ => None
  }

  /**
   * Interleaved reassembly. Whatever the order of chunks on distinct streams, reading as many
   * messages as were completed delivers exactly those, in order of completion; when the run ends
   * with a completed message, nothing of it is left unread and both sides still agree.
   */
  lemma {:induction false} InterleavedReassembly(rd: Reader, s: Sender, evs: seq<Event>, rest: bytes)
    requires Synced(rd, s) && ValidRun(s, evs)
    ensures var r := ReadMany(rd, In(RunBytes(s, evs) + rest, false), |Completed(s, evs)|);
            && r.Some? && r.value.msgs == Completed(s, evs)
            && (EndsComplete(s, evs) ==> r.value.i == In(rest, false) && Synced(r.value.rd, AfterRun(s, evs)))
    decreases |evs|
  {
    if evs == [] {
      assert RunBytes(s, evs) + rest == rest;
    } else {
      var e, s1 := evs[0], Next(s, evs[0]);
      var more := RunBytes(s1, evs[1..]) + rest;
      assert RunBytes(s, evs) + rest == EventBytes(s, e) + more;
      var rd1, m, ack := EventRead(rd, s, e, more);
      InterleavedReassembly(rd1, s1, evs[1..], rest);
      var i, n1 := In(EventBytes(s, e) + more, false), |Completed(s1, evs[1..])|;
      if Completes(s, e) {
        ReadManyCons(rd, i, m, ack, rd1, In(more, false), n1);
        assert Completed(s, evs)[1..] == Completed(s1, evs[1..]);
      } else {
        assert Completed(s, evs) == Completed(s1, evs[1..]);
        if n1 > 0 {
          ReadManySkip(rd, i, rd1, In(more, false), n1);
        } else {
          NothingCompleted(s1, evs[1..]);
        }
      }
    }
  }

  lemma ReadManyCons(rd: Reader, i: In, m: Chunk, ack: Option<u32>, rd1: Reader, i1: In, n: nat)
    requires ReadMsg(rd, i) == Delivered(m, ack, rd1, i1)
    ensures ReadMany(rd, i, n + 1) ==
            match ReadMany(rd1, i1, n)
            case Some(r) => Some(Many([View(m)] + r.msgs, r.rd, r.i))
            case None => None
  {
  }

  lemma ReadManySkip(rd: Reader, i: In, rd1: Reader, i1: In, n: nat)
    requires n > 0 && ReadMsg(rd, i) == ReadMsg(rd1, i1)
    ensures ReadMany(rd, i, n) == ReadMany(rd1, i1, n)
  {
  }

  /** A run that completes nothing does not end with a completed message. */
  lemma {:induction false} NothingCompleted(s: Sender, evs: seq<Event>)
    requires ValidRun(s, evs) && Completed(s, evs) == []
    ensures evs != [] ==> !EndsComplete(s, evs)
    decreases |evs|
  {
    if |evs| > 1 { NothingCompleted(Next(s, evs[0]), evs[1..]); }
  }

  /**
   * The guard on repeated extended deltas is exact: a continuation chunk of the stream is read
   * back, leaving the rest of the input in place, if and only if it is recognised.
   */
  lemma ContinuationReadIff(c: Chunk, s: Stream, e: Event, size: u32, rest: bytes)
    requires Agree(c, s) && Allowed(s, e) && e.Cont?
    ensures var r := ReadChunk(c, Key(e.csid), 3, size, In(Tail(s, e, size) + rest, false));
            (r.Stepped? && r.i == In(rest, false)) <==> Recognised(s)
  {
    if Recognised(s) {
      var c' := ChunkRead(c, s, e, size, rest);
    } else {
      var end := Advance(s, e, size).pos;
      EmitParts(s, e, size, rest);
      WireIdOk(3, e.csid, s, end, rest);
      var c2, body := c.(csid := e.csid), Body(3, s, end, rest);
      Head3ContOk(c2, s.field, |s.payload|, s.typeId, s.streamId, s.payload[s.pos..end] + rest);
      Stages(c, Key(e.csid), 3, size, Wire(3, e.csid, s, end, rest), e.csid, body, c2, body);
      assert |MessageHeader(3, s.field, |s.payload|, s.typeId, s.streamId)| == 4;
      assert Min(c2.remain, size) == end - s.pos;
      assert |body.rest[end - s.pos..]| == |rest| + 4;
    }
  }

  /**
   * What happens without the guard: a three-byte message sent with delta 0x1000000 in chunks of
   * two bytes arrives with the first byte of the repeated delta in place of its last byte.
   */
  lemma UnrecognisedDelta()
    ensures var s := Stream(4, 0x100_0005, 8, 1, 1, 0x100_0000, [1, 2, 3], 2);
            var c := Chunk(1, 4, 0x100_0005, 3, 8, 1, 0x100_0000, true, 1, false, [1, 2]);
            var r := ReadChunk(c, 4, 3, 2, In(Tail(s, Cont(4), 2), false));
            Agree(c, s) && Allowed(s, Cont(4)) && r.Stepped? && r.c.got && r.c.data == [1, 2, 1]
  {
    var s := Stream(4, 0x100_0005, 8, 1, 1, 0x100_0000, [1, 2, 3], 2);
    var c := Chunk(1, 4, 0x100_0005, 3, 8, 1, 0x100_0000, true, 1, false, [1, 2]);
    assert s.payload[..2] == [1, 2];
    var t := Tail(s, Cont(4), 2);
    EmitParts(s, Cont(4), 2, []);
    Pow256Values();
    BEExact(0x100_0000, 4);
    var mh := MessageHeader(3, 0x100_0000, 3, 8, 1);
    assert mh == BE(0x100_0000, 4);
    assert t + [] == t == mh + s.payload[2..3];
    assert t[..4] == mh && FromBE(t[..4]) == 0x100_0000;
    assert BE(0x1_0000, 3) == BE(0x100, 2) + [0] && BE(0x100, 2) == BE(1, 1) + [0] && BE(1, 1) == [1];
    assert t[0] == 1;
    var c2 := c.(csid := 4);
    assert ReadChunk(c, 4, 3, 2, In(t, false)) == Payload(c2, 2, In(t, false));
  }

  // ---------- the connection's own writer ----------

  /** What the writer accepts without panicking and the reader's buffers can hold. */
  predicate Sendable(m: Msg)
  {
    && 2 <= WireId(m) < 65600 && m.typeId < 256 && |m.payload| <= MAX_POOL
    && (m.typeId == SET_CHUNK_SIZE ==> |m.payload| == 4 && FromBE(m.payload) > 0)
    && (m.typeId == WINDOW_ACK_SIZE && m.payload != [] ==> |m.payload| >= 4)
  }

  /** Non-empty, and not a Set Chunk Size message for less than its own four bytes. */
  predicate ReadsBack(m: Msg)
  {
    m.payload != [] && (m.typeId == SET_CHUNK_SIZE ==> FromBE(m.payload) >= 4)
  }

  /** The message as it arrives: unchanged except for the chunk stream id chosen by its type. */
  function Sent(m: Msg): Msg
  {
    m.(csid := WireId(m))
  }

  function SizeNext(m: Msg, size: u32): (r: u32)
    requires Sendable(m) && size > 0
    ensures r > 0
  {
    assert m.typeId == SET_CHUNK_SIZE ==> m.payload[..4] == m.payload;
    SizeAfter(m, size)
  }

  function WriteAll(ms: seq<Msg>, size: u32): bytes
    requires size > 0 && forall m <- ms :: Sendable(m)
  {
    if ms == [] then []
    else
      var w := SizeNext(ms[0], size);
      ChunksFrom(ms[0], w, 0) + WriteAll(ms[1..], w)
  }

  function FinalSize(ms: seq<Msg>, size: u32): u32
    requires size > 0 && forall m <- ms :: Sendable(m)
  {
    if ms == [] then size else FinalSize(ms[1..], SizeNext(ms[0], size))
  }

  /** The sender's view of the stream once the first `pos` bytes of `m` are out. */
  function InFlight(m: Msg, pos: nat): Stream
  {
    Stream(WireId(m), m.timestamp, m.typeId, m.streamId, 0, m.timestamp, m.payload, pos)
  }

  function RestEvents(m: Msg, size: u32, pos: nat): seq<Event>
    requires size > 0
    decreases |m.payload| - pos
  {
    if pos >= |m.payload| then [] else [Cont(WireId(m))] + RestEvents(m, size, Min(pos + size, |m.payload|))
  }

  /** The writer as a sender: a type 0 header, then type 3 ones until the payload is out. */
  function MsgEvents(m: Msg, size: u32): seq<Event>
    requires size > 0
  {
    [Begin(WireId(m), 0, m.timestamp, m.typeId, m.streamId, m.payload)]
    + RestEvents(m, size, Min(size, |m.payload|))
  }

  /** The writer's next chunk is the sender model's continuation chunk. */
  lemma NextChunk(s: Sender, m: Msg, pos: nat)
    requires Sendable(m) && s.size > 0 && 0 < pos < |m.payload| && m.typeId != SET_CHUNK_SIZE
    requires StreamAt(s.streams, Key(WireId(m))) == InFlight(m, pos)
    ensures var e, end := Cont(WireId(m)), Min(pos + s.size, |m.payload|);
            && Good(s, e) && After(s, e) == InFlight(m, end)
            && Next(s, e) == Sender(s.streams[Key(WireId(m)) := InFlight(m, end)], s.size)
            && EventBytes(s, e) + ChunksFrom(m, s.size, end) == ChunksFrom(m, s.size, pos)
  {
    var e, end := Cont(WireId(m)), Min(pos + s.size, |m.payload|);
    assert After(s, e) == InFlight(m, end);
  }

  /** A chunk completes the message exactly when the payload is out. */
  lemma CompletesAt(s: Sender, e: Event, m: Msg, end: nat)
    requires Sendable(m) && Good(s, e) && After(s, e) == InFlight(m, end) && end <= |m.payload|
    ensures Completes(s, e) <==> end == |m.payload|
    ensures end == |m.payload| ==> Carried(After(s, e)) == Sent(m)
  {
    hide Good, After;
  }

  lemma NothingMore(m: Msg, size: u32)
    requires size > 0
    ensures RestEvents(m, size, |m.payload|) == []
  {
  }

  lemma {:induction false} RestIsRun(s: Sender, m: Msg, pos: nat)
    requires Sendable(m) && s.size > 0 && 0 < pos <= |m.payload|
    requires pos < |m.payload| ==> m.typeId != SET_CHUNK_SIZE
    requires StreamAt(s.streams, Key(WireId(m))) == InFlight(m, pos) && Key(WireId(m)) in s.streams
    ensures var evs := RestEvents(m, s.size, pos);
            && ValidRun(s, evs) && RunBytes(s, evs) == ChunksFrom(m, s.size, pos)
            && Completed(s, evs) == (if pos < |m.payload| then [Sent(m)] else [])
            && EndsComplete(s, evs)
            && AfterRun(s, evs) == Sender(s.streams[Key(WireId(m)) := InFlight(m, |m.payload|)], s.size)
    decreases |m.payload| - pos
  {
    hide Good, EventBytes, ValidRun, RunBytes, Completed, EndsComplete, AfterRun, Sendable, ChunksFrom;
    hide Completes, Carried, After, Next, WireId, InFlight, Sent;
    var k := Key(WireId(m));
    if pos == |m.payload| {
      NothingLeft(s, m);
    } else {
      var e, end := Cont(WireId(m)), Min(pos + s.size, |m.payload|);
      NextChunk(s, m, pos);
      CompletesAt(s, e, m, end);
      var s1 := Next(s, e);
      RestIsRun(s1, m, end);
      RunStep(s, e, RestEvents(m, s.size, end));
      assert s1.streams[k := InFlight(m, |m.payload|)] == s.streams[k := InFlight(m, |m.payload|)];
    }
  }

  lemma NothingLeft(s: Sender, m: Msg)
    requires Sendable(m) && s.size > 0
    requires StreamAt(s.streams, Key(WireId(m))) == InFlight(m, |m.payload|) && Key(WireId(m)) in s.streams
    ensures RestEvents(m, s.size, |m.payload|) == [] && ChunksFrom(m, s.size, |m.payload|) == []
    ensures ValidRun(s, []) && RunBytes(s, []) == [] && Completed(s, []) == [] && EndsComplete(s, [])
    ensures AfterRun(s, []) == Sender(s.streams[Key(WireId(m)) := InFlight(m, |m.payload|)], s.size)
  {
    assert s.streams[Key(WireId(m)) := InFlight(m, |m.payload|)] == s.streams;
  }

  /** Chunks of any size, but four bytes and more for a message that sets the size. */
  predicate Wide(s: Sender, m: Msg) { s.size > 0 && (m.typeId == SET_CHUNK_SIZE ==> s.size >= 4) }

  function FirstEvent(m: Msg): Event
  {
    Begin(WireId(m), 0, m.timestamp, m.typeId, m.streamId, m.payload)
  }

  /** The writer's first chunk is the sender model's type 0 chunk, even when `m` changes the chunk size. */
  lemma FirstChunk(s: Sender, m: Msg)
    requires Sendable(m) && ReadsBack(m) && Wide(s, m)
    requires var st := StreamAt(s.streams, Key(WireId(m))); st.pos == |st.payload|
    ensures var e, w, end := FirstEvent(m), SizeNext(m, s.size), Min(s.size, |m.payload|);
            && Good(s, e) && After(s, e) == InFlight(m, end)
            && Next(s, e) == Sender(s.streams[Key(WireId(m)) := InFlight(m, end)], w)
            && end == Min(w, |m.payload|)
            && (end < |m.payload| ==> w == s.size && m.typeId != SET_CHUNK_SIZE)
  {
    var e := FirstEvent(m);
    assert m.typeId == SET_CHUNK_SIZE ==> m.payload[..4] == m.payload;
    assert After(s, e) == InFlight(m, Min(s.size, |m.payload|));
  }

  lemma FirstBytes(s: Sender, m: Msg)
    requires Sendable(m) && ReadsBack(m) && Wide(s, m)
    requires Good(s, FirstEvent(m)) && After(s, FirstEvent(m)) == InFlight(m, Min(s.size, |m.payload|))
    requires Min(s.size, |m.payload|) == Min(SizeNext(m, s.size), |m.payload|)
    ensures var w, end := SizeNext(m, s.size), Min(s.size, |m.payload|);
            EventBytes(s, FirstEvent(m)) + ChunksFrom(m, w, end) == ChunksFrom(m, w, 0)
  {
  }

  /** Everything the writer emits for a message that reads back is a valid run of one message. */
  lemma WriterIsRun(s: Sender, m: Msg)
    requires Sendable(m) && ReadsBack(m) && Wide(s, m)
    requires var st := StreamAt(s.streams, Key(WireId(m))); st.pos == |st.payload|
    ensures var evs := MsgEvents(m, s.size);
            && ValidRun(s, evs) && RunBytes(s, evs) == ChunksFrom(m, SizeNext(m, s.size), 0)
            && Completed(s, evs) == [Sent(m)] && EndsComplete(s, evs)
            && AfterRun(s, evs) == Sender(s.streams[Key(WireId(m)) := InFlight(m, |m.payload|)], SizeNext(m, s.size))
  {
    hide Good, EventBytes, ValidRun, RunBytes, Completed, EndsComplete, AfterRun, Sendable, ChunksFrom, MsgEvents;
    hide Completes, Carried, After, Next, FirstEvent, SizeNext, WireId, InFlight, Sent;
    var k, w, end := Key(WireId(m)), SizeNext(m, s.size), Min(s.size, |m.payload|);
    var e := FirstEvent(m);
    FirstChunk(s, m);
    FirstBytes(s, m);
    MsgFirst(m, s.size, w);
    CompletesAt(s, e, m, end);
    NothingMore(m, s.size);
    var s1 := Next(s, e);
    RestIsRun(s1, m, end);
    RunStep(s, e, RestEvents(m, w, end));
    assert s1.streams[k := InFlight(m, |m.payload|)] == s.streams[k := InFlight(m, |m.payload|)];
  }

  lemma MsgFirst(m: Msg, size: u32, w: u32)
    requires size > 0 && w > 0 && (Min(size, |m.payload|) < |m.payload| ==> w == size)
    ensures MsgEvents(m, size) == [FirstEvent(m)] + RestEvents(m, w, Min(size, |m.payload|))
  {
  }

  /** No message is in flight on any chunk stream. */
  ghost predicate AllIdle(s: Sender)
  {
    forall k: u8 :: IdleAt(s, k)
  }

  predicate IdleAt(s: Sender, k: u8)
  {
    StreamAt(s.streams, k).pos == |StreamAt(s.streams, k).payload|
  }

  function SentAll(ms: seq<Msg>): (r: seq<Msg>)
    ensures |r| == |ms|
  {
    if ms == [] then [] else [Sent(ms[0])] + SentAll(ms[1..])
  }

  /** A fresh connection: 128-byte chunks, no chunk streams. */
  lemma FreshConnection(rd: Reader)
    requires rd.chunks == map[] && rd.size == 128
    ensures Synced(rd, Sender(map[], 128)) && AllIdle(Sender(map[], 128))
  {
    forall k: u8 ensures AgreeAt(rd.chunks, map[], k) {
    }
    forall k: u8 ensures IdleAt(Sender(map[], 128), k) {
    }
  }

  lemma MessageReadsBack(rd: Reader, s: Sender, m: Msg, more: bytes)
    returns (rd1: Reader, s1: Sender, c: Chunk, ack: Option<u32>)
    requires Synced(rd, s) && AllIdle(s) && Wide(s, m) && Sendable(m) && ReadsBack(m)
    ensures ReadMsg(rd, In(ChunksFrom(m, SizeNext(m, s.size), 0) + more, false)) ==
            Delivered(c, ack, rd1, In(more, false))
    ensures View(c) == Sent(m)
    ensures Synced(rd1, s1) && AllIdle(s1) && s1.size == SizeNext(m, s.size)
    ensures s.size >= 4 ==> s1.size >= 4
  {
    assert IdleAt(s, Key(WireId(m)));
    WriterIsRun(s, m);
    var evs := MsgEvents(m, s.size);
    InterleavedReassembly(rd, s, evs, more);
    s1 := AfterRun(s, evs);
    forall k: u8 ensures IdleAt(s1, k) { assert IdleAt(s, k); }
    var i := In(RunBytes(s, evs) + more, false);
    var r := ReadMsg(rd, i);
    assert ReadMany(rd, i, 1).Some? && r.Delivered?;
    c, ack, rd1 := r.m, r.ack, r.rd;
    assert ReadMany(rd, i, 1).value.msgs[0] == View(c);
    assert ReadMany(r.rd, r.i, 0) == Some(Many([], r.rd, r.i));
    assert m.typeId == SET_CHUNK_SIZE ==> m.payload[..4] == m.payload;
  }

  /**
   * Session refinement. Any list of messages written back to back arrives as the same list, with
   * nothing left over and both ends on the same chunk size (and, taking prefixes, so after each one).
   */
  lemma {:induction false} SessionRefinement(rd: Reader, s: Sender, ms: seq<Msg>, rest: bytes)
    requires Synced(rd, s) && AllIdle(s) && s.size >= 4
    requires forall m <- ms :: Sendable(m) && ReadsBack(m)
    ensures var r := ReadMany(rd, In(WriteAll(ms, s.size) + rest, false), |ms|);
            r.Some? && r.value.msgs == SentAll(ms) && r.value.i == In(rest, false) &&
            r.value.rd.size == FinalSize(ms, s.size)
    decreases |ms|
  {
    if ms == [] {
      assert WriteAll(ms, s.size) + rest == rest;
    } else {
      hide ReadMsg, Sendable, ReadsBack;
      var m, w, n := ms[0], SizeNext(ms[0], s.size), |ms| - 1;
      var more := WriteAll(ms[1..], w) + rest;
      var i := In(WriteAll(ms, s.size) + rest, false);
      var rd1, s1, c, ack := MessageReadsBack(rd, s, m, more);
      ConcatAssoc(ChunksFrom(m, w, 0), WriteAll(ms[1..], w), rest);
      SessionRefinement(rd1, s1, ms[1..], rest);
      ReadManyCons(rd, i, c, ack, rd1, In(more, false), n);
      assert n + 1 == |ms| && |ms[1..]| == n;
    }
  }

  /** An empty message writes nothing at all. */
  lemma EmptyMessageVanishes(m: Msg, size: u32)
    requires size > 0 && m.payload == []
    ensures ChunksFrom(m, size, 0) == []
  {
  }

  /** The bytes after the type 0 header of a Set Chunk Size message for c < 4. */
  function Garbled(m: Msg, c: u32): bytes
    requires 0 < c < 4 && |m.payload| == 4
  {
    m.payload[..c] + ChunksFrom(m, c, c)
  }

  /** A continuation starts with a type 3 header byte, and no payload byte of the message is that large. */
  lemma ContinuationBytes(m: Msg, c: u32)
    requires 0 < c < 4 && |m.payload| == 4 && 2 <= WireId(m) < 65600
    ensures |ChunksFrom(m, c, c)| >= 5 - c && ChunksFrom(m, c, c)[0] >= 192
  {
    var end := Min(c + c, 4);
    BasicHeaderOk(3, WireId(m), []);
    var h := ChunkHeader(3, WireId(m), m.timestamp, 4, m.typeId, m.streamId);
    assert ChunksFrom(m, c, c) == h + m.payload[c..end] + ChunksFrom(m, c, end);
    assert |h| >= 1 && h[0] >= 192;
    if c == 1 {
      LaterChunk(m, c, end);
    }
  }

  lemma LaterChunk(m: Msg, c: u32, pos: nat)
    requires c > 0 && 0 < pos < |m.payload| < MOD32
    ensures |ChunksFrom(m, c, pos)| >= |m.payload| - pos
    decreases |m.payload| - pos
  {
    var end := Min(pos + c, |m.payload|);
    var h := ChunkHeader(3, WireId(m), m.timestamp, |m.payload|, m.typeId, m.streamId);
    assert ChunksFrom(m, c, pos) == h + m.payload[pos..end] + ChunksFrom(m, c, end);
    if end < |m.payload| { LaterChunk(m, c, end); }
  }

  lemma GarbledByte(m: Msg, c: u32)
    requires 0 < c < 4 && |m.payload| == 4 && 2 <= WireId(m) < 65600 && FromBE(m.payload) == c
    ensures |Garbled(m, c)| >= 4 && Garbled(m, c)[..4] != m.payload
  {
    hide ChunksFrom, WireId;
    var g := Garbled(m, c);
    ContinuationBytes(m, c);
    FromBEInjective(m.payload);
    SmallBE(c);
    assert g[..4][c] == ChunksFrom(m, c, c)[0];
    assert m.payload[c] <= 3;
  }

  lemma GarbledWire(m: Msg, c: u32)
    requires 0 < c < 4 && |m.payload| == 4
    ensures ChunksFrom(m, c, 0) ==
            ChunkHeader(0, WireId(m), m.timestamp, 4, m.typeId, m.streamId) + Garbled(m, c)
  {
    assert m.payload[0..c] == m.payload[..c];
    ConcatAssoc(ChunkHeader(0, WireId(m), m.timestamp, 4, m.typeId, m.streamId), m.payload[..c], ChunksFrom(m, c, c));
  }

  lemma SmallBE(c: u8)
    ensures BE(c, 4) == [0, 0, 0, c]
  {
    assert BE(0, 1) == [0];
    assert BE(0, 2) == [0, 0];
    assert BE(0, 3) == [0, 0, 0];
  }

  /** A Set Chunk Size message for fewer than four bytes arrives with another payload. */
  lemma SmallChunkSizeGarbles(rd: Reader, s: Sender, m: Msg, more: bytes) returns (seen: Msg)
    requires Synced(rd, s) && AllIdle(s) && s.size >= 4 && Sendable(m)
    requires m.typeId == SET_CHUNK_SIZE && FromBE(m.payload) < 4
    ensures SizeNext(m, s.size) == FromBE(m.payload)
    ensures var r := ReadMsg(rd, In(ChunksFrom(m, FromBE(m.payload), 0) + more, false));
            r.Delivered? && View(r.m) == seen && seen.payload != m.payload && seen.payload != []
  {
    var c := FromBE(m.payload);
    assert m.payload[..4] == m.payload;
    GarbledByte(m, c);
    GarbledWire(m, c);
    var g := Garbled(m, c);
    assert IdleAt(s, Key(WireId(m)));
    var e := FirstEvent(m.(payload := g[..4]));
    GarbledChunk(s, m, g);
    var rd1, d, ack := EventRead(rd, s, e, g[4..] + more);
    Regroup(ChunkHeader(0, WireId(m), m.timestamp, 4, m.typeId, m.streamId), g, more);
    seen := View(d);
    assert seen.payload == g[..4];
  }

  lemma Regroup(h: bytes, g: bytes, more: bytes)
    requires |g| >= 4
    ensures h + g + more == h + g[..4] + (g[4..] + more)
  {
  }

  /** The garbled bytes look to the reader like one chunk of another message. */
  lemma GarbledChunk(s: Sender, m: Msg, g: bytes)
    requires Sendable(m) && |m.payload| == 4 && |g| >= 4 && s.size >= 4 && IdleAt(s, Key(WireId(m)))
    ensures var m' := m.(payload := g[..4]); var e := FirstEvent(m');
            && Good(s, e) && After(s, e) == InFlight(m', 4) && Completes(s, e)
            && EventBytes(s, e) == ChunkHeader(0, WireId(m), m.timestamp, 4, m.typeId, m.streamId) + g[..4]
  {
    var m' := m.(payload := g[..4]);
    var e := FirstEvent(m');
    assert After(s, e) == InFlight(m', 4);
    assert m'.payload[0..4] == g[..4];
  }

  /** Whatever is written, the first message to arrive is not an empty one. */
  lemma {:induction false} FirstIsNotEmpty(rd: Reader, s: Sender, ms: seq<Msg>)
    requires Synced(rd, s) && AllIdle(s) && s.size >= 4
    requires forall m <- ms :: Sendable(m)
    ensures var r := ReadMsg(rd, In(WriteAll(ms, s.size), false));
            r.Delivered? ==> View(r.m).payload != []
    decreases |ms|
  {
    if ms == [] {
      assert ReadBE(In([], false), 1) == (0, In([], true));
    } else {
      var m, w := ms[0], SizeNext(ms[0], s.size);
      var more := WriteAll(ms[1..], w);
      if m.payload == [] {
        EmptyMessageVanishes(m, w);
        assert WriteAll(ms, s.size) == more;
        FirstIsNotEmpty(rd, s, ms[1..]);
      } else if ReadsBack(m) {
        var rd1, s1, c, ack := MessageReadsBack(rd, s, m, more);
      } else {
        var seen := SmallChunkSizeGarbles(rd, s, m, more);
      }
    }
  }

  /**
   * The session property holds exactly for lists of messages that read back: non-empty ones, with
   * no Set Chunk Size below four.
   */
  lemma {:induction false} SessionIff(rd: Reader, s: Sender, ms: seq<Msg>)
    requires Synced(rd, s) && AllIdle(s) && s.size >= 4
    requires forall m <- ms :: Sendable(m)
    ensures var r := ReadMany(rd, In(WriteAll(ms, s.size), false), |ms|);
            (r.Some? && r.value.msgs == SentAll(ms)) <==> forall m <- ms :: ReadsBack(m)
    decreases |ms|
  {
    if ms != [] {
      var m, w, n := ms[0], SizeNext(ms[0], s.size), |ms| - 1;
      var more := WriteAll(ms[1..], w);
      var i := In(WriteAll(ms, s.size), false);
      assert SentAll(ms)[0] == Sent(m) && SentAll(ms)[1..] == SentAll(ms[1..]);
      if ReadsBack(m) {
        var rd1, s1, c, ack := MessageReadsBack(rd, s, m, more);
        ReadManyCons(rd, i, c, ack, rd1, In(more, false), n);
        SessionIff(rd1, s1, ms[1..]);
        assert (forall x <- ms :: ReadsBack(x)) <==> forall x <- ms[1..] :: ReadsBack(x);
        var r := ReadMany(rd1, In(more, false), n);
        if r.Some? { assert ([View(c)] + r.value.msgs)[1..] == r.value.msgs; }
      } else {
        if m.payload == [] {
          FirstIsNotEmpty(rd, s, ms);
        } else {
          var seen := SmallChunkSizeGarbles(rd, s, m, more);
        }
        FirstDiffers(rd, i, |ms|, Sent(m), SentAll(ms));
      }
    }
  }

  lemma FirstDiffers(rd: Reader, i: In, n: nat, first: Msg, all: seq<Msg>)
    requires n > 0 && |all| == n && all[0] == first
    requires ReadMsg(rd, i).Delivered? ==> View(ReadMsg(rd, i).m).payload != first.payload
    ensures ReadMany(rd, i, n).Some? ==> ReadMany(rd, i, n).value.msgs != all
  {
  }
}
