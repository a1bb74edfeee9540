/**
 * Any sender that follows RTMP section 5.3.1 against the reader of ChunkSpec: chunks of many
 * messages interleaved, headers inherited, and the chunk size renegotiated inside the stream.
 */
module ChunkRun {
  import opened Bytes
  import opened Options
  import opened ChunkSpec

  /** One chunk stream as its sender sees it: the last header's fields and the message in flight. */
  datatype Stream = Stream(
    csid: u32, ts: u32, typeId: u32, streamId: u32,
    head: nat,      // type of the last header that was not type 3
    field: u32,     // the time field that header carried
    payload: bytes, pos: nat)

  const IDLE := Stream(0, 0, 0, 0, 0, 0, [], 0)

  datatype Sender = Sender(streams: map<u8, Stream>, size: u32)

  /** One chunk: the first of a message, with its header type, or the next one of the message in flight. */
  datatype Event =
    | Begin(csid: u32, head: nat, field: u32, typeId: u32, streamId: u32, payload: bytes)
    | Cont(csid: u32)

  /** The reader files chunk streams by the 6-bit field: ids 64..319 share entry 0, larger ids entry 1. */
  function Key(csid: u32): u8
  {
    if csid < 64 then csid else if csid < 320 then 0 else 1
  }

  predicate ControlOk(typeId: u32, payload: bytes)
  {
    typeId == SET_CHUNK_SIZE || typeId == WINDOW_ACK_SIZE ==> |payload| >= 4
  }

  /** The header fields an event's message has once type 1..3 headers inherit the rest. */
  function Headed(s: Stream, e: Event): (h: Stream)
    requires e.Begin?
    ensures h.pos == 0 && h.payload == e.payload && h.csid == e.csid
  {
    match e.head
    case 0 => Stream(e.csid, e.field, e.typeId, e.streamId, 0, e.field, e.payload, 0)
    case 1 => Stream(e.csid, Add32(s.ts, e.field), e.typeId, s.streamId, 1, e.field, e.payload, 0)
    case 2 => Stream(e.csid, Add32(s.ts, e.field), s.typeId, s.streamId, 2, e.field, e.payload, 0)
    case _ => Stream(e.csid, Add32(s.ts, s.field), s.typeId, s.streamId, s.head, s.field, e.payload, 0)
  }

  /**
   * What a sender may do next on a chunk stream. A message may start with a type 3 header behind any
   * header; behind a type 0 one only where that header's time was zero (`StartAfterAbsoluteIff`).
   */
  predicate Allowed(s: Stream, e: Event)
  {
    2 <= e.csid < 65600 &&
    match e
    case Begin(csid, head, field, typeId, streamId, payload) =>
      && s.pos == |s.payload|
      && head < 4 && |payload| <= MAX_POOL
      && (head >= 2 ==> |payload| == |s.payload|)
      && (head == 3 ==> s.head == 1 || s.head == 2 || s.field == 0)
      && ControlOk(Headed(s, e).typeId, payload)
    case Cont(csid) =>
      csid == s.csid && s.pos < |s.payload| <= MAX_POOL && ControlOk(s.typeId, s.payload)
  }

  /**
   * The reader recognises a repeated extended time field by comparing it with the timestamp it
   * has reached. That is right for an absolute field, and for a delta only if both coincide.
   */
  predicate Recognised(s: Stream)
  {
    s.field < EXT || s.ts == s.field
  }

  /** The stream a chunk's fields and payload are taken from. */
  function Source(s: Stream, e: Event): Stream
  {
    if e.Begin? then Headed(s, e) else s
  }

  function Format(e: Event): nat { if e.Begin? then e.head else 3 }

  function Advance(s: Stream, e: Event, size: u32): (r: Stream)
    requires Allowed(s, e)
    ensures Source(s, e).pos <= r.pos <= |r.payload| <= MAX_POOL
  {
    var h := Source(s, e);
    h.(pos := Min(h.pos + size, |h.payload|))
  }

  /** The bytes of one chunk. A type 3 header repeats an extended time field. */
  function Emit(s: Stream, e: Event, size: u32): bytes
    requires Allowed(s, e)
  {
    var h, end := Source(s, e), Advance(s, e, size).pos;
    ChunkHeader(Format(e), e.csid, h.field, |h.payload|, h.typeId, h.streamId) + h.payload[h.pos..end]
  }

  /** The reader's chunk state agrees with the sender's view of the stream. */
  predicate Agree(c: Chunk, s: Stream)
  {
    && c.format == s.head && c.timestamp == s.ts
    && c.typeId == s.typeId && c.streamId == s.streamId
    && s.pos <= |s.payload| <= MAX_POOL
    && c.length == |s.payload|
    && c.exted == (s.field >= EXT)
    && (s.head != 0 ==> c.timeDelta == s.field)
    && s.head < 3
    && c.data == s.payload[..s.pos]
    && c.remain == |s.payload| - s.pos
    && (c.remain > 0 ==> !c.got)
    && (s.head == 0 ==> s.ts == s.field)
  }

  // ---------- reading back the fields ----------

  lemma ReadBEOk(v: u32, n: nat, rest: bytes)
    requires n <= 4 && v < Pow256(n)
    ensures ReadBE(In(BE(v, n) + rest, false), n) == (v, In(rest, false))
  {
    BEExact(v, n);
    assert (BE(v, n) + rest)[..n] == BE(v, n);
    assert (BE(v, n) + rest)[n..] == rest;
  }

  lemma ReadLEOk(v: u32, n: nat, rest: bytes)
    requires n <= 4 && v < Pow256(n)
    ensures ReadLE(In(LE(v, n) + rest, false), n) == (v, In(rest, false))
  {
    LEExact(v, n);
    assert (LE(v, n) + rest)[..n] == LE(v, n);
    assert (LE(v, n) + rest)[n..] == rest;
  }

  /** The basic header reads back as its type and the full id. */
  lemma BasicHeaderOk(fmt: nat, csid: u32, rest: bytes)
    requires fmt < 4 && 2 <= csid < 65600
    ensures BasicHeader(fmt, csid) != [] && BasicHeader(fmt, csid)[0] == fmt * 64 + Key(csid)
    ensures FullId(Key(csid), In(BasicHeader(fmt, csid)[1..] + rest, false)) == (csid, In(rest, false))
  {
    Pow256Values();
    if csid < 64 {
      assert BasicHeader(fmt, csid)[1..] + rest == rest;
    } else if csid < 320 {
      ReadLEOk(csid - 64, 1, rest);
      assert BasicHeader(fmt, csid)[1..] == LE(csid - 64, 1);
    } else {
      ReadLEOk(csid - 64, 2, rest);
      assert BasicHeader(fmt, csid)[1..] == LE(csid - 64, 2);
    }
  }

  function ExtBytes(ts: u32): bytes { if ts >= EXT then BE(ts, 4) else [] }

  lemma ExtendedOk(ts: u32, rest: bytes)
    ensures Extended(Min(ts, EXT), In(ExtBytes(ts) + rest, false)) == (ts, ts >= EXT, In(rest, false))
  {
    Pow256Values();
    if ts >= EXT { ReadBEOk(ts, 4, rest); } else { assert ExtBytes(ts) + rest == rest; }
  }

  lemma MinLow(ts: u32)
    ensures 0 <= Min(ts, EXT) < 0x100_0000
  {
  }

  lemma Header0Parts(ts: u32, len: u32, typ: u32, sid: u32, rest: bytes)
    ensures MessageHeader(0, ts, len, typ, sid) + rest ==
            BE(Min(ts, EXT), 3) + (BE(len, 3) + (BE(typ, 1) + (LE(sid, 4) + (ExtBytes(ts) + rest))))
  {
    hide BE, LE;
    FiveParts(BE(Min(ts, EXT), 3), BE(len, 3), BE(typ, 1), LE(sid, 4), ExtBytes(ts), rest);
  }

  lemma FiveParts(a: bytes, b: bytes, c: bytes, d: bytes, e: bytes, rest: bytes)
    ensures a + ((b + c) + (d + e)) + rest == a + (b + (c + (d + (e + rest))))
  {
  }

  lemma Header1Parts(d: u32, len: u32, typ: u32, sid: u32, rest: bytes)
    ensures MessageHeader(1, d, len, typ, sid) + rest ==
            BE(Min(d, EXT), 3) + (BE(len, 3) + (BE(typ, 1) + (ExtBytes(d) + rest)))
  {
    hide BE, LE;
    FiveParts(BE(Min(d, EXT), 3), BE(len, 3), BE(typ, 1), [], ExtBytes(d), rest);
    assert [] + (ExtBytes(d) + rest) == ExtBytes(d) + rest;
  }

  lemma Head0Ok(c: Chunk, ts: u32, len: u32, typ: u32, sid: u32, rest: bytes)
    requires len <= MAX_POOL && typ < 256
    ensures Head0(c, In(MessageHeader(0, ts, len, typ, sid) + rest, false)) ==
            Stepped(c.(format := 0, timestamp := ts, length := len, typeId := typ, streamId := sid,
                       exted := ts >= EXT, got := false, remain := len, data := []), In(rest, false))
  {
    hide Head0, MessageHeader;
    Head0Fields(c, ts, len, typ, sid, rest);
  }

  /** A type 0 header is read field by field, whatever the length. */
  lemma Head0Fields(c: Chunk, ts: u32, len: u32, typ: u32, sid: u32, rest: bytes)
    requires len < 0x100_0000 && typ < 256
    ensures Head0(c, In(MessageHeader(0, ts, len, typ, sid) + rest, false)) ==
            New(c.(format := 0, timestamp := ts, length := len, typeId := typ, streamId := sid, exted := ts >= EXT),
                In(rest, false))
  {
    Pow256Values();
    var r1 := ExtBytes(ts) + rest;
    var r2 := LE(sid, 4) + r1;
    var r3 := BE(typ, 1) + r2;
    var r4 := BE(len, 3) + r3;
    Header0Parts(ts, len, typ, sid, rest);
    hide ReadBE, ReadLE, BE, LE, Extended, MessageHeader, ExtBytes, Min, New;
    assert Min(ts, EXT) < 0x100_0000 by { MinLow(ts); }
    ReadBEOk(Min(ts, EXT), 3, r4);
    ReadBEOk(len, 3, r3);
    ReadBEOk(typ, 1, r2);
    ReadLEOk(sid, 4, r1);
    ExtendedOk(ts, rest);
  }

  lemma Head1Ok(c: Chunk, d: u32, len: u32, typ: u32, sid: u32, rest: bytes)
    requires len <= MAX_POOL && typ < 256
    ensures Head1(c, In(MessageHeader(1, d, len, typ, sid) + rest, false)) ==
            Stepped(c.(format := 1, timestamp := Add32(c.timestamp, d), length := len, typeId := typ,
                       timeDelta := d, exted := d >= EXT, got := false, remain := len, data := []), In(rest, false))
  {
    Pow256Values();
    var r1 := ExtBytes(d) + rest;
    var r2 := BE(typ, 1) + r1;
    var r3 := BE(len, 3) + r2;
    Header1Parts(d, len, typ, sid, rest);
    hide ReadBE, ReadLE, BE, LE, Extended, MessageHeader, ExtBytes, Min;
    assert Min(d, EXT) < 0x100_0000 by { MinLow(d); }
    ReadBEOk(Min(d, EXT), 3, r3);
    ReadBEOk(len, 3, r2);
    ReadBEOk(typ, 1, r1);
    ExtendedOk(d, rest);
  }

  lemma Head2Ok(c: Chunk, d: u32, len: u32, typ: u32, sid: u32, rest: bytes)
    requires c.length <= MAX_POOL
    ensures Head2(c, In(MessageHeader(2, d, len, typ, sid) + rest, false)) ==
            Stepped(c.(format := 2, timestamp := Add32(c.timestamp, d), timeDelta := d, exted := d >= EXT,
                       got := false, remain := c.length, data := []), In(rest, false))
  {
    Pow256Values();
    var r1 := ExtBytes(d) + rest;
    assert MessageHeader(2, d, len, typ, sid) + rest == BE(Min(d, EXT), 3) + r1;
    ReadBEOk(Min(d, EXT), 3, r1);
    ExtendedOk(d, rest);
  }

  lemma Head3NewOk(c: Chunk, d: u32, len: u32, typ: u32, sid: u32, rest: bytes)
    requires c.length <= MAX_POOL && c.remain == 0 && c.exted == (d >= EXT)
    requires if c.format == 0 then d == 0 else (c.format == 1 || c.format == 2) && c.timeDelta == d
    ensures Head3(c, In(MessageHeader(3, d, len, typ, sid) + rest, false)) ==
            Stepped(c.(timestamp := Add32(c.timestamp, d), got := false, remain := c.length, data := []),
                    In(rest, false))
  {
    Pow256Values();
    assert MessageHeader(3, d, len, typ, sid) + rest == ExtBytes(d) + rest;
    if d >= EXT { ReadBEOk(d, 4, rest); } else { assert ExtBytes(d) + rest == rest; }
  }

  /**
   * A message started by a type 3 header behind a type 0 one: the reader keeps the timestamp where
   * RTMP section 5.3.1.2.4 adds the type 0 time to it. The two agree exactly when that time is zero.
   */
  lemma StartAfterAbsoluteIff(c: Chunk, s: Stream, rest: bytes)
    requires Agree(c, s) && s.head == 0 && c.remain == 0
    ensures var r := Head3(c, In(MessageHeader(3, s.field, |s.payload|, s.typeId, s.streamId) + rest, false));
            && r.Stepped? && r.i == In(rest, false) && r.c.timestamp == s.ts
            && (r.c.timestamp == Add32(s.ts, s.field) <==> s.field == 0)
  {
    var d := s.field;
    Pow256Values();
    assert MessageHeader(3, d, |s.payload|, s.typeId, s.streamId) + rest == ExtBytes(d) + rest;
    if d >= EXT { ReadBEOk(d, 4, rest); } else { assert ExtBytes(d) + rest == rest; }
  }

  /** Behind a one-byte audio message at time 1000, a second one by a type 3 header is due at 2000 and read at 1000. */
  lemma KeptTimestamp(rest: bytes)
    ensures var s := Stream(4, 1000, 8, 1, 0, 1000, [7], 1);
            var c := Chunk(0, 4, 1000, 1, 8, 1, 0, false, 0, true, [7]);
            var r := ReadChunk(c, 4, 3, 128, In([9] + rest, false));
            && Agree(c, s) && Headed(s, Begin(4, 3, 0, 0, 0, [9])).ts == 2000
            && r.Stepped? && r.i == In(rest, false) && r.c.got && r.c.data == [9] && r.c.timestamp == 1000
  {
    var i := [9] + rest;
    assert i[..1] == [9] && i[1..] == rest;
  }

  /** A continuation's repeated time field is skipped exactly when it equals the timestamp. */
  lemma Head3ContOk(c: Chunk, field: u32, len: u32, typ: u32, sid: u32, rest: bytes)
    requires c.remain != 0 && c.exted == (field >= EXT)
    ensures var i := In(MessageHeader(3, field, len, typ, sid) + rest, false);
            Head3(c, i) == Stepped(c, if field < EXT || c.timestamp == field then In(rest, false) else i)
  {
    Pow256Values();
    assert MessageHeader(3, field, len, typ, sid) + rest == ExtBytes(field) + rest;
    if field >= EXT {
      BEExact(field, 4);
      assert (BE(field, 4) + rest)[..4] == BE(field, 4);
      assert (BE(field, 4) + rest)[4..] == rest;
    } else {
      assert ExtBytes(field) + rest == rest;
    }
  }

  // ---------- one chunk ----------

  predicate TypeOk(e: Event) { e.Begin? ==> e.typeId < 256 }

  /** The header of a new message brings the reader to the sender's view of it. */
  lemma BeginHead(c: Chunk, s: Stream, e: Event, size: u32, rest: bytes) returns (c2: Chunk)
    requires Agree(c, s) && Allowed(s, e) && e.Begin? && TypeOk(e)
    ensures var h := Headed(s, e);
            Head(c.(csid := e.csid), e.head,
                In(MessageHeader(e.head, h.field, |e.payload|, h.typeId, h.streamId) + rest, false))
            == Stepped(c2, In(rest, false)) && Agree(c2, h) && c2.csid == e.csid
    ensures !c2.got && (c.remain == 0 || e.head == 3)
  {
    var c1 := c.(csid := e.csid);
    var h := Headed(s, e);
    if e.head == 0 {
      Head0Ok(c1, e.field, |e.payload|, e.typeId, e.streamId, rest);
      c2 := c1.(format := 0, timestamp := e.field, length := |e.payload|, typeId := e.typeId, streamId := e.streamId,
                exted := e.field >= EXT, got := false, remain := |e.payload|, data := []);
    } else if e.head == 1 {
      Head1Ok(c1, e.field, |e.payload|, e.typeId, h.streamId, rest);
      c2 := c1.(format := 1, timestamp := Add32(c.timestamp, e.field), length := |e.payload|, typeId := e.typeId,
                timeDelta := e.field, exted := e.field >= EXT, got := false, remain := |e.payload|, data := []);
    } else if e.head == 2 {
      Head2Ok(c1, e.field, |e.payload|, h.typeId, h.streamId, rest);
      c2 := c1.(format := 2, timestamp := Add32(c.timestamp, e.field), timeDelta := e.field,
                exted := e.field >= EXT, got := false, remain := c.length, data := []);
    } else {
      Head3NewOk(c1, s.field, |e.payload|, h.typeId, h.streamId, rest);
      c2 := c1.(timestamp := Add32(c.timestamp, s.field), got := false, remain := c.length, data := []);
    }
  }

  /** Payload bytes extend what has arrived. */
  lemma PayloadOk(c: Chunk, h: Stream, size: u32, rest: bytes)
    requires Agree(c, h) && !c.got
    ensures var end := Min(h.pos + size, |h.payload|);
            var c' := c.(data := h.payload[..end], remain := |h.payload| - end, got := end == |h.payload|);
            Payload(c, size, In(h.payload[h.pos..end] + rest, false)) == Stepped(c', In(rest, false)) &&
            Agree(c', h.(pos := end))
  {
    var end := Min(h.pos + size, |h.payload|);
    var n := end - h.pos;
    var input := h.payload[h.pos..end] + rest;
    assert input[..n] == h.payload[h.pos..end] && input[n..] == rest;
    assert h.payload[..h.pos] + h.payload[h.pos..end] == h.payload[..end];
    assert n == Min(c.remain, size);
  }

  /** The three stages of reading a chunk: full id, message header, payload. */
  lemma Stages(c: Chunk, id6: u8, fmt: nat, size: u32, i0: In, id: u32, i1: In, c2: Chunk, i2: In)
    requires fmt < 4 && (c.remain == 0 || fmt == 3)
    requires FullId(id6, i0) == (id, i1)
    requires Head(c.(csid := id), fmt, i1) == Stepped(c2, i2)
    ensures ReadChunk(c, id6, fmt, size, i0) == Payload(c2, size, i2)
  {
  }

  /** What `PayloadOk` leaves: the chunk state with the stream's bytes up to `end`. */
  function Filled(c: Chunk, h: Stream, end: nat): Chunk
    requires end <= |h.payload| <= MAX_POOL
  {
    c.(data := h.payload[..end], remain := |h.payload| - end, got := end == |h.payload|)
  }

  /** The wire form after the first byte. */
  function Wire(fmt: nat, csid: u32, h: Stream, end: nat, rest: bytes): In
    requires fmt < 4 && h.pos <= end <= |h.payload| <= MAX_POOL
  {
    var idBytes := BasicHeader(fmt, csid);
    In((if idBytes == [] then [] else idBytes[1..]) + Body(fmt, h, end, rest).rest, false)
  }

  function Body(fmt: nat, h: Stream, end: nat, rest: bytes): In
    requires fmt < 4 && h.pos <= end <= |h.payload| <= MAX_POOL
  {
    In(MessageHeader(fmt, h.field, |h.payload|, h.typeId, h.streamId) + (h.payload[h.pos..end] + rest), false)
  }

  lemma WireIdOk(fmt: nat, csid: u32, h: Stream, end: nat, rest: bytes)
    requires fmt < 4 && h.pos <= end <= |h.payload| <= MAX_POOL && 2 <= csid < 65600
    ensures FullId(Key(csid), Wire(fmt, csid, h, end, rest)) == (csid, Body(fmt, h, end, rest))
  {
    BasicHeaderOk(fmt, csid, Body(fmt, h, end, rest).rest);
  }

  lemma ContParse(c: Chunk, h: Stream, csid: u32, size: u32, end: nat, rest: bytes)
    requires Agree(c, h) && Recognised(h) && 2 <= csid < 65600 && h.pos < |h.payload|
    requires end == Min(h.pos + size, |h.payload|)
    ensures var c' := Filled(c.(csid := csid), h, end);
            && ReadChunk(c, Key(csid), 3, size, Wire(3, csid, h, end, rest)) == Stepped(c', In(rest, false))
            && Agree(c', h.(pos := end))
  {
    var c2 := c.(csid := csid);
    WireIdOk(3, csid, h, end, rest);
    Head3ContOk(c2, h.field, |h.payload|, h.typeId, h.streamId, h.payload[h.pos..end] + rest);
    Stages(c, Key(csid), 3, size, Wire(3, csid, h, end, rest), csid, Body(3, h, end, rest), c2,
           In(h.payload[h.pos..end] + rest, false));
    PayloadOk(c2, h, size, rest);
  }

  lemma BeginParse(c: Chunk, s: Stream, e: Event, size: u32, end: nat, rest: bytes) returns (c': Chunk)
    requires Agree(c, s) && Allowed(s, e) && TypeOk(e) && e.Begin?
    requires end == Min(size, |e.payload|)
    ensures var h := Headed(s, e);
            && ReadChunk(c, Key(e.csid), e.head, size, Wire(e.head, e.csid, h, end, rest)) ==
               Stepped(c', In(rest, false))
            && Agree(c', h.(pos := end)) && c'.csid == e.csid && c'.got == (end == |e.payload|)
  {
    hide Head, FullId, ReadChunk, Payload, Wire, Headed, MessageHeader, Key, ControlOk;
    var h := Headed(s, e);
    var r2 := h.payload[0..end] + rest;
    WireIdOk(e.head, e.csid, h, end, rest);
    var c2 := BeginHead(c, s, e, size, r2);
    Stages(c, Key(e.csid), e.head, size, Wire(e.head, e.csid, h, end, rest), e.csid, Body(e.head, h, end, rest), c2,
           In(r2, false));
    PayloadOk(c2, h, size, rest);
    c' := Filled(c2, h, end);
  }

  /** The bytes of a chunk after its first byte. */
  function Tail(s: Stream, e: Event, size: u32): bytes
    requires Allowed(s, e)
  {
    var b := Emit(s, e, size);
    if b == [] then [] else b[1..]
  }

  lemma TailParts(a: bytes, b: bytes, c: bytes, rest: bytes)
    requires a != []
    ensures (a + b + c)[0] == a[0] && (a + b + c)[1..] + rest == a[1..] + (b + (c + rest))
  {
  }

  lemma EmitParts(s: Stream, e: Event, size: u32, rest: bytes)
    requires Allowed(s, e)
    ensures var b := Emit(s, e, size);
            && b != [] && b[0] == Format(e) * 64 + Key(e.csid)
            && In(Tail(s, e, size) + rest, false) ==
               Wire(Format(e), e.csid, Source(s, e), Advance(s, e, size).pos, rest)
  {
    BasicHeaderOk(Format(e), e.csid, []);
    var h, end := Source(s, e), Advance(s, e, size).pos;
    TailParts(BasicHeader(Format(e), e.csid), MessageHeader(Format(e), h.field, |h.payload|, h.typeId, h.streamId),
              h.payload[h.pos..end], rest);
  }

  // ---------- runs ----------

  function StreamAt(streams: map<u8, Stream>, k: u8): Stream
  {
    if k in streams then streams[k] else IDLE
  }

  ghost predicate AgreeAll(chunks: map<u8, Chunk>, streams: map<u8, Stream>)
  {
    forall k: u8 :: AgreeAt(chunks, streams, k)
  }

  ghost predicate AgreeAt(chunks: map<u8, Chunk>, streams: map<u8, Stream>, k: u8)
  {
    && Agree(Lookup(chunks, k), StreamAt(streams, k))
    && ControlOk(StreamAt(streams, k).typeId, StreamAt(streams, k).payload)
  }

  /** Reader and sender agree on every chunk stream and on the chunk size. */
  ghost predicate Synced(rd: Reader, s: Sender)
  {
    rd.size == s.size && AgreeAll(rd.chunks, s.streams)
  }

  /** The event is one RTMP allows here, and its repeated time field, if any, will be recognised. */
  predicate Good(s: Sender, e: Event)
  {
    && Allowed(StreamAt(s.streams, Key(e.csid)), e) && TypeOk(e)
    && (e.Cont? ==> Recognised(StreamAt(s.streams, Key(e.csid))))
  }

  function After(s: Sender, e: Event): Stream
    requires Good(s, e)
  {
    Advance(StreamAt(s.streams, Key(e.csid)), e, s.size)
  }

  predicate Completes(s: Sender, e: Event)
    requires Good(s, e)
  {
    After(s, e).pos == |After(s, e).payload|
  }

  /** The message in flight on a stream, as the receiver is meant to see it. */
  function Carried(st: Stream): Msg
  {
    Msg(st.csid, st.ts, st.typeId, st.streamId, st.payload)
  }

  /** A finished Set Chunk Size message governs all chunks after it. */
  function Next(s: Sender, e: Event): Sender
    requires Good(s, e)
  {
    var st := After(s, e);
    Sender(s.streams[Key(e.csid) := st],
           if Completes(s, e) then SizeAfter(Carried(st), s.size) else s.size)
  }

  function EventBytes(s: Sender, e: Event): bytes
    requires Good(s, e)
  {
    Emit(StreamAt(s.streams, Key(e.csid)), e, s.size)
  }

  lemma FirstByte(b: bytes, more: bytes)
    requires b != []
    ensures ReadBE(In(b + more, false), 1) == (b[0], In(b[1..] + more, false))
  {
    var all := b + more;
    assert all[..1] == [b[0]] && all[1..] == b[1..] + more;
    assert FromBE([b[0]]) == b[0] by { assert [b[0]][..0] == []; }
  }

  lemma UnfoldRead(rd: Reader, b: bytes, fmt: nat, k: u8, c: Chunk, more: bytes)
    requires b != [] && b[0] == fmt * 64 + k && fmt < 4 && k < 64
    requires ReadChunk(Lookup(rd.chunks, k), k, fmt, rd.size, In(b[1..] + more, false)) == Stepped(c, In(more, false))
    ensures var rd1 := rd.(chunks := rd.chunks[k := c]);
            ReadMsg(rd, In(b + more, false)) ==
            if c.got then Deliver(rd1, c, In(more, false)) else ReadMsg(rd1, In(more, false))
  {
    FirstByte(b, more);
    TypeAndKey(b[0], fmt, k);
  }

  lemma TypeAndKey(h: u8, fmt: nat, k: u8)
    requires h == fmt * 64 + k && fmt < 4 && k < 64
    ensures h % 64 == k && h / 64 % 4 == fmt
  {
  }

  /** The next chunk of any stream, read on that stream's state. */
  lemma ChunkRead(c0: Chunk, s: Stream, e: Event, size: u32, more: bytes) returns (c: Chunk)
    requires Agree(c0, s) && Allowed(s, e) && TypeOk(e) && (e.Cont? ==> Recognised(s))
    ensures ReadChunk(c0, Key(e.csid), Format(e), size, In(Tail(s, e, size) + more, false)) ==
            Stepped(c, In(more, false))
    ensures var s1 := Advance(s, e, size); Agree(c, s1) && c.csid == e.csid && c.got == (s1.pos == |s1.payload|)
  {
    EmitParts(s, e, size, more);
    var end := Advance(s, e, size).pos;
    if e.Begin? {
      c := BeginParse(c0, s, e, size, end, more);
    } else {
      ContParse(c0, s, e.csid, size, end, more);
      c := Filled(c0.(csid := e.csid), s, end);
    }
  }

  /** One chunk of the run, seen from the message-level read. */
  lemma EventRead(rd: Reader, s: Sender, e: Event, more: bytes)
    returns (rd1: Reader, m: Chunk, ack: Option<u32>)
    requires Synced(rd, s) && Good(s, e)
    ensures Synced(rd1, Next(s, e))
    ensures var i := In(EventBytes(s, e) + more, false);
            if Completes(s, e) then
              ReadMsg(rd, i) == Delivered(m, ack, rd1, In(more, false)) && View(m) == Carried(After(s, e))
            else ReadMsg(rd, i) == ReadMsg(rd1, In(more, false))
  {
    var k, b := Key(e.csid), EventBytes(s, e);
    assert AgreeAt(rd.chunks, s.streams, k);
    var st := StreamAt(s.streams, k);
    m := ChunkRead(Lookup(rd.chunks, k), st, e, s.size, more);
    EmitParts(st, e, s.size, more);
    UnfoldRead(rd, b, Format(e), k, m, more);
    AgreeUpdate(rd.chunks, s.streams, k, m, After(s, e));
    rd1, ack := rd.(chunks := rd.chunks[k := m]), None;
    if Completes(s, e) {
      MessageSeen(m, s, e);
      rd1, ack := DeliverOk(rd1, m, In(more, false));
    }
  }

  lemma MessageSeen(c: Chunk, s: Sender, e: Event)
    requires Good(s, e) && Completes(s, e) && Agree(c, After(s, e)) && c.csid == e.csid
    ensures View(c) == Carried(After(s, e))
  {
    var st := After(s, e);
    assert st.payload[..st.pos] == st.payload;
  }

  lemma AgreeUpdate(chunks: map<u8, Chunk>, streams: map<u8, Stream>, k: u8, c: Chunk, st: Stream)
    requires AgreeAll(chunks, streams) && Agree(c, st) && ControlOk(st.typeId, st.payload)
    ensures AgreeAll(chunks[k := c], streams[k := st])
  {
    var chunks1, streams1 := chunks[k := c], streams[k := st];
    forall j: u8
      ensures AgreeAt(chunks1, streams1, j)
    {
      assert AgreeAt(chunks, streams, j);
    }
  }

  /** Control and acknowledgement bookkeeping leave the chunk streams alone and set the chunk size. */
  lemma DeliverOk(rd: Reader, m: Chunk, i: In) returns (rd1: Reader, ack: Option<u32>)
    requires ControlOk(m.typeId, m.data)
    ensures Deliver(rd, m, i) == Delivered(m, ack, rd1, i)
    ensures rd1.chunks == rd.chunks && rd1.size == SizeAfter(View(m), rd.size)
  {
    var (rd2, a) := Count(Control(rd, m).value, m.length);
    rd1, ack := rd2, a;
  }
}
