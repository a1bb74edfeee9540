/**
 * The RTMP chunk layer as functions: what the reader does with the bytes it gets,
 * and the bytes the writer produces for a message (Adobe RTMP 1.0, sections 5.3.1 and 5.4.1).
 * ChunkConn.dfy proves the imperative reader and writer against these functions.
 */
module ChunkSpec {
  import opened Bytes
  import opened Options

  const MAX_POOL: u32 := 500 * 1024
  const SET_CHUNK_SIZE: u32 := 1
  const ACK: u32 := 3
  const WINDOW_ACK_SIZE: u32 := 5
  const TAG_AUDIO: u32 := 8
  const TAG_VIDEO: u32 := 9
  const TAG_SCRIPT_AMF0: u32 := 18
  const TAG_SCRIPT_AMF3: u32 := 15
  const EXT: u32 := 0xffffff

  // ---------- reading ----------

  /** What is left of the input, and whether an earlier read failed (every later read then fails too). */
  datatype In = In(rest: bytes, bad: bool)

  /** An n-byte big-endian integer; a failing read returns 0 and leaves nothing to read. */
  function ReadBE(i: In, n: nat): (r: (u32, In))
    requires n <= 4
    ensures |r.1.rest| <= |i.rest| && (i.bad ==> r.1.bad)
  {
    if i.bad then (0, i)
    else if |i.rest| < n then (0, In([], true))
    else
      FromBEBound(i.rest[..n]); Pow256Values();
      (FromBE(i.rest[..n]), In(i.rest[n..], false))
  }

  function ReadLE(i: In, n: nat): (r: (u32, In))
    requires n <= 4
    ensures |r.1.rest| <= |i.rest| && (i.bad ==> r.1.bad)
  {
    if i.bad then (0, i)
    else if |i.rest| < n then (0, In([], true))
    else
      FromLEBound(i.rest[..n]); Pow256Values();
      (FromLE(i.rest[..n]), In(i.rest[n..], false))
  }

  /** The state kept per chunk stream. `data` is what has arrived of the current message. */
  datatype Chunk = Chunk(
    format: u32, csid: u32, timestamp: u32, length: u32, typeId: u32, streamId: u32,
    timeDelta: u32, exted: bool, remain: u32, got: bool, data: bytes)

  const FRESH := Chunk(0, 0, 0, 0, 0, 0, 0, false, 0, false, [])

  /** A step's outcome: a new state, a returned error, or a Go run-time panic. */
  datatype ChunkResult = Stepped(c: Chunk, i: In) | Failed | Panicked

  function Add32(a: u32, b: u32): u32 { (a + b) % MOD32 }

  /** The chunk stream id behind the 6-bit field: one or two more bytes for 0 and 1. */
  function FullId(id6: u8, i: In): (r: (u32, In))
    ensures |r.1.rest| <= |i.rest| && (i.bad ==> r.1.bad)
  {
    if id6 == 0 then
      var (x, i1) := ReadLE(i, 1); ((x + 64) % MOD32, i1)
    else if id6 == 1 then
      var (x, i1) := ReadLE(i, 2); ((x + 64) % MOD32, i1)
    else (id6, i)
  }

  /** A 24-bit time field, or the 32-bit one that follows when it is all ones. */
  function Extended(t: u32, i: In): (r: (u32, bool, In))
    ensures |r.2.rest| <= |i.rest| && (i.bad ==> r.2.bad)
  {
    if t == EXT then var (x, i1) := ReadBE(i, 4); (x, true, i1) else (t, false, i)
  }

  /** Starts a message; the allocator panics on more than it can ever hold. */
  function New(c: Chunk, i: In): (r: ChunkResult)
    ensures r.Stepped? ==> |r.i.rest| <= |i.rest| && (i.bad ==> r.i.bad)
  {
    if c.length > MAX_POOL then Panicked
    else Stepped(c.(got := false, remain := c.length, data := []), i)
  }

  function Head0(c: Chunk, i: In): (r: ChunkResult)
    ensures r.Stepped? ==> |r.i.rest| <= |i.rest| && (i.bad ==> r.i.bad)
  {
    var (t, i1) := ReadBE(i, 3);
    var (len, i2) := ReadBE(i1, 3);
    var (typ, i3) := ReadBE(i2, 1);
    var (sid, i4) := ReadLE(i3, 4);
    var (ts, ext, i5) := Extended(t, i4);
    New(c.(format := 0, timestamp := ts, length := len, typeId := typ, streamId := sid, exted := ext), i5)
  }

  function Head1(c: Chunk, i: In): (r: ChunkResult)
    ensures r.Stepped? ==> |r.i.rest| <= |i.rest| && (i.bad ==> r.i.bad)
  {
    var (t, i1) := ReadBE(i, 3);
    var (len, i2) := ReadBE(i1, 3);
    var (typ, i3) := ReadBE(i2, 1);
    var (d, ext, i4) := Extended(t, i3);
    New(c.(format := 1, timestamp := Add32(c.timestamp, d), length := len, typeId := typ,
           timeDelta := d, exted := ext), i4)
  }

  function Head2(c: Chunk, i: In): (r: ChunkResult)
    ensures r.Stepped? ==> |r.i.rest| <= |i.rest| && (i.bad ==> r.i.bad)
  {
    var (t, i1) := ReadBE(i, 3);
    var (d, ext, i2) := Extended(t, i1);
    New(c.(format := 2, timestamp := Add32(c.timestamp, d), timeDelta := d, exted := ext), i2)
  }

  /** A type 3 chunk: a new message like the last one, or the next piece of the current one. */
  function Head3(c: Chunk, i: In): (r: ChunkResult)
    ensures r.Stepped? ==> |r.i.rest| <= |i.rest| && (i.bad ==> r.i.bad)
  {
    if c.remain == 0 then
      if c.format == 0 then
        if c.exted then var (ts, i1) := ReadBE(i, 4); New(c.(timestamp := ts), i1) else New(c, i)
      else if c.format == 1 || c.format == 2 then
        if c.exted then var (d, i1) := ReadBE(i, 4); New(c.(timestamp := Add32(c.timestamp, d)), i1)
        else New(c.(timestamp := Add32(c.timestamp, c.timeDelta)), i)
      else New(c, i)
    else if c.exted then
      if |i.rest| < 4 then Failed
      else if FromBE(i.rest[..4]) == c.timestamp then Stepped(c, In(i.rest[4..], i.bad))
      else Stepped(c, i)
    else Stepped(c, i)
  }

  function Min(a: int, b: int): int { if a <= b then a else b }

  /** As many payload bytes as the message still lacks, at most one chunk's worth. */
  function Payload(c: Chunk, size: u32, i: In): (r: ChunkResult)
    ensures r.Stepped? ==> |r.i.rest| <= |i.rest| && !i.bad && !r.i.bad
  {
    var n := Min(c.remain, size);
    if i.bad || |i.rest| < n then Failed
    else
      Stepped(c.(data := c.data + i.rest[..n], remain := c.remain - n,
                 got := c.got || c.remain == n), In(i.rest[n..], false))
  }

  function Head(c: Chunk, fmt: nat, i: In): (r: ChunkResult)
    requires fmt < 4
    ensures r.Stepped? ==> |r.i.rest| <= |i.rest| && (i.bad ==> r.i.bad)
  {
    match fmt
    case 0 => Head0(c, i)
    case 1 => Head1(c, i)
    case 2 => Head2(c, i)
    case _ => Head3(c, i)
  }

  /** One chunk after its first byte, on the state of its chunk stream. */
  function ReadChunk(c: Chunk, id6: u8, fmt: nat, size: u32, i: In): (r: ChunkResult)
    requires fmt < 4
    ensures r.Stepped? ==> |r.i.rest| <= |i.rest| && !i.bad && !r.i.bad
  {
    if c.remain != 0 && fmt != 3 then Failed
    else
      var (id, i1) := FullId(id6, i);
      match Head(c.(csid := id), fmt, i1)
      case Stepped(c2, i2) => Payload(c2, size, i2)
      case other => other
  }

  /** The reading half of a connection. */
  datatype Reader = Reader(chunks: map<u8, Chunk>, size: u32, window: u32, received: u32, ackReceived: u32)

  datatype ReadResult = Delivered(m: Chunk, ack: Option<u32>, rd: Reader, i: In) | ReadFailed | ReadPanicked

  function Lookup(chunks: map<u8, Chunk>, k: u8): Chunk
  {
    if k in chunks then chunks[k] else FRESH
  }

  /** The next chunk: the entry it is filed under, and what it does to that entry. */
  function ReadOne(chunks: map<u8, Chunk>, size: u32, i: In): (r: (u8, ChunkResult))
    ensures r.0 < 64
    ensures r.1.Stepped? ==> |r.1.i.rest| < |i.rest| && !r.1.i.bad
  {
    var (h, i1) := ReadBE(i, 1);
    (h % 64, ReadChunk(Lookup(chunks, h % 64), h % 64, h / 64 % 4, size, i1))
  }

  /** Reads chunks until one of them completes a message. */
  function ReadMsg(rd: Reader, i: In): ReadResult
    decreases |i.rest|
  {
    var (k, r) := ReadOne(rd.chunks, rd.size, i);
    match r
    case Failed => ReadFailed
    case Panicked => ReadPanicked
    case Stepped(c, i2) =>
      var rd1 := rd.(chunks := rd.chunks[k := c]);
      if c.got then Deliver(rd1, c, i2) else ReadMsg(rd1, i2)
  }

  lemma ReadMsgStep(rd: Reader, i: In, k: u8, c: Chunk, i2: In)
    requires ReadOne(rd.chunks, rd.size, i) == (k, Stepped(c, i2))
    ensures var rd1 := rd.(chunks := rd.chunks[k := c]);
            ReadMsg(rd, i) == if c.got then Deliver(rd1, c, i2) else ReadMsg(rd1, i2)
  {
    hide ReadChunk, Deliver;
  }

  lemma ReadMsgStops(rd: Reader, i: In)
    ensures ReadOne(rd.chunks, rd.size, i).1.Failed? ==> ReadMsg(rd, i) == ReadFailed
    ensures ReadOne(rd.chunks, rd.size, i).1.Panicked? ==> ReadMsg(rd, i) == ReadPanicked
  {
  }

  /** Applies Set Chunk Size and Window Acknowledgement Size messages. */
  function Control(rd: Reader, m: Chunk): (r: Option<Reader>)
  {
    if m.typeId != SET_CHUNK_SIZE && m.typeId != WINDOW_ACK_SIZE then Some(rd)
    else if |m.data| < 4 then None
    else
      FromBEBound(m.data[..4]); Pow256Values();
      var v: u32 := FromBE(m.data[..4]);
      Some(if m.typeId == SET_CHUNK_SIZE then rd.(size := v) else rd.(window := v))
  }

  /** Counts the message and decides whether an Acknowledgement is due. */
  function Count(rd: Reader, length: u32): (Reader, Option<u32>)
  {
    var total := Add32(rd.received, length);
    var unacked := Add32(rd.ackReceived, length);
    var rd1 := rd.(received := if total >= 0xf000_0000 then 0 else total);
    if unacked >= rd.window then (rd1.(ackReceived := 0), Some(unacked))
    else (rd1.(ackReceived := unacked), None)
  }

  function Deliver(rd: Reader, m: Chunk, i: In): ReadResult
  {
    match Control(rd, m)
    case None => ReadPanicked
    case Some(rd1) => var (rd2, ack) := Count(rd1, m.length); Delivered(m, ack, rd2, i)
  }

  // ---------- writing ----------

  /** A message to send: everything the receiver is meant to see. */
  datatype Msg = Msg(csid: u32, timestamp: u32, typeId: u32, streamId: u32, payload: bytes)

  /** Audio, video and script messages travel on fixed chunk streams. */
  function WireId(m: Msg): u32
  {
    if m.typeId == TAG_AUDIO then 4
    else if m.typeId == TAG_VIDEO || m.typeId == TAG_SCRIPT_AMF0 || m.typeId == TAG_SCRIPT_AMF3 then 6
    else m.csid
  }

  /** What the receiver sees of a chunk state that completed a message. */
  function View(c: Chunk): Msg
  {
    Msg(c.csid, c.timestamp, c.typeId, c.streamId, c.data)
  }

  function BasicHeader(fmt: nat, csid: u32): bytes
    requires fmt < 4
  {
    if csid < 64 then [fmt * 64 + csid]
    else if csid - 64 < 256 then [fmt * 64] + LE(csid - 64, 1)
    else if csid - 64 < 65536 then [fmt * 64 + 1] + LE(csid - 64, 2)
    else []
  }

  /** The message header; `ts` is the timestamp or delta of this chunk's message. */
  function MessageHeader(fmt: nat, ts: u32, len: u32, typ: u32, sid: u32): bytes
    requires fmt < 4
  {
    (if fmt < 3 then BE(Min(ts, EXT), 3) else [])
    + ((if fmt < 2 then BE(len, 3) + BE(typ, 1) else [])
       + ((if fmt == 0 then LE(sid, 4) else [])
          + (if ts >= EXT then BE(ts, 4) else [])))
  }

  function ChunkHeader(fmt: nat, csid: u32, ts: u32, len: u32, typ: u32, sid: u32): bytes
    requires fmt < 4
  {
    BasicHeader(fmt, csid) + MessageHeader(fmt, ts, len, typ, sid)
  }

  /** The chunks of `m` from payload offset `pos` on. */
  function ChunksFrom(m: Msg, size: u32, pos: nat): bytes
    requires size > 0 && |m.payload| < MOD32
    decreases |m.payload| - pos
  {
    if pos >= |m.payload| then []
    else
      var end := Min(pos + size, |m.payload|);
      ChunkHeader(if pos == 0 then 0 else 3, WireId(m), m.timestamp, |m.payload|, m.typeId, m.streamId)
      + m.payload[pos..end] + ChunksFrom(m, size, end)
  }

  /** The chunk size in force once `m` has been handed to the writer: before `m` itself is written. */
  function SizeAfter(m: Msg, size: u32): (r: u32)
    requires m.typeId == SET_CHUNK_SIZE ==> |m.payload| >= 4
  {
    if m.typeId == SET_CHUNK_SIZE then
      FromBEBound(m.payload[..4]); Pow256Values();
      FromBE(m.payload[..4])
    else size
  }

  /** The Acknowledgement message for a count. */
  function AckMessage(v: u32): Msg
  {
    Msg(2, 0, ACK, 0, BE(v, 4))
  }

  function AckBytes(ack: Option<u32>, size: u32): bytes
    requires size > 0
  {
    match ack
    case None => []
    case Some(v) => ChunksFrom(AckMessage(v), size, 0)
  }
}
