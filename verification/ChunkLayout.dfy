/** The bytes of chunk headers and messages, and the numbers of the protocol, written out. */
module ChunkLayout {
  import opened Bytes
  import opened Options
  import opened ChunkSpec
  import opened ChunkAcks
  import opened ChunkRun

  /** Three bytes, most significant first. */
  function Three(v: nat): bytes
    requires v < 0x100_0000
  {
    [v / 0x1_0000, v / 0x100 % 0x100, v % 0x100]
  }

  /** The basic header (Adobe RTMP 1.0, section 5.3.1.1): one byte, two or three. */
  function IdBytes(fmt: nat, id: u32): bytes
    requires fmt < 4 && 2 <= id < 65600
  {
    if id < 64 then [fmt * 64 + id]
    else if id < 320 then [fmt * 64, id - 64]
    else [fmt * 64 + 1, (id - 64) % 0x100, (id - 64) / 0x100]
  }

  /** Eleven bytes, seven, three or none (section 5.3.1.2), the stream id with its least significant byte first. */
  function Fields(fmt: nat, ts: u32, len: u32, typ: u32, sid: u32): bytes
    requires fmt < 4 && len < 0x100_0000 && typ < 0x100
  {
    var time := Three(if ts < 0xff_ffff then ts else 0xff_ffff);
    var word := WordBytes(sid);
    match fmt
    case 0 => time + (Three(len) + [typ] + [word[3], word[2], word[1], word[0]])
    case 1 => time + (Three(len) + [typ])
    case 2 => time
    case _ => []
  }

  /** The time in full, behind every header whose time is too large for three bytes (section 5.3.1.3). */
  function Extension(ts: u32): bytes { if ts < 0xff_ffff then [] else WordBytes(ts) }

  lemma HeaderLaid(fmt: nat, id: u32, ts: u32, len: u32, typ: u32, sid: u32)
    requires fmt < 4 && 2 <= id < 65600 && len < 0x100_0000 && typ < 0x100
    ensures ChunkHeader(fmt, id, ts, len, typ, sid) ==
            IdBytes(fmt, id) + (Fields(fmt, ts, len, typ, sid) + Extension(ts))
  {
    hide BE, LE, BasicHeader, IdBytes, WordBytes, Three;
    IdLaid(fmt, id);
    WordBytesAre(ts);
    FieldsLaid(fmt, ts, len, typ, sid);
  }

  lemma FieldsLaid(fmt: nat, ts: u32, len: u32, typ: u32, sid: u32)
    requires fmt < 4 && len < 0x100_0000 && typ < 0x100
    ensures MessageHeader(fmt, ts, len, typ, sid) ==
            Fields(fmt, ts, len, typ, sid) + if ts >= EXT then BE(ts, 4) else []
  {
    hide BE, LE, WordBytes, Three;
    FieldBytes(ts, len, typ, sid);
    var word, time, e := WordBytes(sid), BE(Min(ts, EXT), 3), if ts >= EXT then BE(ts, 4) else [];
    FourParts(time, BE(len, 3) + BE(typ, 1), LE(sid, 4), e);
    FourParts(time, BE(len, 3) + BE(typ, 1), [], e);
    FourParts(time, [], [], e);
    FourParts([], [], [], e);
  }

  lemma FieldBytes(ts: u32, len: u32, typ: u32, sid: u32)
    requires len < 0x100_0000 && typ < 0x100
    ensures BE(Min(ts, EXT), 3) == Three(if ts < 0xff_ffff then ts else 0xff_ffff)
    ensures BE(len, 3) == Three(len) && BE(typ, 1) == [typ]
    ensures var w := WordBytes(sid); LE(sid, 4) == [w[3], w[2], w[1], w[0]]
  {
    hide BE, LE, WordBytes, Three;
    ThreeBytesAre(Min(ts, EXT));
    ThreeBytesAre(len);
    WordReversed(sid);
    ByteIs(typ);
  }

  lemma ByteIs(v: u8)
    ensures BE(v, 1) == [v]
  {
    assert BE(0, 0) + [v] == [v];
  }

  lemma FourParts(a: bytes, b: bytes, c: bytes, e: bytes)
    ensures a + (b + (c + e)) == a + (b + c) + e && b + [] == b && a + [] == a && [] + e == e
  {
  }

  lemma ThreeBytesAre(v: nat)
    requires v < 0x100_0000
    ensures BE(v, 3) == Three(v)
  {
    var a, b := v / 0x100, v / 0x1_0000;
    assert a / 0x100 == b && b / 0x100 == 0;
    assert BE(b, 1) == BE(0, 0) + [b] == [b];
    assert BE(a, 2) == BE(b, 1) + [a % 0x100] == [b, a % 0x100];
    assert BE(v, 3) == BE(a, 2) + [v % 0x100] == [b, a % 0x100, v % 0x100];
  }

  lemma WordReversed(v: u32)
    ensures var w := WordBytes(v); LE(v, 4) == [w[3], w[2], w[1], w[0]]
  {
    var a, b, c := v / 0x100, v / 0x1_0000, v / 0x100_0000;
    assert a / 0x100 == b && b / 0x100 == c && c / 0x100 == 0;
    assert LE(c, 1) == [c] + LE(0, 0) == [c];
    assert LE(b, 2) == [b % 0x100] + LE(c, 1);
    assert LE(a, 3) == [a % 0x100] + LE(b, 2);
    assert LE(v, 4) == [v % 0x100] + LE(a, 3);
  }

  lemma IdLaid(fmt: nat, id: u32)
    requires fmt < 4 && 2 <= id < 65600
    ensures BasicHeader(fmt, id) == IdBytes(fmt, id)
  {
    var x := id - 64;
    if x >= 256 {
      assert LE(x / 0x100, 1) == [x / 0x100] + LE(0, 0) == [x / 0x100];
      assert LE(x, 2) == [x % 0x100] + LE(x / 0x100, 1);
    } else if x >= 0 {
      assert LE(x, 1) == [x] + LE(0, 0) == [x];
    }
  }

  // ---------- messages ----------

  /** Audio (type 8) travels on chunk stream 4, video (9) and data (15 and 18) on 6, all else on its own. */
  function Channel(m: Msg): u32
  {
    if m.typeId == 8 then 4 else if m.typeId in {9, 15, 18} then 6 else m.csid
  }

  /** What follows the first chunk: pieces of the payload behind headers of type 3. */
  function Pieces(m: Msg, size: u32, pos: nat): bytes
    requires size > 0 && 2 <= Channel(m) < 65600
    decreases |m.payload| - pos
  {
    if pos >= |m.payload| then []
    else
      var end: nat := if pos + size < |m.payload| then pos + size else |m.payload|;
      IdBytes(3, Channel(m)) + Extension(m.timestamp) + m.payload[pos..end] + Pieces(m, size, end)
  }

  /** A whole message as it goes out; an empty one leaves nothing. */
  lemma MessageLaid(m: Msg, size: u32)
    requires size > 0 && 2 <= Channel(m) < 65600 && |m.payload| < 0x100_0000 && m.typeId < 0x100
    ensures m.payload == [] ==> ChunksFrom(m, size, 0) == []
    ensures m.payload != [] ==>
              var n: nat := if size < |m.payload| then size else |m.payload|;
              ChunksFrom(m, size, 0) ==
              IdBytes(0, Channel(m))
              + (Fields(0, m.timestamp, |m.payload|, m.typeId, m.streamId) + Extension(m.timestamp))
              + m.payload[..n] + Pieces(m, size, n)
  {
    hide IdBytes, Fields, Extension, ChunkHeader;
    if m.payload != [] {
      HeaderLaid(0, Channel(m), m.timestamp, |m.payload|, m.typeId, m.streamId);
      var n: nat := if size < |m.payload| then size else |m.payload|;
      PiecesLaid(m, size, n);
    }
  }

  lemma {:induction false} PiecesLaid(m: Msg, size: u32, pos: nat)
    requires size > 0 && 2 <= Channel(m) < 65600 && |m.payload| < 0x100_0000 && m.typeId < 0x100 && pos > 0
    ensures ChunksFrom(m, size, pos) == Pieces(m, size, pos)
    decreases |m.payload| - pos
  {
    hide IdBytes, Extension, ChunkHeader;
    if pos < |m.payload| {
      HeaderLaid(3, Channel(m), m.timestamp, |m.payload|, m.typeId, m.streamId);
      assert [] + Extension(m.timestamp) == Extension(m.timestamp);
      PiecesLaid(m, size, if pos + size < |m.payload| then pos + size else |m.payload|);
    }
  }

  // ---------- the numbers of the protocol ----------

  /** Type 1 sets the chunk size and type 5 the window, to the number in the first four bytes, which must be there. */
  lemma ControlIff(rd: Reader, m: Chunk, size: u32)
    ensures Control(rd, m) == None <==> m.typeId in {1, 5} && |m.data| < 4
    ensures Control(rd, m).Some? ==>
              Control(rd, m).value ==
              if m.typeId == 1 then rd.(size := Word(m.data))
              else if m.typeId == 5 then rd.(window := Word(m.data)) else rd
    ensures m.typeId == 1 && |m.data| >= 4 ==> SizeAfter(View(m), size) == Word(m.data)
    ensures m.typeId != 1 ==> SizeAfter(View(m), size) == size
  {
    if |m.data| >= 4 { WordIs(m.data); }
  }

  /** A message starts exactly if its length is at most 512000 bytes: the buffer pool hands out no more at once. */
  lemma PoolIff(c: Chunk, id: u8, ts: u32, len: u32, typ: u32, sid: u32, size: u32, rest: bytes)
    requires c.remain == 0 && 2 <= id < 64 && len < 0x100_0000 && typ < 0x100
    ensures var i := In(Fields(0, ts, len, typ, sid) + Extension(ts) + rest, false);
            ReadChunk(c, id, 0, size, i).Panicked? <==> len > 512000
  {
    FieldsLaid(0, ts, len, typ, sid);
    WordBytesAre(ts);
    Head0Fields(c.(csid := id), ts, len, typ, sid, rest);
    hide Fields, MessageHeader, Head0, BE, Word, WordBytes;
    var i := In(Fields(0, ts, len, typ, sid) + Extension(ts) + rest, false);
    assert i.rest == MessageHeader(0, ts, len, typ, sid) + rest;
    assert FullId(id, i) == (id, i);
  }
}
