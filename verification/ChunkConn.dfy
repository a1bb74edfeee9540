/**
 * The connection as it runs: a buffered reader with a sticky error, a bump allocator that hands
 * out pieces of one array, and a read loop that fills them. Its behaviour is that of ChunkSpec.
 */
module ChunkConn {
  import opened Bytes
  import opened Options
  import opened ChunkSpec

  /** A Go slice: part of an array; `arr == null` is the nil slice. */
  datatype Slice = Slice(arr: array?<u8>, off: nat, len: nat)

  const NIL := Slice(null, 0, 0)

  predicate InBounds(s: Slice)
  {
    if s.arr == null then s.len == 0 else s.off + s.len <= s.arr.Length
  }

  /** The two slices share no memory. */
  predicate Apart(s: Slice, t: Slice)
  {
    s.arr != t.arr || s.off + s.len <= t.off || t.off + t.len <= s.off
  }

  /** The first n bytes of a slice. */
  function Prefix(s: Slice, n: nat): bytes
    requires InBounds(s) && n <= s.len
    reads if s.arr == null then {} else {s.arr}
  {
    if s.arr == null then [] else s.arr[s.off..s.off + n]
  }

  /** A bump allocator over one array, replaced by a new one when the next piece does not fit. */
  class Pool {
    var pos: nat
    var buf: array<u8>
    ghost var given: seq<Slice>   // every slice ever handed out

    /** All slices ever handed out are pairwise apart, and none reaches beyond `pos` in the current array. */
    ghost predicate Valid()
      reads this
    {
      && buf.Length == MAX_POOL && pos <= MAX_POOL
      && (forall k :: 0 <= k < |given| ==> given[k].arr != null && InBounds(given[k]))
      && (forall k :: 0 <= k < |given| && given[k].arr == buf ==> given[k].off + given[k].len <= pos)
      && (forall j, k :: 0 <= j < k < |given| ==> Apart(given[j], given[k]))
    }

    constructor ()
      ensures Valid() && given == [] && fresh(buf)
    {
      buf := new u8[MAX_POOL](_ => 0);
      pos, given := 0, [];
    }

    method Get(size: nat) returns (b: Slice)
      requires Valid() && size <= MAX_POOL
      modifies this
      ensures Valid() && given == old(given) + [b] && b.arr == buf && b.len == size && InBounds(b)
      ensures buf == old(buf) || fresh(buf)
    {
      if MAX_POOL - pos < size {
        pos := 0;
        buf := new u8[MAX_POOL](_ => 0);
      }
      b := Slice(buf, pos, size);
      pos := pos + size;
      given := given + [b];
    }
  }

  /** Copies bytes into an array, one by one; the others stay. */
  method CopyInto(a: array<u8>, from: nat, src: bytes)
    requires from + |src| <= a.Length
    modifies a
    ensures a[from..from + |src|] == src
    ensures forall j :: 0 <= j < a.Length && !(from <= j < from + |src|) ==> a[j] == old(a[j])
  {
    for i := 0 to |src|
      invariant forall j :: 0 <= j < i ==> a[from + j] == src[j]
      invariant forall j :: 0 <= j < a.Length && !(from <= j < from + i) ==> a[j] == old(a[j])
    {
      a[from + i] := src[i];
    }
  }

  /** The two halves of a buffered connection: bytes still to come, bytes written, sticky read error. */
  class ReadWriter {
    var input: bytes
    var readError: bool
    var output: bytes

    constructor (input: bytes)
      ensures this.input == input && !readError && output == []
    {
      this.input, readError, output := input, false, [];
    }

    ghost function Pending(): In
      reads this
    {
      In(input, readError)
    }

    method ReadUintBE(n: nat) returns (v: u32)
      requires n <= 4
      modifies this`input, this`readError
      ensures (v, Pending()) == ReadBE(old(Pending()), n)
    {
      if readError { return 0; }
      ghost var was := input;
      v := 0;
      Pow256Values();
      for i := 0 to n
        invariant i <= |was| && input == was[i..] && !readError
        invariant v == FromBE(was[..i])
      {
        if input == [] {
          readError := true;
          v := 0;
          return;
        }
        assert was[..i + 1][..i] == was[..i];
        FromBEBound(was[..i + 1]);
        PowMono(i + 1, 4);
        v := v * 256 + input[0];
        input := input[1..];
      }
    }

    method ReadUintLE(n: nat) returns (v: u32)
      requires n <= 4
      modifies this`input, this`readError
      ensures (v, Pending()) == ReadLE(old(Pending()), n)
    {
      if readError { return 0; }
      ghost var was := input;
      v := 0;
      var shift: nat := 1;
      Pow256Values();
      for i := 0 to n
        invariant i <= |was| && input == was[i..] && !readError
        invariant v == FromLE(was[..i]) && shift == Pow256(i)
      {
        if input == [] {
          readError := true;
          v := 0;
          return;
        }
        assert was[..i + 1] == was[..i] + [was[i]];
        FromLEAppend(was[..i], was[i]);
        FromLEBound(was[..i + 1]);
        PowMono(i + 1, 4);
        v := v + input[0] * shift;
        shift := shift * 256;
        input := input[1..];
      }
    }

    /** Fills the n bytes of `p` from `at` on; a short input leaves the error set and the input empty. */
    method Read(p: Slice, at: nat, n: nat) returns (ok: bool)
      requires InBounds(p) && at + n <= p.len
      modifies this`input, this`readError, if p.arr == null then {} else {p.arr}
      ensures ok == !(old(readError) || |old(input)| < n)
      ensures ok ==> input == old(input)[n..] && !readError
      ensures ok && p.arr != null ==> p.arr[p.off + at..p.off + at + n] == old(input)[..n]
      ensures p.arr != null ==>
                forall j | 0 <= j < p.arr.Length && !(p.off + at <= j < p.off + at + n) :: p.arr[j] == old(p.arr[j])
    {
      if readError { return false; }
      var k := if |input| < n then |input| else n;
      if p.arr != null && k > 0 { CopyInto(p.arr, p.off + at, input[..k]); }
      input := input[k..];
      readError := k < n;
      ok := k == n;
    }

    method Discard(n: nat)
      requires n <= |input|
      modifies this`input
      ensures input == old(input)[n..]
    {
      input := input[n..];
    }

    method WriteUintBE(v: nat, n: nat)
      modifies this`output
      ensures output == old(output) + BE(v, n)
    {
      ghost var was := output;
      var i := 0;
      while i < n
        invariant i <= n && output == was + BE(v, n)[..i]
      {
        output := output + [(v / Pow256(n - i - 1)) % 256];
        BEAt(v, n, i);
        assert BE(v, n)[..i + 1] == BE(v, n)[..i] + [BE(v, n)[i]];
        i := i + 1;
      }
      assert BE(v, n)[..n] == BE(v, n);
    }

    method WriteUintLE(v: nat, n: nat)
      modifies this`output
      ensures output == old(output) + LE(v, n)
    {
      ghost var was := output;
      var x := v;
      for i := 0 to n
        invariant output + LE(x, n - i) == was + LE(v, n)
      {
        output := output + [x % 256];
        assert LE(x, n - i) == [x % 256] + LE(x / 256, n - i - 1);
        x := x / 256;
      }
    }

    method Write(p: bytes)
      modifies this`output
      ensures output == old(output) + p
    {
      output := output + p;
    }
  }

  lemma {:induction false} PowMono(a: nat, b: nat)
    requires a <= b
    ensures Pow256(a) <= Pow256(b)
  {
    if a < b { PowMono(a, b - 1); }
  }

  /** Byte i of the big-endian form, as the writer's loop computes it. */
  lemma {:induction false} BEAt(v: nat, n: nat, i: nat)
    requires i < n
    ensures BE(v, n)[i] == (v / Pow256(n - i - 1)) % 256
  {
    if i < n - 1 {
      BEAt(v / 256, n - 1, i);
      DivDiv(v, Pow256(n - i - 2));
    }
  }

  lemma DivDiv(v: nat, p: nat)
    requires p > 0
    ensures v / 256 / p == v / (256 * p)
  {
    var q, r := v / 256 / p, v / 256 % p;
    assert v == (q * p + r) * 256 + v % 256;
    assert q * p * 256 == q * (256 * p);
    ModUnique(v, 256 * p, q, r * 256 + v % 256);
  }

  /** The per-stream state as the reader keeps it: `data` is allocator memory filled up to `index`. */
  datatype ChunkStream = ChunkStream(
    format: u32, csid: u32, timestamp: u32, length: u32, typeId: u32, streamId: u32,
    timeDelta: u32, exted: bool, index: nat, remain: u32, got: bool, tmpFormat: nat, data: Slice)
  {
    predicate Ok()
    {
      InBounds(data) && data.len == length && index + remain == length && tmpFormat < 4 && (got ==> remain == 0)
    }

    ghost function Abs(): Chunk
      requires Ok()
      reads if data.arr == null then {} else {data.arr}
    {
      Chunk(format, csid, timestamp, length, typeId, streamId, timeDelta, exted, remain, got, Prefix(data, index))
    }
  }

  const ZERO := ChunkStream(0, 0, 0, 0, 0, 0, 0, false, 0, 0, false, 0, NIL)

  datatype Status = Done | Err | Panic

  method New(cs0: ChunkStream, pool: Pool) returns (cs: ChunkStream, st: Status)
    requires pool.Valid()
    modifies pool
    requires cs0.tmpFormat < 4
    ensures st == (if cs0.length > MAX_POOL then Panic else Done) && pool.Valid() && cs.tmpFormat == cs0.tmpFormat
    ensures st == Done ==> cs.Ok() && cs.Abs().data == []
    ensures st == Panic ==> pool.given == old(pool.given) && pool.buf == old(pool.buf)
    ensures st == Done ==>
              pool.given == old(pool.given) + [cs.data] && cs.data.arr == pool.buf && cs.data.len == cs0.length
    ensures st == Done ==> cs == cs0.(got := false, index := 0, remain := cs0.length, data := cs.data)
    ensures pool.buf == old(pool.buf) || fresh(pool.buf)
  {
    cs := cs0.(got := false, index := 0, remain := cs0.length);
    if cs.length > MAX_POOL { return cs, Panic; }
    var data := pool.Get(cs.length);
    cs := cs.(data := data);
    st := Done;
  }

  /** What a reading method did is what the function says. */
  ghost predicate Outcome(st: Status, cs: ChunkStream, spec: ChunkResult, r: ReadWriter)
    reads r, if cs.data.arr == null then {} else {cs.data.arr}
  {
    match spec
    case Stepped(c, i) => st == Done && cs.Ok() && c == cs.Abs() && i == r.Pending()
    case Failed => st == Err
    case Panicked => st == Panic
  }

  method ReadHead0(cs0: ChunkStream, r: ReadWriter, pool: Pool) returns (cs: ChunkStream, st: Status)
    requires cs0.Ok() && pool.Valid()
    modifies r`input, r`readError, pool
    ensures pool.Valid() && (pool.buf == old(pool.buf) || fresh(pool.buf)) && cs.tmpFormat == cs0.tmpFormat
    ensures Outcome(st, cs, Head0(old(cs0.Abs()), old(r.Pending())), r)
    ensures st == Done ==> pool.given == old(pool.given) + [cs.data] && cs.data.arr == pool.buf
    ensures st != Done ==> pool.given == old(pool.given)
  {
    var ts := r.ReadUintBE(3);
    var len := r.ReadUintBE(3);
    var typ := r.ReadUintBE(1);
    var sid := r.ReadUintLE(4);
    var ext := ts == EXT;
    if ext { ts := r.ReadUintBE(4); }
    cs := cs0.(format := 0, timestamp := ts, length := len, typeId := typ, streamId := sid, exted := ext);
    cs, st := New(cs, pool);
  }

  method ReadHead1(cs0: ChunkStream, r: ReadWriter, pool: Pool) returns (cs: ChunkStream, st: Status)
    requires cs0.Ok() && pool.Valid()
    modifies r`input, r`readError, pool
    ensures pool.Valid() && (pool.buf == old(pool.buf) || fresh(pool.buf)) && cs.tmpFormat == cs0.tmpFormat
    ensures Outcome(st, cs, Head1(old(cs0.Abs()), old(r.Pending())), r)
    ensures st == Done ==> pool.given == old(pool.given) + [cs.data] && cs.data.arr == pool.buf
    ensures st != Done ==> pool.given == old(pool.given)
  {
    var d := r.ReadUintBE(3);
    var len := r.ReadUintBE(3);
    var typ := r.ReadUintBE(1);
    var ext := d == EXT;
    if ext { d := r.ReadUintBE(4); }
    cs := cs0.(format := 1, length := len, typeId := typ, exted := ext, timeDelta := d,
               timestamp := Add32(cs0.timestamp, d));
    cs, st := New(cs, pool);
  }

  method ReadHead2(cs0: ChunkStream, r: ReadWriter, pool: Pool) returns (cs: ChunkStream, st: Status)
    requires cs0.Ok() && pool.Valid()
    modifies r`input, r`readError, pool
    ensures pool.Valid() && (pool.buf == old(pool.buf) || fresh(pool.buf)) && cs.tmpFormat == cs0.tmpFormat
    ensures Outcome(st, cs, Head2(old(cs0.Abs()), old(r.Pending())), r)
    ensures st == Done ==> pool.given == old(pool.given) + [cs.data] && cs.data.arr == pool.buf
    ensures st != Done ==> pool.given == old(pool.given)
  {
    var d := r.ReadUintBE(3);
    var ext := d == EXT;
    if ext { d := r.ReadUintBE(4); }
    cs := cs0.(format := 2, exted := ext, timeDelta := d, timestamp := Add32(cs0.timestamp, d));
    cs, st := New(cs, pool);
  }

  /** A type 3 header that starts a message. */
  method ReadHead3New(cs0: ChunkStream, r: ReadWriter, pool: Pool) returns (cs: ChunkStream, st: Status)
    requires cs0.Ok() && pool.Valid() && cs0.remain == 0
    modifies r`input, r`readError, pool
    ensures pool.Valid() && (pool.buf == old(pool.buf) || fresh(pool.buf)) && cs.tmpFormat == cs0.tmpFormat
    ensures Outcome(st, cs, Head3(old(cs0.Abs()), old(r.Pending())), r)
    ensures st == Done ==> pool.given == old(pool.given) + [cs.data] && cs.data.arr == pool.buf
    ensures st != Done ==> pool.given == old(pool.given)
  {
    cs := cs0;
    if cs.format == 0 {
      if cs.exted {
        var ts := r.ReadUintBE(4);
        cs := cs.(timestamp := ts);
      }
    } else if cs.format == 1 || cs.format == 2 {
      var d := cs.timeDelta;
      if cs.exted { d := r.ReadUintBE(4); }
      cs := cs.(timestamp := Add32(cs.timestamp, d));
    }
    cs, st := New(cs, pool);
  }

  /** A type 3 header that continues one: skips the repeated time field it recognises. */
  method ReadHead3Cont(cs: ChunkStream, r: ReadWriter) returns (st: Status)
    requires cs.Ok() && cs.remain != 0
    modifies r`input
    ensures Outcome(st, cs, Head3(cs.Abs(), old(r.Pending())), r)
  {
    st := Done;
    if cs.exted {
      if |r.input| < 4 { return Err; }
      if FromBE(r.input[..4]) == cs.timestamp { r.Discard(4); }
    }
  }

  /** Reads the message header and makes room for a new message where one starts. */
  method ReadHead(cs0: ChunkStream, r: ReadWriter, pool: Pool) returns (cs: ChunkStream, st: Status)
    requires cs0.Ok() && pool.Valid() && (cs0.remain == 0 || cs0.tmpFormat == 3)
    modifies r`input, r`readError, pool
    ensures pool.Valid() && (pool.buf == old(pool.buf) || fresh(pool.buf)) && cs.tmpFormat == cs0.tmpFormat
    ensures Outcome(st, cs, Head(old(cs0.Abs()), cs0.tmpFormat, old(r.Pending())), r)
    ensures st == Done ==>
              if cs0.remain == 0 then pool.given == old(pool.given) + [cs.data] && cs.data.arr == pool.buf
              else pool.given == old(pool.given) && cs == cs0
    ensures st != Done ==> pool.given == old(pool.given)
  {
    hide Head0, Head1, Head2, Head3;
    match cs0.tmpFormat {
      case 0 => cs, st := ReadHead0(cs0, r, pool);
      case 1 => cs, st := ReadHead1(cs0, r, pool);
      case 2 => cs, st := ReadHead2(cs0, r, pool);
      case _ =>
        if cs0.remain == 0 {
          cs, st := ReadHead3New(cs0, r, pool);
        } else {
          cs := cs0;
          st := ReadHead3Cont(cs0, r);
        }
    }
  }

  /** One or two more bytes of chunk stream id where the 6-bit field asks for them. */
  method ReadId(csid: u32, r: ReadWriter) returns (id: u32)
    requires csid < 64
    modifies r`input, r`readError
    ensures (id, r.Pending()) == FullId(csid, old(r.Pending()))
  {
    id := csid;
    if csid == 0 {
      var x := r.ReadUintLE(1);
      id := (x + 64) % MOD32;
    } else if csid == 1 {
      var x := r.ReadUintLE(2);
      id := (x + 64) % MOD32;
    }
  }

  /** The payload part of a chunk goes behind what the message already has, and nowhere else. */
  method ReadPayload(cs0: ChunkStream, r: ReadWriter, chunkSize: u32) returns (cs: ChunkStream, st: Status)
    requires cs0.Ok()
    modifies r`input, r`readError, if cs0.data.arr == null then {} else {cs0.data.arr}
    ensures Outcome(st, cs, Payload(old(cs0.Abs()), chunkSize, old(r.Pending())), r)
    ensures cs.data == cs0.data
    ensures cs0.data.arr != null ==>
              forall j | 0 <= j < cs0.data.arr.Length && !(cs0.data.off <= j < cs0.data.off + cs0.data.len) ::
                cs0.data.arr[j] == old(cs0.data.arr[j])
  {
    hide Payload;
    cs := cs0;
    ghost var was, i := Prefix(cs.data, cs.index), r.Pending();
    PayloadIs(cs.Abs(), chunkSize, i);
    var size := Min(cs.remain, chunkSize);
    var ok := r.Read(cs.data, cs.index, size);
    if !ok { return cs, Err; }
    Filled(cs.data, cs.index, size, was, i.rest[..size]);
    cs := cs.(index := cs.index + size, remain := cs.remain - size);
    if cs.remain == 0 { cs := cs.(got := true); }
    st := Done;
  }

  lemma PayloadIs(c: Chunk, size: u32, i: In)
    ensures var n := Min(c.remain, size);
            Payload(c, size, i) ==
            if i.bad || |i.rest| < n then Failed
            else Stepped(c.(data := c.data + i.rest[..n], remain := c.remain - n, got := c.got || c.remain == n),
                         In(i.rest[n..], false))
  {
  }

  lemma Filled(s: Slice, at: nat, n: nat, was: bytes, added: bytes)
    requires InBounds(s) && at + n <= s.len && |was| == at && |added| == n
    requires s.arr != null ==> s.arr[s.off..s.off + at] == was && s.arr[s.off + at..s.off + at + n] == added
    ensures Prefix(s, at + n) == was + added
  {
    if s.arr != null {
      assert s.arr[s.off..s.off + at + n] == s.arr[s.off..s.off + at] + s.arr[s.off + at..s.off + at + n];
    }
  }

  /** One chunk after its first byte. */
  method ReadChunkStream(cs0: ChunkStream, r: ReadWriter, chunkSize: u32, pool: Pool)
    returns (cs: ChunkStream, st: Status)
    requires cs0.Ok() && pool.Valid() && cs0.csid < 64
    modifies r`input, r`readError, pool, pool.buf, if cs0.data.arr == null then {} else {cs0.data.arr}
    ensures pool.Valid() && (pool.buf == old(pool.buf) || fresh(pool.buf))
    ensures Outcome(st, cs,
                    ChunkSpec.ReadChunk(old(cs0.Abs()), cs0.csid, cs0.tmpFormat, chunkSize, old(r.Pending())), r)
    ensures st == Done ==>
              if cs0.remain == 0 then pool.given == old(pool.given) + [cs.data] && cs.data.arr == pool.buf
              else pool.given == old(pool.given) && cs.data == cs0.data
    ensures old(pool.given) <= pool.given
    // Memory outside the message being filled is left alone.
    ensures st == Done && cs.data.arr != null ==>
              forall a: array<u8>, j | old(allocated(a)) && 0 <= j < a.Length &&
                !(a == cs.data.arr && cs.data.off <= j < cs.data.off + cs.data.len) :: a[j] == old(a[j])
  {
    hide Head, FullId, Payload;
    cs := cs0;
    if cs.remain != 0 && cs.tmpFormat != 3 { return cs, Err; }
    var id := ReadId(cs.csid, r);
    cs := cs.(csid := id);
    assert cs.Abs() == old(cs0.Abs()).(csid := id);
    cs, st := ReadHead(cs, r, pool);
    if st != Done { return; }
    cs, st := ReadPayload(cs, r, chunkSize);
  }

  /** The id a chunk stream had before does not matter to the next chunk. */
  lemma SameStream(a: Chunk, b: Chunk, id6: u8, fmt: nat, size: u32, i: In)
    requires fmt < 4 && a.(csid := 0) == b.(csid := 0)
    ensures ChunkSpec.ReadChunk(a, id6, fmt, size, i) == ChunkSpec.ReadChunk(b, id6, fmt, size, i)
  {
    hide Head, Payload;
    var (id, i1) := FullId(id6, i);
    assert a.(csid := id) == b.(csid := id);
  }

  // ---------- writing ----------

  lemma OneByte(v: u8)
    ensures BE(v, 1) == [v]
  {
  }

  method WriteBasicHeader(w: ReadWriter, fmt: nat, csid: u32)
    requires fmt < 4
    modifies w`output
    ensures w.output == old(w.output) + BasicHeader(fmt, csid)
  {
    hide BE, LE;
    if csid < 64 {
      w.WriteUintBE(fmt * 64 + csid, 1);
      OneByte(fmt * 64 + csid);
    } else if csid - 64 < 256 {
      w.WriteUintBE(fmt * 64, 1);
      OneByte(fmt * 64);
      w.WriteUintLE(csid - 64, 1);
    } else if csid - 64 < 65536 {
      w.WriteUintBE(fmt * 64 + 1, 1);
      OneByte(fmt * 64 + 1);
      w.WriteUintLE(csid - 64, 2);
    }
  }

  method WriteHeader(w: ReadWriter, fmt: nat, csid: u32, ts: u32, len: u32, typ: u32, sid: u32) returns (ok: bool)
    requires fmt < 4
    modifies w`output
    ensures ok == (fmt >= 2 || len <= 0xffffff)
    ensures ok ==> w.output == old(w.output) + ChunkHeader(fmt, csid, ts, len, typ, sid)
    ensures !ok ==> w.output == old(w.output) + BasicHeader(fmt, csid) + BE(Min(ts, EXT), 3)
  {
    hide BE, LE, BasicHeader;
    WriteBasicHeader(w, fmt, csid);
    ghost var basic := w.output;
    ok := true;
    // A type 3 header carries no message fields; its time field is never capped.
    var t := ts;
    if fmt != 3 {
      t := Min(ts, EXT);
      w.WriteUintBE(t, 3);
      if fmt != 2 {
        if len > 0xffffff { return false; }
        w.WriteUintBE(len, 3);
        w.WriteUintBE(typ, 1);
        if fmt != 1 { w.WriteUintLE(sid, 4); }
      }
    }
    if t >= EXT { w.WriteUintBE(ts, 4); }
    assert w.output == basic + MessageHeader(fmt, ts, len, typ, sid);
  }

  /** Fragments a message; a Length above 24 bits is refused at the first header. */
  method WriteChunk(m: Msg, w: ReadWriter, chunkSize: u32) returns (ok: bool)
    requires chunkSize > 0 && |m.payload| < MOD32
    modifies w`output
    ensures ok == (|m.payload| <= 0xffffff)
    ensures ok ==> w.output == old(w.output) + ChunksFrom(m, chunkSize, 0)
  {
    hide ChunkHeader, ChunksFrom, PieceStart, Pieces;
    var csid := WireId(m);
    var length := |m.payload|;
    var totalLen := 0;
    var numChunks := Pieces(length, chunkSize);
    var i := 0;
    ghost var was := w.output;
    Products(0, chunkSize, length);
    while i <= numChunks && totalLen != length
      invariant 0 <= i <= numChunks + 1 && totalLen == Min(PieceStart(i, chunkSize), length)
      invariant i > 0 ==> length <= 0xffffff
      invariant w.output + ChunksFrom(m, chunkSize, totalLen) == was + ChunksFrom(m, chunkSize, 0)
    {
      Products(i, chunkSize, length);
      ghost var before := w.output;
      ghost var header := ChunkHeader(if i == 0 then 0 else 3, csid, m.timestamp, length, m.typeId, m.streamId);
      ok := WriteHeader(w, if i == 0 then 0 else 3, csid, m.timestamp, length, m.typeId, m.streamId);
      if !ok { return; }
      var inc := chunkSize;
      var start := PieceStart(i, chunkSize);
      if length - start <= inc { inc := length - start; }
      totalLen := totalLen + inc;
      w.Write(m.payload[start..start + inc]);
      NextPiece(m, chunkSize, start);
      Regrouped(before, header, m.payload[start..start + inc], ChunksFrom(m, chunkSize, start + inc));
      i := i + 1;
    }
    Products(i, chunkSize, length);
    EmptyPiece(m, chunkSize);
    assert totalLen == length;
    ok := true;
  }

  lemma Regrouped(a: bytes, b: bytes, c: bytes, d: bytes)
    ensures a + b + c + d == a + (b + c + d)
  {
  }

  /** Where piece i of a message starts. */
  function PieceStart(i: nat, size: nat): nat { i * size }

  /** How many full pieces a length has. */
  function Pieces(length: nat, size: nat): nat
    requires size > 0
  {
    length / size
  }

  lemma Products(i: nat, size: nat, length: nat)
    requires size > 0
    ensures PieceStart(i + 1, size) == PieceStart(i, size) + size && (i == 0 <==> PieceStart(i, size) == 0)
    ensures i > Pieces(length, size) ==> PieceStart(i, size) >= length
  {
    if i > length / size {
      SmallMultiple(i - length / size, size);
      assert (i - length / size) * size == i * size - length / size * size;
    }
    if i > 0 { SmallMultiple(i, size); }
  }

  lemma NextPiece(m: Msg, size: u32, pos: nat)
    requires size > 0 && pos < |m.payload| < MOD32
    ensures var end := Min(pos + size, |m.payload|);
            ChunksFrom(m, size, pos) ==
            ChunkHeader(if pos == 0 then 0 else 3, WireId(m), m.timestamp, |m.payload|, m.typeId, m.streamId)
            + m.payload[pos..end] + ChunksFrom(m, size, end)
  {
  }

  lemma EmptyPiece(m: Msg, size: u32)
    requires size > 0 && |m.payload| < MOD32
    ensures ChunksFrom(m, size, |m.payload|) == []
  {
  }

  // ---------- who holds which memory ----------

  predicate Holds(chunks: map<u8, ChunkStream>, k: u8)
  {
    k in chunks && chunks[k].data.arr != null
  }

  /**
   * Chunk streams hold different slices of the allocator, and a slice still being filled is none
   * of those that went out with a message.
   */
  ghost predicate Owned(chunks: map<u8, ChunkStream>, owner: map<u8, nat>, delivered: set<nat>, given: seq<Slice>)
  {
    && (forall k :: k in chunks ==> chunks[k].Ok() && k < 64)
    && (forall k :: Holds(chunks, k) ==> k in owner && owner[k] < |given| && given[owner[k]] == chunks[k].data)
    && (forall j, k :: Holds(chunks, j) && Holds(chunks, k) && j != k ==> owner[j] != owner[k])
    && (forall d :: d in delivered ==> d < |given|)
    && (forall k :: Holds(chunks, k) && chunks[k].remain > 0 ==> owner[k] !in delivered)
  }

  /** The slice is free for stream k to hold: not delivered, and no other stream's. */
  ghost predicate Free(chunks: map<u8, ChunkStream>, owner: map<u8, nat>, delivered: set<nat>, k: u8, idx: nat)
  {
    idx !in delivered && forall j :: Holds(chunks, j) && j != k ==> j in owner && owner[j] != idx
  }

  lemma OwnedGrow(chunks: map<u8, ChunkStream>, owner: map<u8, nat>, delivered: set<nat>,
                  given: seq<Slice>, given1: seq<Slice>)
    requires Owned(chunks, owner, delivered, given) && given <= given1
    ensures Owned(chunks, owner, delivered, given1)
  {
  }

  lemma OwnedStore(chunks: map<u8, ChunkStream>, owner: map<u8, nat>, delivered: set<nat>, given: seq<Slice>,
                   k: u8, cs: ChunkStream, idx: nat)
    requires Owned(chunks, owner, delivered, given) && k < 64 && cs.Ok()
    requires idx < |given| && given[idx] == cs.data && Free(chunks, owner, delivered, k, idx)
    ensures Owned(chunks[k := cs], owner[k := idx], delivered, given)
  {
    var c1, o1 := chunks[k := cs], owner[k := idx];
    forall j | Holds(c1, j)
      ensures j in o1 && o1[j] < |given| && given[o1[j]] == c1[j].data
      ensures c1[j].remain > 0 ==> o1[j] !in delivered
    {
      assert j != k ==> Holds(chunks, j);
    }
    forall i, j | Holds(c1, i) && Holds(c1, j) && i != j
      ensures o1[i] != o1[j]
    {
      assert i != k ==> Holds(chunks, i);
      assert j != k ==> Holds(chunks, j);
    }
  }

  /** The slice a stream fills next: the newest one for a new message, else the one it holds. */
  lemma FreeSlice(chunks: map<u8, ChunkStream>, owner: map<u8, nat>, delivered: set<nat>, given: seq<Slice>, k: u8)
    requires Owned(chunks, owner, delivered, given)
    ensures Free(chunks, owner, delivered, k, |given|)
    ensures k in chunks && chunks[k].remain > 0 ==>
              Holds(chunks, k) && Free(chunks, owner, delivered, k, owner[k]) &&
              owner[k] < |given| && given[owner[k]] == chunks[k].data
  {
  }

  lemma OwnedDeliver(chunks: map<u8, ChunkStream>, owner: map<u8, nat>, delivered: set<nat>, given: seq<Slice>, k: u8)
    requires Owned(chunks, owner, delivered, given) && Holds(chunks, k) && chunks[k].remain == 0
    ensures Owned(chunks, owner, delivered + {owner[k]}, given)
  {
  }

  /** A stream's state with its data taken from a snapshot of its slice. */
  function Visible(cs: ChunkStream, m: bytes): (c: Chunk)
    ensures c.got == cs.got && c.remain == cs.remain
  {
    Chunk(cs.format, cs.csid, cs.timestamp, cs.length, cs.typeId, cs.streamId, cs.timeDelta, cs.exted,
          cs.remain, cs.got, if cs.index <= |m| then m[..cs.index] else [])
  }

  /** All streams, their data taken from a snapshot of the allocator's slices. */
  ghost function Abstract(chunks: map<u8, ChunkStream>, owner: map<u8, nat>, mem: seq<bytes>): map<u8, Chunk>
  {
    map k | k in chunks :: Visible(chunks[k], if k in owner && owner[k] < |mem| then mem[owner[k]] else [])
  }

  /** Memory that differs only in the slice of stream k changes no other stream. */
  lemma AbstractStore(chunks: map<u8, ChunkStream>, owner: map<u8, nat>, delivered: set<nat>, given: seq<Slice>,
                      mem: seq<bytes>, k: u8, cs: ChunkStream, idx: nat, mem1: seq<bytes>)
    requires Owned(chunks, owner, delivered, given) && |mem| == |given| <= |mem1| && idx < |mem1|
    requires Free(chunks, owner, delivered, k, idx)
    requires forall d :: 0 <= d < |mem| && d != idx ==> mem1[d] == mem[d]
    ensures Abstract(chunks[k := cs], owner[k := idx], mem1) ==
            Abstract(chunks, owner, mem)[k := Visible(cs, mem1[idx])]
  {
    var a := Abstract(chunks[k := cs], owner[k := idx], mem1);
    var b := Abstract(chunks, owner, mem)[k := Visible(cs, mem1[idx])];
    assert a.Keys == b.Keys;
    forall j | j in a.Keys ensures a[j] == b[j] {
      if j != k {
        if Holds(chunks, j) {
          assert mem1[owner[j]] == mem[owner[j]];
        } else {
          assert chunks[j].index == 0;
        }
      }
    }
  }

  /** Filing the new state of stream k, whose slice alone was written, changes the snapshot at k alone. */
  lemma Filing(chunks: map<u8, ChunkStream>, owner: map<u8, nat>, delivered: set<nat>, given: seq<Slice>,
               mem: seq<bytes>, k: u8, cs: ChunkStream, idx: nat, given1: seq<Slice>, mem1: seq<bytes>)
    requires Owned(chunks, owner, delivered, given) && given <= given1 && |mem| == |given| && |mem1| == |given1|
    requires k < 64 && cs.Ok() && idx < |given1| && given1[idx] == cs.data && cs.data.arr != null
    requires Free(chunks, owner, delivered, k, idx)
    requires forall d :: 0 <= d < |mem| && d != idx ==> mem1[d] == mem[d]
    ensures Owned(chunks[k := cs], owner[k := idx], delivered, given1)
    ensures Free(chunks[k := cs], owner[k := idx], delivered, k, idx)
    ensures Abstract(chunks[k := cs], owner[k := idx], mem1) ==
            Abstract(chunks, owner, mem)[k := Visible(cs, mem1[idx])]
  {
    hide Owned, Abstract, Visible;
    OwnedGrow(chunks, owner, delivered, given, given1);
    OwnedStore(chunks, owner, delivered, given1, k, cs, idx);
    AbstractStore(chunks, owner, delivered, given, mem, k, cs, idx, mem1);
  }

  /** Two snapshots show the same bytes in the given slices. */
  ghost predicate SameAt(ds: set<nat>, a: seq<bytes>, b: seq<bytes>)
  {
    forall d :: d in ds ==> d < |a| && d < |b| && a[d] == b[d]
  }

  lemma DeliveredSameAt(chunks: map<u8, ChunkStream>, owner: map<u8, nat>, delivered: set<nat>, given: seq<Slice>,
                        k: u8, idx: nat, mem: seq<bytes>, mem1: seq<bytes>)
    requires Owned(chunks, owner, delivered, given) && |mem| == |given| <= |mem1|
    requires Free(chunks, owner, delivered, k, idx)
    requires forall d :: 0 <= d < |mem| && d != idx ==> mem1[d] == mem[d]
    ensures SameAt(delivered, mem, mem1)
  {
  }

  lemma SameAtTrans(ds: set<nat>, a: seq<bytes>, b: seq<bytes>, c: seq<bytes>)
    requires SameAt(ds, a, b) && SameAt(ds, b, c)
    ensures SameAt(ds, a, c)
  {
  }

  /** A connection: its chunk streams, chunk sizes and acknowledgement counters. */
  class Conn {
    var chunkSize: u32
    var remoteChunkSize: u32
    var remoteWindowAckSize: u32
    var received: u32
    var ackReceived: u32
    var chunks: map<u8, ChunkStream>
    const rw: ReadWriter
    const pool: Pool
    ghost var owner: map<u8, nat>    // which of the allocator's slices each chunk stream holds
    ghost var delivered: set<nat>    // the slices that went out with completed messages

    ghost function Arrays(): set<array?<u8>>
      reads pool
    {
      {pool.buf} + set s: Slice | s in pool.given && s.arr != null :: s.arr
    }

    ghost predicate Valid()
      reads this, pool
    {
      pool.Valid() && chunkSize > 0 && Owned(chunks, owner, delivered, pool.given)
    }

    constructor (rw: ReadWriter)
      ensures Valid() && this.rw == rw && fresh(pool) && fresh(pool.buf) && chunks == map[] && delivered == {}
      ensures chunkSize == 128 && remoteChunkSize == 128 && remoteWindowAckSize == 2500000
      ensures received == 0 && ackReceived == 0
    {
      this.rw := rw;
      pool := new Pool();
      chunkSize, remoteChunkSize, remoteWindowAckSize := 128, 128, 2500000;
      received, ackReceived, chunks, owner, delivered := 0, 0, map[], map[], {};
    }

    /** The bytes now in each slice the allocator has given out. */
    ghost function Memory(): (m: seq<bytes>)
      requires pool.Valid()
      reads pool, Arrays()
      ensures |m| == |pool.given|
    {
      seq(|pool.given|, d requires pool.Valid() && 0 <= d < |pool.given| reads pool, Arrays() =>
        assert pool.given[d] in pool.given; Prefix(pool.given[d], pool.given[d].len))
    }

    ghost function Table(): map<u8, Chunk>
      requires pool.Valid()
      reads `chunks, `owner, pool, Arrays()
    {
      Abstract(chunks, owner, Memory())
    }

    /** The view with a given table of chunk streams. */
    ghost function Counters(table: map<u8, Chunk>): Reader
      reads this
    {
      Reader(table, remoteChunkSize, remoteWindowAckSize, received, ackReceived)
    }

    ghost function View(): Reader
      requires pool.Valid()
      reads this, pool, Arrays()
    {
      Counters(Table())
    }

    /** What a call leaves of the memory: every slice but one as it was. */
    twostate predicate OnlyAt(idx: nat)
      requires old(pool.Valid()) && pool.Valid() && old(pool.given) <= pool.given
      reads pool, Arrays()
    {
      forall d :: 0 <= d < |old(pool.given)| && d != idx ==> Memory()[d] == old(Memory())[d]
    }

    /** What stream k starts from, and which slice it will fill. */
    lemma Ready(k: u8, cs0: ChunkStream, fmt: nat)
      requires Valid() && k < 64 && fmt < 4
      requires cs0 == (if k in chunks then chunks[k] else ZERO).(tmpFormat := fmt, csid := k)
      ensures cs0.Ok() && (cs0.data.arr == null || cs0.data.arr in Arrays())
      ensures Lookup(View().chunks, k).(csid := 0) == cs0.Abs().(csid := 0)
      ensures cs0.remain > 0 ==>
                && Holds(chunks, k) && k in owner && owner[k] < |pool.given| && pool.given[owner[k]] == cs0.data
                && Free(chunks, owner, delivered, k, owner[k])
      ensures Free(chunks, owner, delivered, k, |pool.given|)
    {
      FreeSlice(chunks, owner, delivered, pool.given, k);
      StreamSeen(k, cs0);
      if Holds(chunks, k) { assert pool.given[owner[k]] in pool.given; }
    }

    /** Reads one chunk on a copy of the state of stream k. */
    method ReadStream(k: u8, fmt: nat) returns (cs: ChunkStream, st: Status, ghost idx: nat)
      requires Valid() && k < 64 && fmt < 4
      modifies rw`input, rw`readError, pool, Arrays()
      ensures Outcome(st, cs,
                      ChunkSpec.ReadChunk(old(Lookup(View().chunks, k)), k, fmt, remoteChunkSize, old(rw.Pending())),
                      rw)
      ensures old(pool.given) <= pool.given && pool.Valid()
      ensures st == Done ==> idx < |pool.given| && pool.given[idx] == cs.data && OnlyAt(idx)
      ensures st == Done ==> fresh(Arrays() - old(Arrays())) && Free(chunks, owner, delivered, k, idx)
    {
      hide ChunkSpec.ReadChunk, Owned, Free, Pool.Valid, View, Outcome;
      var cs0 := if k in chunks then chunks[k] else ZERO;
      cs0 := cs0.(tmpFormat := fmt, csid := k);
      Ready(k, cs0, fmt);
      SameStream(Lookup(View().chunks, k), cs0.Abs(), k, fmt, remoteChunkSize, rw.Pending());
      idx := if cs0.remain == 0 then |pool.given| else owner[k];
      cs, st := ReadChunkStream(cs0, rw, remoteChunkSize, pool);
      if st != Done { return; }
      KeptElsewhere(idx);
      ArraysGrow();
    }

    /** The snapshot shows the slice that was filled. */
    lemma FilledSeen(cs: ChunkStream, idx: nat)
      requires pool.Valid() && cs.Ok() && idx < |pool.given| && pool.given[idx] == cs.data
      ensures Visible(cs, Memory()[idx]) == cs.Abs()
    {
      assert cs.data in pool.given;
      assert Memory()[idx] == Prefix(cs.data, cs.data.len);
      assert Prefix(cs.data, cs.index) == Memory()[idx][..cs.index];
    }

    /** The allocator adds at most its newest slice, in the current array. */
    twostate lemma ArraysGrow()
      requires old(pool.Valid()) && pool.Valid()
      requires pool.buf == old(pool.buf) || fresh(pool.buf)
      requires pool.given == old(pool.given) ||
               exists s: Slice :: s.arr == pool.buf && pool.given == old(pool.given) + [s]
      ensures fresh(Arrays() - old(Arrays()))
    {
    }

    /** Slices apart from the one that was written keep their bytes. */
    twostate lemma KeptElsewhere(idx: nat)
      requires old(pool.Valid()) && pool.Valid() && old(pool.given) <= pool.given && idx < |pool.given|
      requires forall a: array<u8>, j | old(allocated(a)) && 0 <= j < a.Length &&
                 !(a == pool.given[idx].arr &&
                   pool.given[idx].off <= j < pool.given[idx].off + pool.given[idx].len) :: a[j] == old(a[j])
      ensures OnlyAt(idx)
    {
      forall d | 0 <= d < |old(pool.given)| && d != idx
        ensures Memory()[d] == old(Memory())[d]
      {
        var s, t := pool.given[d], pool.given[idx];
        assert Apart(s, t) && s == old(pool.given)[d];
        assert s in pool.given && s in old(pool.given);
        if s.arr != null {
          assert s.arr[s.off..s.off + s.len] == old(s.arr[s.off..s.off + s.len]);
        }
        assert Prefix(s, s.len) == old(Prefix(s, s.len));
      }
    }

    /** The snapshot shows a stream as it is. */
    lemma StreamSeen(k: u8, cs0: ChunkStream)
      requires Valid() && k < 64
      requires cs0.(tmpFormat := 0, csid := 0) == (if k in chunks then chunks[k] else ZERO).(tmpFormat := 0, csid := 0)
      requires cs0.tmpFormat < 4
      ensures cs0.Ok() && Lookup(View().chunks, k).(csid := 0) == cs0.Abs().(csid := 0)
    {
      if Holds(chunks, k) {
        var s := pool.given[owner[k]];
        assert s in pool.given;
        assert Prefix(s, cs0.index) == Memory()[owner[k]][..cs0.index];
      }
    }

    lemma SliceGiven(idx: nat)
      requires pool.Valid() && idx < |pool.given|
      ensures pool.given[idx].arr != null
    {
      assert pool.given[idx] in pool.given;
    }

    /** What reading a chunk into stream k left behind, given the step the specification takes. */
    ghost predicate FiledAs(k: u8, st: Status, spec: ChunkResult, before: map<u8, Chunk>)
      reads this, rw, pool, Arrays()
    {
      && (st == Err <==> spec == Failed) && (st == Panic <==> spec == Panicked)
      && (st == Done ==> Valid() && Holds(chunks, k) && k in owner && owner[k] < |pool.given|
                         && Free(chunks, owner, delivered, k, owner[k])
                         && var c := Visible(chunks[k], Memory()[owner[k]]);
                            spec == Stepped(c, rw.Pending()) && View().chunks == before[k := c])
    }

    /** Reads the rest of a chunk into its stream. */
    method ReadInto(k: u8, fmt: nat) returns (st: Status)
      requires Valid() && k < 64 && fmt < 4
      modifies this`chunks, this`owner, rw`input, rw`readError, pool, Arrays()
      ensures FiledAs(k, st,
                      ChunkSpec.ReadChunk(old(Lookup(View().chunks, k)), k, fmt, remoteChunkSize, old(rw.Pending())),
                      old(View().chunks))
      ensures old(pool.given) <= pool.given
      ensures st == Done ==> k in owner && fresh(Arrays() - old(Arrays())) && OnlyAt(owner[k])
      ensures st == Done ==> SameAt(delivered, old(Memory()), Memory())
    {
      hide ChunkSpec.ReadChunk, Owned, SameAt, Abstract, Visible, Memory, Pool.Valid;
      var cs;
      ghost var idx;
      ghost var given, mem := pool.given, Memory();
      cs, st, idx := ReadStream(k, fmt);
      if st != Done { return; }
      FilledSeen(cs, idx);
      assert pool.given[idx].arr != null by { SliceGiven(idx); }
      Filing(chunks, owner, delivered, given, mem, k, cs, idx, pool.given, Memory());
      DeliveredSameAt(chunks, owner, delivered, given, k, idx, mem, Memory());
      chunks := chunks[k := cs];
      owner := owner[k := idx];
    }

    /** Reads one chunk into its stream. */
    method ReadOne() returns (k: u8, st: Status)
      requires Valid()
      modifies this`chunks, this`owner, rw`input, rw`readError, pool, Arrays()
      ensures var (k', spec) := ChunkSpec.ReadOne(old(View().chunks), remoteChunkSize, old(rw.Pending()));
              k == k' && FiledAs(k, st, spec, old(View().chunks))
      ensures old(pool.given) <= pool.given
      ensures st == Done ==> k in owner && fresh(Arrays() - old(Arrays()))
      ensures st == Done ==> SameAt(delivered, old(Memory()), Memory())
    {
      hide ChunkSpec.ReadChunk, ReadBE, FiledAs, Pool.Valid, Owned, Memory, SameAt;
      var h := rw.ReadUintBE(1);
      k := h % 64;
      assert View() == old(View());
      st := ReadInto(k, h / 64 % 4);
    }

    /** Sends a message; a new chunk size takes effect before the message that carries it is written. */
    method Write(m: Msg) returns (ok: bool)
      requires Valid() && |m.payload| < MOD32
      requires m.typeId == SET_CHUNK_SIZE ==> |m.payload| >= 4 && SizeAfter(m, chunkSize) > 0
      modifies this`chunkSize, rw`output
      ensures Valid() && chunkSize == SizeAfter(m, old(chunkSize)) && ok == (|m.payload| <= 0xffffff)
      ensures ok ==> rw.output == old(rw.output) + ChunksFrom(m, chunkSize, 0)
    {
      if m.typeId == SET_CHUNK_SIZE {
        FromBEBound(m.payload[..4]);
        Pow256Values();
        chunkSize := FromBE(m.payload[..4]);
      }
      ok := WriteChunk(m, rw, chunkSize);
    }

    /** Counts what was received and sends an Acknowledgement when the window is used up. */
    method Ack(size: u32, ghost table: map<u8, Chunk>)
      requires chunkSize > 0
      modifies `received, `ackReceived, rw`output
      ensures var (rd, ack) := Count(old(Counters(table)), size);
              Counters(table) == rd && rw.output == old(rw.output) + AckBytes(ack, chunkSize)
    {
      received := Add32(received, size);
      ackReceived := Add32(ackReceived, size);
      if received >= 0xf000_0000 { received := 0; }
      if ackReceived >= remoteWindowAckSize {
        var ok := WriteChunk(AckMessage(ackReceived), rw, chunkSize);
        ackReceived := 0;
      }
    }

    /** Acts on Set Chunk Size and Window Acknowledgement Size; a payload too short for the value panics. */
    method HandleControlMsg(c: ChunkStream, ghost m: Chunk, ghost table: map<u8, Chunk>) returns (st: Status)
      requires InBounds(c.data) && m.typeId == c.typeId && m.data == Prefix(c.data, c.data.len)
      modifies `remoteChunkSize, `remoteWindowAckSize
      ensures match Control(old(Counters(table)), m)
              case None => st == Panic
              case Some(rd) => st == Done && Counters(table) == rd
    {
      st := Done;
      if c.typeId == SET_CHUNK_SIZE || c.typeId == WINDOW_ACK_SIZE {
        if c.data.len < 4 { return Panic; }
        var b := c.data.arr[c.data.off..c.data.off + 4];
        assert m.data == c.data.arr[c.data.off..c.data.off + c.data.len];
        assert b == m.data[..4];
        FromBEBound(b);
        Pow256Values();
        if c.typeId == SET_CHUNK_SIZE {
          remoteChunkSize := FromBE(b);
        } else {
          remoteWindowAckSize := FromBE(b);
        }
      }
    }

    /** Counters and output do not reach into the table. */
    twostate lemma SameTable()
      requires old(pool.Valid()) && pool.Valid() && chunks == old(chunks) && owner == old(owner)
      requires unchanged(pool) && unchanged(old(Arrays()))
      ensures Table() == old(Table()) && Memory() == old(Memory())
    {
      forall d | 0 <= d < |pool.given| ensures Memory()[d] == old(Memory())[d] {
        var s := pool.given[d];
        assert s in pool.given && s.arr in Arrays();
        assert Prefix(s, s.len) == s.arr[..][s.off..s.off + s.len];
        assert old(Prefix(s, s.len)) == old(s.arr[..])[s.off..s.off + s.len];
      }
    }

    /** Reads chunks until one completes a message; the memory of delivered messages keeps its bytes. */
    method ReadChunks() returns (k: u8, st: Status)
      requires Valid()
      modifies `chunks, `owner, rw`input, rw`readError, pool, Arrays()
      ensures match st
              case Err => ReadMsg(old(View()), old(rw.Pending())) == ReadFailed
              case Panic => ReadMsg(old(View()), old(rw.Pending())) == ReadPanicked
              case Done =>
                && Valid() && Holds(chunks, k) && k in owner && owner[k] < |pool.given| && chunks[k].remain == 0
                && owner[k] !in delivered
                && ReadMsg(old(View()), old(rw.Pending())) ==
                   Deliver(View(), Visible(chunks[k], Memory()[owner[k]]), rw.Pending())
      ensures old(pool.given) <= pool.given
      ensures st == Done ==> SameAt(delivered, old(Memory()), Memory())
    {
      hide ChunkSpec.ReadOne, Deliver, Abstract, Visible, Memory, ReadMsg, Pool.Valid, SameAt, OnlyAt, Owned, Free;
      ghost var mem := Memory();
      DeliveredSame(mem);
      while true
        invariant Valid() && old(pool.given) <= pool.given
        invariant fresh(Arrays() - old(Arrays()))
        invariant ReadMsg(View(), rw.Pending()) == ReadMsg(old(View()), old(rw.Pending()))
        invariant SameAt(delivered, mem, Memory())
        decreases |rw.input|
      {
        ghost var rd, i, before := View(), rw.Pending(), Memory();
        k, st := ReadOne();
        if st != Done {
          ReadMsgStops(rd, i);
          return;
        }
        SameAtTrans(delivered, mem, before, Memory());
        ReadMsgStep(rd, i, k, Visible(chunks[k], Memory()[owner[k]]), rw.Pending());
        if chunks[k].got {
          Arrived(k);
          break;
        }
      }
    }

    /** A stream that has a whole message waits for no more of it, and the message is not delivered yet. */
    lemma Arrived(k: u8)
      requires Valid() && Holds(chunks, k) && k in owner && owner[k] < |pool.given| && chunks[k].got
      requires Free(chunks, owner, delivered, k, owner[k])
      ensures chunks[k].remain == 0 && owner[k] !in delivered
    {
    }

    lemma DeliveredSame(mem: seq<bytes>)
      requires Valid() && mem == Memory()
      ensures SameAt(delivered, mem, mem)
    {
    }

    /**
     * Reads the next message. The memory of every message delivered before keeps its bytes, and the
     * new message's memory joins it.
     */
    method Read() returns (c: ChunkStream, st: Status, ghost idx: nat)
      requires Valid()
      modifies this, rw, pool, Arrays()
      ensures match ReadMsg(old(View()), old(rw.Pending()))
              case ReadFailed => st == Err
              case ReadPanicked => st == Panic
              case Delivered(m, ack, rd, i) =>
                && st == Done && Valid() && View() == rd && rw.Pending() == i
                && idx !in old(delivered) && delivered == old(delivered) + {idx}
                && idx < |pool.given| && pool.given[idx] == c.data && Visible(c, Memory()[idx]) == m && m.remain == 0
                && chunkSize == old(chunkSize) && rw.output == old(rw.output) + AckBytes(ack, chunkSize)
      ensures old(pool.given) <= pool.given
      ensures st == Done ==> forall d <- old(delivered) :: Memory()[d] == old(Memory())[d]
    {
      hide Owned, Abstract, Visible, Memory, Table, Control, Count, ReadMsg, Pool.Valid, AckBytes;
      var k;
      idx := 0;
      k, st := ReadChunks();
      if st != Done { return ZERO, st, 0; }
      c, idx := chunks[k], owner[k];
      ghost var m, table := Visible(c, Memory()[idx]), Table();
      Whole(k);
      OwnedDeliver(chunks, owner, delivered, pool.given, k);
      label read:
      st := HandleControlMsg(c, m, table);
      if st != Done { return; }
      Ack(c.length, table);
      delivered := delivered + {idx};
      SameTable@read();
    }

    /** A finished message's memory is its whole payload. */
    lemma Whole(k: u8)
      requires Valid() && Holds(chunks, k) && chunks[k].remain == 0
      ensures var c := chunks[k]; var m := Visible(c, Memory()[owner[k]]);
              && InBounds(c.data) && m.typeId == c.typeId && m.length == c.length
              && m.data == Prefix(c.data, c.data.len) && m.remain == 0
              && owner[k] < |pool.given| && pool.given[owner[k]] == c.data
    {
      var s := pool.given[owner[k]];
      assert s in pool.given;
      assert Memory()[owner[k]] == Prefix(s, s.len);
      assert Memory()[owner[k]][..chunks[k].index] == Memory()[owner[k]];
    }
  }
}
