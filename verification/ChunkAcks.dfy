/**
 * Acknowledgements over whole runs of reads: when one is due, what it says, that nothing received is left out
 * or counted twice, and that a peer reads it.
 */
module ChunkAcks {
  import opened Bytes
  import opened Options
  import opened ChunkSpec
  import opened ChunkRun
  import opened ChunkSession

  /** What has arrived and what is missing make up the length; only a whole message is marked as got. */
  predicate Sound(c: Chunk) { |c.data| + c.remain == c.length && (c.remain > 0 ==> !c.got) }

  ghost predicate SoundReader(rd: Reader) { forall k: u8 :: SoundAt(rd.chunks, k) }

  predicate SoundAt(chunks: map<u8, Chunk>, k: u8) { Sound(Lookup(chunks, k)) }

  lemma HeadSound(c: Chunk, fmt: nat, i: In)
    requires fmt < 4 && Sound(c) && (c.remain != 0 ==> fmt == 3)
    ensures var r := Head(c, fmt, i); r.Stepped? ==> Sound(r.c)
  {
    hide ReadBE, ReadLE, Extended;
  }

  lemma PayloadSound(c: Chunk, size: u32, i: In)
    requires Sound(c)
    ensures var r := Payload(c, size, i); r.Stepped? ==> Sound(r.c) && (r.c.got ==> r.c.remain == 0)
  {
  }

  lemma ChunkSound(c: Chunk, id6: u8, fmt: nat, size: u32, i: In)
    requires fmt < 4 && Sound(c)
    ensures var r := ReadChunk(c, id6, fmt, size, i);
            r.Stepped? ==> Sound(r.c) && (r.c.got ==> r.c.remain == 0)
  {
    hide FullId, Head, Payload, Sound;
    if c.remain == 0 || fmt == 3 {
      var (id, i1) := FullId(id6, i);
      IdSound(c, id);
      HeadSound(c.(csid := id), fmt, i1);
      var h := Head(c.(csid := id), fmt, i1);
      if h.Stepped? { PayloadSound(h.c, size, h.i); }
    }
  }

  lemma IdSound(c: Chunk, id: u32)
    ensures Sound(c.(csid := id)) <==> Sound(c)
  {
  }

  lemma FreshSound(rd: Reader)
    requires rd.chunks == map[]
    ensures SoundReader(rd)
  {
  }

  // ---------- one message ----------

  /** The big-endian value of four bytes. */
  function Word(b: bytes): u32
    requires |b| >= 4
  {
    var b0: nat, b1: nat, b2: nat, b3: nat := b[0], b[1], b[2], b[3];
    b0 * 0x100_0000 + b1 * 0x1_0000 + b2 * 0x100 + b3
  }

  function WordBytes(v: u32): bytes { [v / 0x100_0000, v / 0x1_0000 % 0x100, v / 0x100 % 0x100, v % 0x100] }

  lemma WordIs(b: bytes)
    requires |b| >= 4
    ensures FromBE(b[..4]) == Word(b)
  {
    var b0: nat, b1: nat, b2: nat, b3: nat := b[0], b[1], b[2], b[3];
    assert b[..4][..3] == b[..3] && b[..3][..2] == b[..2] && b[..2][..1] == b[..1] && b[..1][..0] == [];
    assert FromBE(b[..1]) == b0;
    assert FromBE(b[..2]) == b0 * 0x100 + b1;
    assert FromBE(b[..3]) == (b0 * 0x100 + b1) * 0x100 + b2;
    assert FromBE(b[..4]) == ((b0 * 0x100 + b1) * 0x100 + b2) * 0x100 + b3;
  }

  lemma WordBytesAre(v: u32)
    ensures BE(v, 4) == WordBytes(v)
  {
    var a, b, c := v / 0x100, v / 0x1_0000, v / 0x100_0000;
    assert a / 0x100 == b && b / 0x100 == c && c / 0x100 == 0;
    assert BE(c, 1) == BE(0, 0) + [c] == [c];
    assert BE(b, 2) == BE(c, 1) + [b % 0x100] == [c, b % 0x100];
    assert BE(a, 3) == BE(b, 2) + [a % 0x100] == [c, b % 0x100, a % 0x100];
    assert BE(v, 4) == BE(a, 3) + [v % 0x100] == [c, b % 0x100, a % 0x100, v % 0x100];
  }

  /** The window once a message of type 5 has been taken: it is in force for that message already. */
  function WindowAfter(m: Msg, window: u32): u32
  {
    if m.typeId == 5 && |m.payload| >= 4 then Word(m.payload) else window
  }

  /** What is pending with a message counted. */
  function Counted(pending: u32, m: Msg): u32 { (pending + |m.payload|) % 0x1_0000_0000 }

  /**
   * A message is acknowledged if and only if its payload bytes bring the pending count to the window, with
   * that count, which then starts over; otherwise it stays pending. No other message sets the window.
   */
  lemma AckIff(rd: Reader, i: In)
    requires SoundReader(rd)
    ensures match ReadMsg(rd, i)
            case Delivered(m, ack, rd1, i1) =>
              var n, w := Counted(rd.ackReceived, View(m)), WindowAfter(View(m), rd.window);
              && (ack.Some? <==> n >= w) && (ack.Some? ==> ack.value == n)
              && rd1.ackReceived == (if ack.Some? then 0 else n) && rd1.window == w && SoundReader(rd1)
            case _ => true
    decreases |i.rest|
  {
    hide ReadChunk, ReadBE, Deliver, Sound;
    var (k, r) := ReadOne(rd.chunks, rd.size, i);
    if r.Stepped? {
      var (h, i1) := ReadBE(i, 1);
      assert SoundAt(rd.chunks, k);
      ChunkSound(Lookup(rd.chunks, k), k, h / 64 % 4, rd.size, i1);
      var rd1 := rd.(chunks := rd.chunks[k := r.c]);
      StillSound(rd, k, r.c);
      if r.c.got { DeliverAcks(rd1, r.c, r.i); } else { AckIff(rd1, r.i); }
    }
  }

  lemma StillSound(rd: Reader, k: u8, c: Chunk)
    requires SoundReader(rd) && Sound(c)
    ensures SoundReader(rd.(chunks := rd.chunks[k := c]))
  {
    hide Sound;
    var next := rd.chunks[k := c];
    forall j: u8 ensures SoundAt(next, j) {
      if j != k { assert SoundAt(rd.chunks, j); }
    }
  }

  lemma DeliverAcks(rd: Reader, m: Chunk, i: In)
    requires Sound(m) && m.remain == 0
    ensures match Deliver(rd, m, i)
            case Delivered(c, ack, rd1, i1) =>
              var n, w := Counted(rd.ackReceived, View(m)), WindowAfter(View(m), rd.window);
              && c == m && (ack.Some? <==> n >= w) && (ack.Some? ==> ack.value == n)
              && rd1.ackReceived == (if ack.Some? then 0 else n) && rd1.window == w && rd1.chunks == rd.chunks
            case _ => true
  {
    if |m.data| >= 4 { WordIs(m.data); }
  }

  // ---------- runs ----------

  /** The acknowledgements that n message reads give, one entry for each message. */
  function Acks(rd: Reader, i: In, n: nat): (r: seq<Option<u32>>)
    requires ReadMany(rd, i, n).Some?
    ensures |r| == n
    decreases n
  {
    if n == 0 then []
    else match ReadMsg(rd, i) case Delivered(m, ack, rd1, i1) => [ack] + Acks(rd1, i1, n - 1)
  }

  /** Which acknowledgements are due for a list of messages, by their payload lengths alone. */
  function Due(pending: u32, window: u32, ms: seq<Msg>): seq<Option<u32>>
    decreases |ms|
  {
    if ms == [] then []
    else
      var n, w := Counted(pending, ms[0]), WindowAfter(ms[0], window);
      if n >= w then [Some(n)] + Due(0, w, ms[1..]) else [None] + Due(n, w, ms[1..])
  }

  function Acked(acks: seq<Option<u32>>): nat
  {
    if acks == [] then 0 else (if acks[0].Some? then acks[0].value else 0) + Acked(acks[1..])
  }

  function PayloadBytes(ms: seq<Msg>): nat { if ms == [] then 0 else |ms[0].payload| + PayloadBytes(ms[1..]) }

  predicate Same(x: nat, y: nat) { x % 0x1_0000_0000 == y % 0x1_0000_0000 }

  /**
   * Over any run of reads: the acknowledgements are the ones due for the messages delivered, and those counts
   * with what is pending at the end are what was pending before and the payload bytes of the messages, modulo
   * 2^32; what is pending stays below the window.
   */
  lemma {:induction false} AcksConserve(rd: Reader, i: In, n: nat)
    requires SoundReader(rd) && ReadMany(rd, i, n).Some?
    ensures var r, acks := ReadMany(rd, i, n).value, Acks(rd, i, n);
            && acks == Due(rd.ackReceived, rd.window, r.msgs)
            && Same(Acked(acks) + r.rd.ackReceived, rd.ackReceived + PayloadBytes(r.msgs))
            && (n > 0 || rd.ackReceived < rd.window ==> r.rd.ackReceived < r.rd.window || r.rd.ackReceived == 0)
    decreases n
  {
    hide ReadMsg, Counted, WindowAfter, Same, SoundReader;
    if n == 0 {
      SameSelf(rd.ackReceived);
    } else {
      AckIff(rd, i);
      var s := ReadMsg(rd, i);
      AcksConserve(s.rd, s.i, n - 1);
      var r := ReadMany(s.rd, s.i, n - 1).value;
      var acks, m := Acks(s.rd, s.i, n - 1), View(s.m);
      assert ([s.ack] + acks)[1..] == acks && ([m] + r.msgs)[1..] == r.msgs;
      CountedSame(rd.ackReceived, m, s.ack, s.rd.ackReceived);
      hide ReadMany, Acks, Due, Acked, PayloadBytes;
      Carry(rd.ackReceived, |m.payload|, if s.ack.Some? then s.ack.value else 0, s.rd.ackReceived,
            Acked(acks) + r.rd.ackReceived, PayloadBytes(r.msgs));
    }
  }

  lemma SameSelf(x: nat)
    ensures Same(x, x)
  {
  }

  lemma CountedSame(pending: u32, m: Msg, ack: Option<u32>, left: u32)
    requires if ack.Some? then ack.value == Counted(pending, m) && left == 0 else left == Counted(pending, m)
    ensures Same((if ack.Some? then ack.value else 0) + left, pending + |m.payload|)
  {
  }

  lemma Carry(a: nat, l: nat, out: nat, kept: nat, x: nat, y: nat)
    requires Same(out + kept, a + l) && Same(x, kept + y)
    ensures Same(out + x, a + (l + y))
  {
    var i, j := (out + kept) / MOD32 - (a + l) / MOD32, x / MOD32 - (kept + y) / MOD32;
    assert out + kept == a + l + i * MOD32 && x == kept + y + j * MOD32;
    SameShift(out + x, a + (l + y), i + j);
  }

  lemma SameShift(x: nat, y: nat, k: int)
    requires x == y + k * MOD32
    ensures Same(x, y)
  {
    ModUnique(x, MOD32, y / MOD32 + k, y % MOD32);
  }

  // ---------- the acknowledgement as a message ----------

  /** A peer in agreement reads an acknowledgement as a message of type 3 on id 2 with the count, big-endian. */
  lemma AckReads(rd: Reader, s: Sender, v: u32, more: bytes)
    requires Synced(rd, s) && AllIdle(s) && s.size > 0
    ensures var r := ReadMsg(rd, In(AckBytes(Some(v), s.size) + more, false));
            && r.Delivered? && View(r.m) == Msg(2, 0, 3, 0, WordBytes(v))
            && r.i == In(more, false) && r.rd.size == rd.size
  {
    AckFits(v, s);
    hide ReadMsg, Sendable, ReadsBack, Wide, ChunksFrom, Sent, WordBytes, AckMessage, AllIdle;
    var rd1, s1, c, ack := MessageReadsBack(rd, s, AckMessage(v), more);
  }

  lemma AckFits(v: u32, s: Sender)
    requires s.size > 0
    ensures var m := AckMessage(v);
            && Sendable(m) && ReadsBack(m) && Wide(s, m)
            && SizeNext(m, s.size) == s.size && Sent(m) == Msg(2, 0, 3, 0, WordBytes(v))
  {
    hide WordBytes;
    Pow256Values();
    BEExact(v, 4);
    WordBytesAre(v);
  }
}
