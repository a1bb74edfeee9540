/**
 * The sender as RTMP section 5.3.1 has it, where a chunk stream inherits from itself, against a reader
 * that files all ids from 64 on under two entries: what arrives, and what two ids in one entry do.
 */
module ChunkPeer {
  import opened Bytes
  import opened Options
  import opened ChunkSpec
  import opened ChunkRun
  import opened ChunkSession

  /** Every chunk stream by its id, and the id that each of the reader's entries was last used with. */
  datatype Peer = Peer(streams: map<u32, Stream>, last: map<u8, u32>, size: u32)

  function Own(p: Peer, csid: u32): Stream { if csid in p.streams then p.streams[csid] else IDLE }

  /** What the standard allows next, with a repeated time field that is recognised. */
  predicate PeerGood(p: Peer, e: Event)
  {
    Allowed(Own(p, e.csid), e) && TypeOk(e) && (e.Cont? ==> Recognised(Own(p, e.csid)))
  }

  /** No chunk of another stream was filed where this one goes, unless it is done and a full header follows. */
  predicate Clear(p: Peer, e: Event)
  {
    var k := Key(e.csid);
    k in p.last && p.last[k] != e.csid ==>
      e.Begin? && e.head == 0 && var o := Own(p, p.last[k]); o.pos == |o.payload|
  }

  function PeerNext(p: Peer, e: Event): Peer
    requires PeerGood(p, e)
  {
    var st := Advance(Own(p, e.csid), e, p.size);
    Peer(p.streams[e.csid := st], p.last[Key(e.csid) := e.csid],
         if st.pos == |st.payload| then SizeAfter(Carried(st), p.size) else p.size)
  }

  predicate PeerRun(p: Peer, evs: seq<Event>)
    decreases |evs|
  {
    evs == [] || (PeerGood(p, evs[0]) && Clear(p, evs[0]) && PeerRun(PeerNext(p, evs[0]), evs[1..]))
  }

  function PeerBytes(p: Peer, evs: seq<Event>): bytes
    requires PeerRun(p, evs)
    decreases |evs|
  {
    if evs == [] then []
    else Emit(Own(p, evs[0].csid), evs[0], p.size) + PeerBytes(PeerNext(p, evs[0]), evs[1..])
  }

  /** The messages of a run, with the fields their own chunk streams give them. */
  function PeerMessages(p: Peer, evs: seq<Event>): seq<Msg>
    requires PeerRun(p, evs)
    decreases |evs|
  {
    if evs == [] then []
    else
      var st := Advance(Own(p, evs[0].csid), evs[0], p.size);
      (if st.pos == |st.payload| then [Carried(st)] else []) + PeerMessages(PeerNext(p, evs[0]), evs[1..])
  }

  /** The reader's entries are the streams they were last used with. */
  ghost predicate Tracks(p: Peer, s: Sender)
  {
    && p.size == s.size && p.last.Keys == s.streams.Keys
    && (forall k <- p.last :: Key(p.last[k]) == k && s.streams[k] == Own(p, p.last[k]))
    && (forall id <- p.streams :: Key(id) in p.last)
  }

  lemma StepTracks(p: Peer, s: Sender, e: Event)
    requires Tracks(p, s) && PeerGood(p, e) && Clear(p, e)
    ensures Good(s, e) && After(s, e) == Advance(Own(p, e.csid), e, p.size)
    ensures EventBytes(s, e) == Emit(Own(p, e.csid), e, p.size) && Tracks(PeerNext(p, e), Next(s, e))
  {
    StepSame(p, s, e);
    hide SizeAfter, Good, PeerGood, Advance, Clear, Tracks;
    var st := After(s, e);
    Filed(p, s, e.csid, st, Next(s, e).size);
  }

  lemma StepSame(p: Peer, s: Sender, e: Event)
    requires Tracks(p, s) && PeerGood(p, e) && Clear(p, e)
    ensures Good(s, e) && After(s, e) == Advance(Own(p, e.csid), e, p.size)
    ensures EventBytes(s, e) == Emit(Own(p, e.csid), e, p.size)
  {
    hide ChunkHeader, Key;
    var k := Key(e.csid);
    if k in p.last && p.last[k] != e.csid {
      assert Headed(Own(p, e.csid), e) == Headed(StreamAt(s.streams, k), e);
    } else {
      assert Own(p, e.csid) == StreamAt(s.streams, k);
    }
  }

  lemma Filed(p: Peer, s: Sender, csid: u32, st: Stream, size: u32)
    requires Tracks(p, s)
    ensures var k := Key(csid);
            Tracks(Peer(p.streams[csid := st], p.last[k := csid], size), Sender(s.streams[k := st], size))
  {
    hide Key;
  }

  lemma {:induction false} RunTracks(p: Peer, s: Sender, evs: seq<Event>)
    requires Tracks(p, s) && PeerRun(p, evs)
    ensures ValidRun(s, evs) && RunBytes(s, evs) == PeerBytes(p, evs) && Completed(s, evs) == PeerMessages(p, evs)
    decreases |evs|
  {
    hide Tracks, Good, PeerGood, Clear, EventBytes, Emit, After, Advance, Next, PeerNext, Carried;
    if evs != [] {
      StepTracks(p, s, evs[0]);
      CompletesSame(s, evs[0]);
      RunTracks(PeerNext(p, evs[0]), Next(s, evs[0]), evs[1..]);
    }
  }

  lemma CompletesSame(s: Sender, e: Event)
    requires Good(s, e)
    ensures Completes(s, e) <==> After(s, e).pos == |After(s, e).payload|
  {
  }

  /**
   * Interleaved reassembly by the standard's own account: every message arrives with the fields its chunk
   * stream gives it, in order of completion, as long as a chunk goes to an entry that another id used last
   * only to start over there, with that id's message complete and a full header.
   */
  lemma PeerReassembly(rd: Reader, s: Sender, p: Peer, evs: seq<Event>, rest: bytes)
    requires Synced(rd, s) && Tracks(p, s) && PeerRun(p, evs)
    ensures var r := ReadMany(rd, In(PeerBytes(p, evs) + rest, false), |PeerMessages(p, evs)|);
            r.Some? && r.value.msgs == PeerMessages(p, evs)
  {
    hide Synced, Tracks, PeerRun, ValidRun, ReadMany, RunBytes, Completed, PeerBytes, PeerMessages;
    RunTracks(p, s, evs);
    InterleavedReassembly(rd, s, evs, rest);
  }

  /** Below 64 every id has an entry of its own, so nothing need be asked. */
  lemma SmallIdsClear(p: Peer, e: Event)
    requires e.csid < 64 && forall k <- p.last :: Key(p.last[k]) == k
    requires 2 <= e.csid && forall id <- p.last.Values :: 2 <= id
    ensures Clear(p, e)
  {
    var k := Key(e.csid);
    if k in p.last { assert p.last[k] in p.last.Values; }
  }

  lemma NewPeer()
    ensures Tracks(Peer(map[], map[], 128), Sender(map[], 128))
  {
  }

  // ---------- two ids in one entry ----------

  /** The fields a header of type 1 or 2 leaves to what came before. */
  predicate SameInherited(head: nat, a: Stream, b: Stream)
  {
    a.ts == b.ts && a.streamId == b.streamId && (head == 2 ==> a.typeId == b.typeId)
  }

  /**
   * A message started with a type 1 or 2 header where another id was filed last is read, and with the
   * fields its own chunk stream gives it if and only if the other one would give it the same.
   */
  lemma SharedEntryIff(c0: Chunk, other: Stream, own: Stream, e: Event, size: u32, more: bytes)
    requires Agree(c0, other) && Allowed(other, e) && Allowed(own, e) && TypeOk(e)
    requires e.Begin? && (e.head == 1 || e.head == 2) && |e.payload| <= size
    ensures Tail(own, e, size) == Tail(other, e, size)
    ensures var r := ReadChunk(c0, Key(e.csid), e.head, size, In(Tail(own, e, size) + more, false));
            && r.Stepped? && r.c.got
            && (View(r.c) == Carried(Advance(own, e, size)) <==> SameInherited(e.head, other, own))
  {
    TailSame(own, other, e, size);
    var c := ChunkRead(c0, other, e, size, more);
    hide ReadChunk, Tail;
    var st, due := Advance(other, e, size), Advance(own, e, size);
    assert st.payload[..st.pos] == e.payload;
    AddSame(other.ts, own.ts, e.field);
  }

  lemma TailSame(a: Stream, b: Stream, e: Event, size: u32)
    requires Allowed(a, e) && Allowed(b, e) && e.Begin? && (e.head == 1 || e.head == 2)
    ensures Tail(a, e, size) == Tail(b, e, size)
  {
  }

  lemma AddSame(x: u32, y: u32, z: u32)
    ensures Add32(x, z) == Add32(y, z) <==> x == y
  {
    if x + z >= MOD32 { ModUnique(x + z, MOD32, 1, x + z - MOD32); }
    if y + z >= MOD32 { ModUnique(y + z, MOD32, 1, y + z - MOD32); }
  }

  /**
   * Audio on stream 64 at time 1000, then video on stream 65 at time 5000; the next audio, 20 behind the
   * last by a type 2 header, is due at 1020 and arrives as video at 5020.
   */
  lemma TwoIdsMixed(rest: bytes)
    ensures var own, other := Stream(64, 1000, 8, 1, 0, 1000, [7], 1), Stream(65, 5000, 9, 1, 0, 5000, [8], 1);
            var c0, e := Chunk(0, 65, 5000, 1, 9, 1, 0, false, 0, true, [8]), Begin(64, 2, 20, 8, 1, [9]);
            && Key(64) == Key(65) && Agree(c0, other) && Allowed(own, e) && Allowed(other, e)
            && Carried(Advance(own, e, 128)) == Msg(64, 1020, 8, 1, [9])
            && var r := ReadChunk(c0, Key(64), 2, 128, In(Tail(own, e, 128) + rest, false));
               r.Stepped? && r.c.got && View(r.c) == Msg(64, 5020, 9, 1, [9])
  {
    var own, other := Stream(64, 1000, 8, 1, 0, 1000, [7], 1), Stream(65, 5000, 9, 1, 0, 5000, [8], 1);
    var c0, e := Chunk(0, 65, 5000, 1, 9, 1, 0, false, 0, true, [8]), Begin(64, 2, 20, 8, 1, [9]);
    assert other.payload[..1] == [8];
    SharedEntryIff(c0, other, own, e, 128, rest);
    var c := ChunkRead(c0, other, e, 128, rest);
    assert [9][..1] == [9];
  }

  /** While a message of one id is in flight, no message of another can start in its entry. */
  lemma BusyEntryFails(c0: Chunk, other: Stream, e: Event, size: u32, i: In)
    requires Agree(c0, other) && other.pos < |other.payload| && e.Begin? && e.head < 3
    ensures ReadChunk(c0, Key(e.csid), e.head, size, i) == Failed
  {
  }
}
