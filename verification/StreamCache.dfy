/** The cache and the fan-out as they run: ring slots, flags and the table of writers updated in place. */
module StreamCache {
  import opened Bytes
  import opened Options
  import opened Av
  import opened GopSpec
  import opened StoreSpec
  import opened Fanout
  import Timestamps

  /** The packets the cache's ring refers to; a reference is a place in it. */
  class Store {
    var cells: seq<Packet>

    constructor ()
      ensures cells == []
    {
      cells := [];
    }

    method Add(p: Packet) returns (ref: nat)
      modifies this
      ensures ref == |old(cells)| && cells == old(cells) + [p]
    {
      ref := |cells|;
      cells := cells + [p];
    }
  }

  /**
   * A writer with the entry the stream keeps for it: `init` says it has had the cache's contents. It queues
   * what it is handed until its connection breaks, and sends it later. One that rewrites may put other
   * packets in the places it was handed.
   */
  class Writer {
    const rewrites: bool
    var init: bool
    var broken: bool
    var sent: seq<Packet>
    var queue: seq<Handle>
    var held: set<nat>
    var clock: Timestamps.Clock
    ghost var at: nat     // how many packets the publisher had sent when the writer was added
    ghost var base: nat   // how much the writer had sent before

    constructor (rewrites: bool)
      ensures this.rewrites == rewrites && !init && !broken && sent == [] && queue == [] && held == {}
      ensures clock == Timestamps.Clock(0, 0, 0)
    {
      this.rewrites := rewrites;
      init, broken, sent, queue, held := false, false, [], [], {};
      clock, at, base := Timestamps.Clock(0, 0, 0), 0, 0;
    }

    /** A copy of a packet. */
    method Write(p: Packet) returns (ok: bool)
      modifies `queue
      ensures ok == !broken && queue == if broken then old(queue) else old(queue) + [Copy(p)]
    {
      ok := !broken;
      if ok { queue := queue + [Copy(p)]; }
    }

    /** A packet of the store itself. */
    method Take(ref: nat) returns (ok: bool)
      modifies `queue, `held
      ensures ok == !broken && queue == if broken then old(queue) else old(queue) + [Shared(ref)]
      ensures held == old(held) + if ok && rewrites then {ref} else {}
    {
      ok := !broken;
      if ok { queue := queue + [Shared(ref)]; }
      if ok && rewrites { held := held + {ref}; }
    }

    /** The writer's own thread: what waits first goes out as it is by now. */
    method SendFirst(store: Store)
      requires Fetchable(queue, |store.cells|) && base <= |sent|
      modifies `sent, `queue
      ensures AsPlayer() == SentFirst(old(AsPlayer()), store.cells) && base <= |sent|
    {
      if queue == [] { return; }
      ghost var all := Fetch(store.cells, queue);
      var p := match queue[0] case Copy(p) => p case Shared(ref) => store.cells[ref];
      sent := sent + [p];
      queue := queue[1..];
      assert sent[base..] == old(sent[base..]) + [all[0]];
    }

    ghost function AsPlayer(): Player
      reads this
    {
      Player(rewrites, init, at, if base <= |sent| then sent[base..] else [], queue, held)
    }
  }

  /** What of the places it is handed a writer keeps. */
  ghost function Keeps(rewrites: bool, refs: seq<nat>): set<nat> { if rewrites then set x | x in refs else {} }

  lemma KeepsMore(rewrites: bool, a: seq<nat>, b: seq<nat>)
    ensures Keeps(rewrites, a + b) == Keeps(rewrites, a) + Keeps(rewrites, b)
    ensures AsShared(a + b) == AsShared(a) + AsShared(b)
  {
  }

  // ---------- groups of pictures ----------

  class GopArray {
    var index: nat
    var packets: seq<nat>

    ghost predicate Valid()
      reads this
    {
      index == |packets| <= MAX_GOP
    }

    constructor ()
      ensures Valid() && packets == []
    {
      index, packets := 0, [];
    }

    method Reset()
      modifies this
      ensures Valid() && packets == []
    {
      index, packets := 0, [];
    }

    method Write(ref: nat)
      requires Valid()
      modifies this
      ensures Valid() && packets == Push(old(packets), ref)
    {
      if index >= MAX_GOP { return; }
      packets := packets + [ref];
      index := index + 1;
    }

    /** The packets themselves, not copies of them. */
    method Send(w: Writer) returns (ok: bool)
      requires Valid()
      modifies w`queue, w`held
      ensures ok == (!w.broken || packets == [])
      ensures w.queue == old(w.queue) + if ok then AsShared(packets) else []
      ensures w.held == old(w.held) + if ok then Keeps(w.rewrites, packets) else {}
    {
      for i := 0 to index
        invariant w.queue == old(w.queue) + AsShared(packets[..i])
        invariant w.held == old(w.held) + Keeps(w.rewrites, packets[..i])
        invariant i > 0 ==> !w.broken
      {
        ok := w.Take(packets[i]);
        if !ok { return; }
        assert packets[..i + 1] == packets[..i] + [packets[i]];
        KeepsMore(w.rewrites, packets[..i], [packets[i]]);
      }
      assert packets[..index] == packets;
      ok := true;
    }
  }

  datatype Sent = Complete | Failed | Crash

  class GopCache {
    var start: bool
    var num: nat
    var nextindex: nat
    const count: nat
    const gops: array<GopArray?>

    ghost function Slots(): set<object>
      reads gops
    {
      set i | 0 <= i < gops.Length && gops[i] != null :: gops[i]
    }

    ghost predicate Valid()
      reads this, gops, Slots()
    {
      && gops.Length == count
      && (forall i :: 0 <= i < count && gops[i] != null ==> gops[i].Valid())
      && (forall i, j :: 0 <= i < j < count && gops[i] != null ==> gops[i] != gops[j])
    }

    ghost function Slot(i: nat): Option<seq<nat>>
      requires i < gops.Length
      reads gops, Slots()
    {
      if gops[i] == null then None else Some(gops[i].packets)
    }

    ghost function Abs(): Ring<nat>
      reads this, gops, Slots()
    {
      Ring(start, num, count, nextindex,
          seq(gops.Length, i requires 0 <= i < gops.Length reads gops, Slots() => Slot(i)))
    }

    constructor (n: nat)
      ensures Valid() && count == n && Abs() == NewRing(n) && fresh(gops) && Slots() == {}
    {
      start, num, nextindex, count := false, 0, 0, n;
      gops := new GopArray?[n](_ => null);
    }

    /** False when the write would dereference an empty slot or index past the slots. */
    method Write(ref: nat, key: bool) returns (ok: bool)
      requires Valid()
      modifies this, gops, Slots()
      ensures ok == RingWrite(old(Abs()), ref, key).Some?
      ensures ok ==> Valid() && Abs() == RingWrite(old(Abs()), ref, key).value && fresh(Slots() - old(Slots()))
    {
      hide Push;
      if !key && !start { return true; }
      start := true;
      assert Abs() == old(Abs()).(start := true);
      if count == 0 { return false; }
      if key {
        if nextindex >= gops.Length { return false; }
        StartNew(ref);
        nextindex := (nextindex + 1) % count;
        ok := true;
      } else {
        ok := AddToCurrent(ref);
      }
    }

    /** Empties the next slot for a new group. */
    method TakeSlot() returns (ginc: GopArray)
      requires Valid() && nextindex < count
      modifies `num, gops, Slots()
      ensures Valid() && gops[nextindex] == ginc && fresh(Slots() - old(Slots()))
      ensures var r := old(Abs());
              Abs() == r.(num := r.num + if r.slots[r.next].None? then 1 else 0, slots := r.slots[r.next := Some([])])
    {
      var k := nextindex;
      if gops[k] == null {
        ginc := new GopArray();
        num := num + 1;
        gops[k] := ginc;
      } else {
        ginc := gops[k];
        ginc.Reset();
      }
      assert forall i :: 0 <= i < count && i != k ==> Slot(i) == old(Slot(i));
      assert Abs().slots == old(Abs().slots)[k := Some([])];
    }

    /** The next slot starts a new group. */
    method StartNew(ref: nat)
      requires Valid() && nextindex < count
      modifies `num, gops, Slots()
      ensures Valid() && fresh(Slots() - old(Slots()))
      ensures var r := old(Abs());
              Abs() == r.(num := r.num + if r.slots[r.next].None? then 1 else 0,
                          slots := r.slots[r.next := Some([ref])])
    {
      hide Valid;
      var ginc := TakeSlot();
      PushTo(nextindex, ref);
      assert Push([], ref) == [ref];
    }

    method PushTo(at: nat, ref: nat)
      requires Valid() && at < count && gops[at] != null
      modifies Slots()
      ensures Valid() && Slots() == old(Slots())
      ensures var r := old(Abs()); Abs() == r.(slots := r.slots[at := Some(Push(r.slots[at].value, ref))])
    {
      hide Push;
      gops[at].Write(ref);
      assert forall i :: 0 <= i < count && i != at ==> Slot(i) == old(Slot(i));
      assert Abs().slots == old(Abs().slots)[at := Some(gops[at].packets)];
    }

    /** The slot behind the next one takes the packet. */
    method AddToCurrent(ref: nat) returns (ok: bool)
      requires Valid() && count > 0
      modifies Slots()
      ensures ok == old(Abs()).slots[(nextindex + 1) % count].Some?
      ensures ok ==> Valid() && Slots() == old(Slots())
      ensures ok ==> var r := old(Abs());
                     var k := (r.next + 1) % r.count;
                     Abs() == r.(slots := r.slots[k := Some(Push(r.slots[k].value, ref))])
    {
      hide Push;
      var at := (nextindex + 1) % count;
      if gops[at] == null { return false; }
      PushTo(at, ref);
      ok := true;
    }

    method SendSlot(k: nat, w: Writer) returns (ok: bool)
      requires Valid() && k < count && gops[k] != null
      modifies w`queue, w`held
      ensures Valid() && Abs() == old(Abs())
      ensures var refs := Slot(k).value;
              && ok == (!w.broken || refs == [])
              && w.queue == old(w.queue) + (if ok then AsShared(refs) else [])
              && w.held == old(w.held) + if ok then Keeps(w.rewrites, refs) else {}
    {
      hide Keeps, AsShared;
      ok := gops[k].Send(w);
    }

    /** Every visited group in turn; one that is not there crashes the send. */
    method SendTo(w: Writer) returns (st: Sent)
      requires Valid()
      modifies w`queue, w`held
      ensures st == Crash ==> RingSend(old(Abs())) == None
      ensures st == Complete ==>
                var refs := RingSend(old(Abs()));
                && refs.Some? && w.queue == old(w.queue) + AsShared(refs.value)
                && w.held == old(w.held) + Keeps(w.rewrites, refs.value)
      ensures !w.broken ==> st != Failed
      ensures w.broken && st == Complete ==> RingSend(old(Abs())).value == []
      ensures st == Failed && RingSend(old(Abs())).Some? ==> RingSend(old(Abs())).value != []
      ensures old(w.queue) <= w.queue
    {
      hide SendFrom, RingSend, Visit, Keeps, AsShared;
      SendStarts(Abs());
      if count == 0 { return Crash; }
      ghost var r := Abs();
      ghost var before: seq<nat> := [];
      NothingHanded(w.rewrites);
      var pos := (nextindex + 1) % count;
      for i := 0 to num
        invariant Abs() == r && Valid()
        invariant RingSend(r) == Behind(before, SendFrom(r, i))
        invariant w.queue == old(w.queue) + AsShared(before)
        invariant w.held == old(w.held) + Keeps(w.rewrites, before)
        invariant w.broken ==> before == []
      {
        var index: int := pos - num + 1 + i;
        if index < 0 { index := index + count; }
        SendStep(r, i, index);
        if index < 0 || index >= gops.Length || gops[index] == null { return Crash; }
        ghost var g := gops[index].packets;
        assert r.slots[index] == Some(g);
        BehindTwo(before, g, SendFrom(r, i + 1));
        var ok := SendSlot(index, w);
        if !ok {
          if SendFrom(r, i + 1).Some? { NotEmpty(before, g, SendFrom(r, i + 1)); }
          return Failed;
        }
        ConcatAssoc(old(w.queue), AsShared(before), AsShared(g));
        KeepsMore(w.rewrites, before, g);
        before := before + g;
      }
      SendEnds(r, before);
      st := Complete;
    }
  }

  lemma NothingHanded(rewrites: bool)
    ensures AsShared([]) == [] && Keeps(rewrites, []) == {}
  {
  }

  lemma SendStarts<T>(r: Ring<T>)
    ensures RingSend(r) == if r.count == 0 then None else Behind([], SendFrom(r, 0))
  {
    hide SendFrom;
    if r.count > 0 { NothingBehind(SendFrom(r, 0)); }
  }

  lemma SendStep<T>(r: Ring<T>, i: nat, k: int)
    requires r.count > 0 && i < r.num
    requires var index := (r.next + 1) % r.count - r.num + 1 + i;
             k == if index < 0 then index + r.count else index
    ensures SendFrom(r, i) == if k < 0 || k >= |r.slots| || r.slots[k].None? then None
                              else Behind(r.slots[k].value, SendFrom(r, i + 1))
  {
  }

  lemma NotEmpty<T>(before: seq<T>, g: seq<T>, more: Option<seq<T>>)
    requires g != [] && more.Some?
    ensures before + g + more.value != []
  {
    assert |before + g + more.value| > 0;
  }

  lemma SendEnds<T>(r: Ring<T>, before: seq<T>)
    requires r.count > 0
    ensures Behind(before, SendFrom(r, r.num)) == Some(before)
  {
    assert before + [] == before;
  }

  // ---------- the cache ----------

  class SpecialCache {
    var full: bool
    var p: Packet

    constructor ()
      ensures Held() == None
    {
      full := false;
    }

    function Held(): Option<Packet>
      reads this
    {
      if full then Some(p) else None
    }

    method Write(packet: Packet)
      modifies this
      ensures Held() == Some(packet)
    {
      p := packet;
      full := true;
    }

    method Send(w: Writer) returns (ok: bool)
      modifies w`queue
      ensures ok == (!w.broken || Item(Held()) == [])
      ensures w.queue == old(w.queue) + if ok then AsCopies(Item(Held())) else []
    {
      ok := true;
      if full {
        ok := w.Write(p);
      } else {
        assert w.queue + [] == w.queue;
      }
    }
  }

  class Cache {
    const gop: GopCache
    const videoSeq: SpecialCache
    const audioSeq: SpecialCache
    const metadata: SpecialCache
    const store: Store

    ghost function Repr(): set<object>
      reads gop.gops
    {
      {gop, gop.gops, videoSeq, audioSeq, metadata, store} + gop.Slots()
    }

    ghost predicate Valid()
      reads Repr()
    {
      && gop.Valid() && videoSeq != audioSeq && videoSeq != metadata && audioSeq != metadata
      && Knows(gop.Abs(), |store.cells|)
    }

    ghost function Abs(): CacheState
      reads Repr()
    {
      CacheState(metadata.Held(), videoSeq.Held(), audioSeq.Held(), gop.Abs(), store.cells)
    }

    constructor (count: nat)
      ensures Valid() && gop.count == count && Abs() == NewCache(count) && fresh(Repr())
    {
      gop := new GopCache(count);
      videoSeq := new SpecialCache();
      audioSeq := new SpecialCache();
      metadata := new SpecialCache();
      store := new Store();
    }

    method Write(p: Packet) returns (ok: bool)
      requires Valid()
      modifies Repr()
      ensures ok == CacheWrite(old(Abs()), p).Some?
      ensures ok ==> Valid() && Abs() == CacheWrite(old(Abs()), p).value && fresh(Repr() - old(Repr()))
    {
      hide RingWrite, GopCache.Valid, Knows;
      ok := true;
      if p.isMetadata {
        metadata.Write(p);
        return;
      }
      if !p.isVideo {
        if p.header.Parsed? {
          if p.header.tag.soundFormat == SOUND_AAC && p.header.tag.aacPacketType == 0 { audioSeq.Write(p); }
          return;
        }
      } else {
        if p.header.NoHeader? { return; }
        if p.header.tag.IsSeq() {
          videoSeq.Write(p);
          return;
        }
      }
      LoadWrite(store.cells, gop.Abs(), p);
      var ref := store.Add(p);
      ok := gop.Write(ref, p.IsKey());
    }

    /** Metadata, sequence headers, groups; the first failing write ends it. */
    method Send(w: Writer) returns (st: Sent)
      requires Valid() && CacheHands(Abs()).Some?
      modifies w`queue, w`held
      ensures st != Crash && (st == Complete <==> !w.broken || CacheHands(old(Abs())).value == [])
      ensures st == Complete ==> w.queue == old(w.queue) + CacheHands(old(Abs())).value
      ensures old(w.queue) <= w.queue
      ensures st == Complete ==> w.held == old(w.held) + if w.rewrites then Places(CacheHands(old(Abs())).value) else {}
    {
      hide RingSend, Knows, Places, AsShared, AsCopies;
      ghost var c := Abs();
      ghost var refs := RingSend(c.ring).value;
      InOrder(w.queue, c, refs);
      KeptPlaces(w.rewrites, Copies(c), refs);
      var ok := metadata.Send(w);
      if !ok { return Failed; }
      ok := videoSeq.Send(w);
      if !ok { return Failed; }
      ok := audioSeq.Send(w);
      if !ok { return Failed; }
      assert gop.Abs() == c.ring;
      st := gop.SendTo(w);
    }
  }

  lemma InOrder(queue: seq<Handle>, c: CacheState, refs: seq<nat>)
    ensures var m, v, a := AsCopies(Item(c.metadata)), AsCopies(Item(c.videoSeq)), AsCopies(Item(c.audioSeq));
            && queue + m + v + a + AsShared(refs) == queue + (AsCopies(Copies(c)) + AsShared(refs))
            && (AsCopies(Copies(c)) + AsShared(refs) == [] <==>
                 Item(c.metadata) == [] && Item(c.videoSeq) == [] && Item(c.audioSeq) == [] && refs == [])
  {
    var m, v, a := Item(c.metadata), Item(c.videoSeq), Item(c.audioSeq);
    assert AsCopies(Copies(c)) == AsCopies(m) + AsCopies(v) + AsCopies(a);
    assert |AsCopies(Copies(c)) + AsShared(refs)| == |m| + |v| + |a| + |refs|;
    FiveInOrder(queue, AsCopies(m), AsCopies(v), AsCopies(a), AsShared(refs));
    hide AsCopies, AsShared, Item, Copies;
  }

  lemma FiveInOrder(q: seq<Handle>, m: seq<Handle>, v: seq<Handle>, a: seq<Handle>, s: seq<Handle>)
    ensures q + m + v + a + s == q + (m + v + a + s)
  {
  }

  lemma KeptPlaces(rewrites: bool, copies: seq<Packet>, refs: seq<nat>)
    ensures Keeps(rewrites, refs) == if rewrites then Places(AsCopies(copies) + AsShared(refs)) else {}
  {
    PlacesShared(copies, refs);
  }
}
