/**
 * The store the cached packets are in. The ring holds references, and every player served from the
 * cache is handed these; whoever changes a packet in the store changes it for all.
 */
module StoreSpec {
  import opened Bytes
  import opened Options
  import opened Av
  import opened GopSpec

  predicate Known(refs: seq<nat>, n: nat) { forall i :: 0 <= i < |refs| ==> refs[i] < n }

  predicate Knows(r: Ring<nat>, n: nat)
  {
    forall i :: 0 <= i < |r.slots| && r.slots[i].Some? ==> Known(r.slots[i].value, n)
  }

  function Load(store: seq<Packet>, refs: seq<nat>): (ps: seq<Packet>)
    requires Known(refs, |store|)
    ensures |ps| == |refs| && forall i :: 0 <= i < |refs| ==> ps[i] == store[refs[i]]
  {
    seq(|refs|, i requires 0 <= i < |refs| => store[refs[i]])
  }

  function LoadSlot(store: seq<Packet>, s: Option<seq<nat>>): Option<Gop>
    requires s.Some? ==> Known(s.value, |store|)
  {
    match s case None => None case Some(refs) => Some(Load(store, refs))
  }

  /** The ring with packets in the place of references. */
  function LoadRing(store: seq<Packet>, r: Ring<nat>): (v: Ring<Packet>)
    requires Knows(r, |store|)
    ensures |v.slots| == |r.slots| && forall i :: 0 <= i < |r.slots| ==> v.slots[i] == LoadSlot(store, r.slots[i])
  {
    Ring(r.start, r.num, r.count, r.next, seq(|r.slots|, i requires 0 <= i < |r.slots| => LoadSlot(store, r.slots[i])))
  }

  // ---------- the ring of references works as the ring of packets ----------

  /** What is loaded does not change when the store grows. */
  lemma LoadGrows(store: seq<Packet>, refs: seq<nat>, p: Packet)
    requires Known(refs, |store|)
    ensures Known(refs, |store| + 1) && Load(store + [p], refs) == Load(store, refs)
    ensures Known(Push(refs, |store|), |store| + 1)
    ensures Load(store + [p], Push(refs, |store|)) == Push(Load(store, refs), p)
  {
  }

  lemma RingGrows(store: seq<Packet>, r: Ring<nat>, p: Packet)
    requires Knows(r, |store|)
    ensures Knows(r, |store| + 1) && LoadRing(store + [p], r) == LoadRing(store, r)
  {
    hide Load;
    forall i | 0 <= i < |r.slots| && r.slots[i].Some?
      ensures Known(r.slots[i].value, |store| + 1) &&
              Load(store + [p], r.slots[i].value) == Load(store, r.slots[i].value)
    {
      LoadGrows(store, r.slots[i].value, p);
    }
    assert LoadRing(store + [p], r).slots == LoadRing(store, r).slots;
  }

  function SetSlot<T>(r: Ring<T>, k: nat, g: seq<T>): Ring<T>
    requires k < |r.slots|
  {
    r.(slots := r.slots[k := Some(g)])
  }

  lemma LoadSet(store: seq<Packet>, r: Ring<nat>, k: nat, refs: seq<nat>)
    requires Knows(r, |store|) && k < |r.slots| && Known(refs, |store|)
    ensures Knows(SetSlot(r, k, refs), |store|)
    ensures LoadRing(store, SetSlot(r, k, refs)) == SetSlot(LoadRing(store, r), k, Load(store, refs))
  {
    hide Load, Known;
    assert LoadRing(store, SetSlot(r, k, refs)).slots == SetSlot(LoadRing(store, r), k, Load(store, refs)).slots;
  }

  lemma LoadWrite(store: seq<Packet>, r: Ring<nat>, p: Packet)
    requires Knows(r, |store|)
    ensures var t, v := RingWrite(r, |store|, p.IsKey()), RingWrite(LoadRing(store, r), p, p.IsKey());
            && (t.Some? <==> v.Some?)
            && (t.Some? ==> Knows(t.value, |store| + 1) && LoadRing(store + [p], t.value) == v.value)
  {
    RingGrows(store, r, p);
    hide Load, Known, Push, Knows;
    if p.IsKey() && r.count > 0 && r.next < |r.slots| {
      LoadOne(store, p);
      LoadSet(store + [p], r, r.next, [|store|]);
    } else if !p.IsKey() && r.start && r.count > 0 {
      var k := (r.next + 1) % r.count;
      if k < |r.slots| && r.slots[k].Some? {
        SlotKnown(r, k, |store|);
        LoadGrows(store, r.slots[k].value, p);
        LoadSet(store + [p], r, k, Push(r.slots[k].value, |store|));
      }
    }
  }

  lemma SlotKnown(r: Ring<nat>, k: nat, n: nat)
    requires Knows(r, n) && k < |r.slots| && r.slots[k].Some?
    ensures Known(r.slots[k].value, n)
  {
  }

  lemma LoadOne(store: seq<Packet>, p: Packet)
    ensures Known([|store|], |store| + 1) && Load(store + [p], [|store|]) == [p]
  {
  }

  lemma {:induction false} LoadSendFrom(store: seq<Packet>, r: Ring<nat>, i: nat)
    requires Knows(r, |store|) && r.count > 0 && i <= r.num
    ensures match SendFrom(r, i)
            case None => SendFrom(LoadRing(store, r), i) == None
            case Some(refs) => Known(refs, |store|) && SendFrom(LoadRing(store, r), i) == Some(Load(store, refs))
    decreases r.num - i
  {
    hide Load;
    if i == r.num {
      LoadNone(store);
    } else {
      LoadSendFrom(store, r, i + 1);
      var k := Visit(r, i);
      assert Visit(LoadRing(store, r), i) == k;
      if 0 <= k < |r.slots| && r.slots[k].Some? && SendFrom(r, i + 1).Some? {
        LoadAppend(store, r.slots[k].value, SendFrom(r, i + 1).value);
      }
    }
  }

  lemma LoadNone(store: seq<Packet>)
    ensures Load(store, []) == []
  {
  }

  lemma LoadAppend(store: seq<Packet>, a: seq<nat>, b: seq<nat>)
    requires Known(a, |store|) && Known(b, |store|)
    ensures Known(a + b, |store|) && Load(store, a + b) == Load(store, a) + Load(store, b)
  {
  }

  lemma LoadSend(store: seq<Packet>, r: Ring<nat>)
    requires Knows(r, |store|)
    ensures match RingSend(r)
            case None => RingSend(LoadRing(store, r)) == None
            case Some(refs) => Known(refs, |store|) && RingSend(LoadRing(store, r)) == Some(Load(store, refs))
  {
    hide SendFrom, Load;
    if r.count > 0 { LoadSendFrom(store, r, 0); }
  }

  // ---------- a packet that is changed ----------

  predicate InRing(r: Ring<nat>, x: nat) { exists i :: 0 <= i < |r.slots| && r.slots[i].Some? && x in r.slots[i].value }

  /** Another packet in a place shows exactly in what refers to it. */
  lemma LoadChanged(store: seq<Packet>, refs: seq<nat>, x: nat, q: Packet)
    requires Known(refs, |store|) && x < |store| && store[x] != q
    ensures Load(store[x := q], refs) == Load(store, refs) <==> x !in refs
    ensures x in refs ==> q in Load(store[x := q], refs)
  {
    if x in refs {
      var i :| 0 <= i < |refs| && refs[i] == x;
      assert Load(store[x := q], refs)[i] == q != Load(store, refs)[i];
    }
  }

  lemma RingChanged(store: seq<Packet>, r: Ring<nat>, x: nat, q: Packet)
    requires Knows(r, |store|) && x < |store| && store[x] != q
    ensures LoadRing(store[x := q], r) == LoadRing(store, r) <==> !InRing(r, x)
  {
    hide Load;
    forall i | 0 <= i < |r.slots| && r.slots[i].Some?
      ensures Load(store[x := q], r.slots[i].value) == Load(store, r.slots[i].value) <==> x !in r.slots[i].value
    {
      LoadChanged(store, r.slots[i].value, x, q);
    }
    if InRing(r, x) {
      var i :| 0 <= i < |r.slots| && r.slots[i].Some? && x in r.slots[i].value;
      assert LoadRing(store[x := q], r).slots[i] != LoadRing(store, r).slots[i];
    } else {
      assert LoadRing(store[x := q], r).slots == LoadRing(store, r).slots;
    }
  }

  /** The groups a ring holds fix what is in its slots. */
  lemma HoldsOne(a: Ring<Packet>, b: Ring<Packet>, gs: seq<Gop>)
    requires Holds(a, gs) && Holds(b, gs) && a.count == b.count && a.next == b.next
    ensures a == b
  {
    hide Cut;
    assert a.next == 0 || a.next == 1;
    assert a.slots == b.slots;
  }

  /** All that is in the ring is sent, and there is something exactly if the ring has a group. */
  lemma SendsAll(store: seq<Packet>, r: Ring<nat>, gs: seq<Gop>)
    requires Knows(r, |store|) && Holds(LoadRing(store, r), gs) && (forall i :: 0 <= i < |gs| ==> gs[i] != [])
    ensures RingSend(r).Some? && forall x :: x in RingSend(r).value <==> InRing(r, x)
    ensures RingSend(r).value != [] <==> r.num > 0
  {
    hide Load, Cut, RingSend;
    var v := LoadRing(store, r);
    SendsSlots(r);
    assert r.next == 0 || r.next == 1;
    if gs != [] {
      var k := (r.next + 1) % r.count;
      SlotFull(store, r, k, gs[|gs| - 1]);
      if r.count == 2 && |gs| >= 2 { SlotFull(store, r, r.next, gs[|gs| - 2]); }
    }
  }

  lemma SlotFull(store: seq<Packet>, r: Ring<nat>, k: nat, g: Gop)
    requires Knows(r, |store|) && k < |r.slots| && LoadRing(store, r).slots[k] == Some(Cut(g)) && g != []
    ensures r.slots[k].Some? && r.slots[k].value != []
  {
    assert |Load(store, r.slots[k].value)| == |Cut(g)| > 0;
  }
}
