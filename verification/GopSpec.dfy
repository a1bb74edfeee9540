/**
 * The group-of-pictures ring as it is indexed, the list of groups it stands for, and the store its
 * packets are in. A step that would dereference an empty slot, or divide by a zero count, has no result.
 */
module GopSpec {
  import opened Bytes
  import opened Options
  import opened Av

  const MAX_GOP: nat := 1024

  type Gop = seq<Packet>

  /** The ring's fields; an empty slot is None. It holds packets, or what refers to them. */
  datatype Ring<T> = Ring(start: bool, num: nat, count: nat, next: nat, slots: seq<Option<seq<T>>>)

  function NewRing<T>(count: nat): Ring<T>
  {
    Ring(false, 0, count, 0, seq(count, _ => None))
  }

  /** Beyond the maximum, packets of a group are dropped. */
  function Push<T>(g: seq<T>, x: T): seq<T> { if |g| >= MAX_GOP then g else g + [x] }

  function RingWrite<T>(r: Ring<T>, x: T, key: bool): Option<Ring<T>>
  {
    if !key && !r.start then Some(r)
    else if r.count == 0 then None
    else if key then
      if r.next >= |r.slots| then None
      else Some(Ring(true, r.num + if r.slots[r.next].None? then 1 else 0, r.count, (r.next + 1) % r.count,
                     r.slots[r.next := Some([x])]))
    else
      var i := (r.next + 1) % r.count;
      if i >= |r.slots| || r.slots[i].None? then None
      else Some(r.(slots := r.slots[i := Some(Push(r.slots[i].value, x))]))
  }

  function RingRun(r: Ring<Packet>, ps: seq<Packet>): Option<Ring<Packet>>
    decreases |ps|
  {
    if ps == [] then Some(r)
    else
      var p := ps[|ps| - 1];
      match RingRun(r, ps[..|ps| - 1]) case None => None case Some(r1) => RingWrite(r1, p, p.IsKey())
  }

  /** Which slot a send visits as its i-th. */
  function Visit<T>(r: Ring<T>, i: nat): int
    requires r.count > 0
  {
    var index := (r.next + 1) % r.count - r.num + 1 + i;
    if index < 0 then index + r.count else index
  }

  /** What a send emits from its i-th slot on; None if it visits a slot that is not there. */
  function SendFrom<T>(r: Ring<T>, i: nat): Option<seq<T>>
    requires r.count > 0 && i <= r.num
    decreases r.num - i
  {
    if i == r.num then Some([])
    else
      var k := Visit(r, i);
      if k < 0 || k >= |r.slots| || r.slots[k].None? then None
      else Behind(r.slots[k].value, SendFrom(r, i + 1))
  }

  function RingSend<T>(r: Ring<T>): Option<seq<T>>
  {
    if r.count == 0 then None else SendFrom(r, 0)
  }

  // ---------- the list it stands for ----------

  /** The groups of a run: each from a key frame up to the next, what comes before the first dropped. */
  function Gops(ps: seq<Packet>): seq<Gop>
    decreases |ps|
  {
    if ps == [] then []
    else
      var gs, p := Gops(ps[..|ps| - 1]), ps[|ps| - 1];
      if p.IsKey() then gs + [[p]]
      else if gs == [] then []
      else gs[..|gs| - 1] + [gs[|gs| - 1] + [p]]
  }

  function Cut(g: Gop): (r: Gop)
    ensures r <= g
  {
    if |g| <= MAX_GOP then g else g[..MAX_GOP]
  }

  function CutAll(gs: seq<Gop>): (r: seq<Gop>)
    ensures |r| == |gs| && forall i :: 0 <= i < |gs| ==> r[i] == Cut(gs[i])
  {
    seq(|gs|, i requires 0 <= i < |gs| => Cut(gs[i]))
  }

  // ---------- counts one and two ----------

  /** How a ring of count one or two holds the groups gs of what was written. */
  ghost predicate Holds(r: Ring<Packet>, gs: seq<Gop>)
  {
    && (r.count == 1 || r.count == 2) && |r.slots| == r.count && r.next < r.count
    && r.num == |Last(r.count, gs)| && r.start == (gs != [])
    && (gs == [] ==> r.next == 0 && forall i :: 0 <= i < r.count ==> r.slots[i] == None)
    && (gs != [] ==> r.slots[(r.next + 1) % r.count] == Some(Cut(gs[|gs| - 1])))
    && (r.count == 2 && |gs| == 1 ==> r.next == 1 && r.slots[1] == None)
    && (r.count == 2 && |gs| >= 2 ==> r.slots[r.next] == Some(Cut(gs[|gs| - 2])))
  }

  lemma KeyStep(r: Ring<Packet>, gs: seq<Gop>, p: Packet)
    requires Holds(r, gs) && p.IsKey()
    ensures RingWrite(r, p, p.IsKey()).Some? && Holds(RingWrite(r, p, p.IsKey()).value, gs + [[p]])
  {
    var gs1 := gs + [[p]];
    assert gs1[|gs1| - 1] == [p] && Cut([p]) == [p];
    if r.count == 1 {
    } else if gs == [] {
    } else {
      assert gs1[|gs1| - 2] == gs[|gs| - 1];
      assert r.next == 0 || r.next == 1;
    }
  }

  lemma OtherStep(r: Ring<Packet>, gs: seq<Gop>, p: Packet)
    requires Holds(r, gs) && !p.IsKey() && gs != []
    ensures RingWrite(r, p, p.IsKey()).Some? &&
            Holds(RingWrite(r, p, p.IsKey()).value, gs[..|gs| - 1] + [gs[|gs| - 1] + [p]])
  {
    var g := gs[|gs| - 1];
    var gs1 := gs[..|gs| - 1] + [g + [p]];
    CutPush(g, p);
    assert gs1[|gs1| - 1] == g + [p] && (|gs| > 1 ==> gs1[|gs| - 2] == gs[|gs| - 2]);
    hide Cut, Push;
    assert r.next == 0 || r.next == 1;
    if r.count == 1 {
      assert (r.next + 1) % r.count == 0;
    } else {
      assert (r.next + 1) % r.count == 1 - r.next;
    }
  }

  lemma CutPush(g: Gop, p: Packet)
    ensures Push(Cut(g), p) == Cut(g + [p])
  {
    if |g| >= MAX_GOP { assert (g + [p])[..MAX_GOP] == g[..MAX_GOP]; }
  }

  lemma StepHolds(r: Ring<Packet>, gs: seq<Gop>, ps: seq<Packet>, p: Packet)
    requires Holds(r, gs) && gs == Gops(ps)
    ensures RingWrite(r, p, p.IsKey()).Some? && Holds(RingWrite(r, p, p.IsKey()).value, Gops(ps + [p]))
  {
    assert (ps + [p])[..|ps|] == ps;
    if p.IsKey() {
      KeyStep(r, gs, p);
    } else if gs != [] {
      OtherStep(r, gs, p);
    }
  }

  /** Every run of a ring of one or two is safe, and the ring holds the run's last groups. */
  lemma {:induction false} RunHolds(count: nat, ps: seq<Packet>)
    requires count == 1 || count == 2
    ensures RingRun(NewRing(count), ps).Some? && Holds(RingRun(NewRing(count), ps).value, Gops(ps))
    decreases |ps|
  {
    hide Holds, RingWrite, Gops;
    if ps == [] {
      FreshHolds(count);
    } else {
      var k := |ps| - 1;
      RunHolds(count, ps[..k]);
      StepHolds(RingRun(NewRing(count), ps[..k]).value, Gops(ps[..k]), ps[..k], ps[k]);
      assert ps[..k] + [ps[k]] == ps;
    }
  }

  lemma FreshHolds(count: nat)
    requires count == 1 || count == 2
    ensures Holds(NewRing(count), Gops([]))
  {
  }

  /** What such a ring sends: its groups, oldest first, each cut to the maximum. */
  lemma SendsHeld(r: Ring<Packet>, gs: seq<Gop>)
    requires Holds(r, gs)
    ensures RingSend(r) == Some(Flatten(CutAll(Last(r.count, gs))))
  {
    hide Cut, CutAll, Flatten;
    var n := |gs|;
    SendsSlots(r);
    if r.num == 1 {
      LastOne(r.count, gs);
    } else if r.num == 2 {
      LastTwo(gs);
    } else {
      assert Last(r.count, gs) == [];
      NoneFlat();
    }
  }

  /** Which slots a ring of count one or two sends. */
  lemma SendsSlots<T>(r: Ring<T>)
    requires (r.count == 1 || r.count == 2) && |r.slots| == r.count && r.next < r.count && r.num <= r.count
    ensures r.num == 0 ==> RingSend(r) == Some([])
    ensures r.num == 1 ==>
              var s := r.slots[(r.next + 1) % r.count]; RingSend(r) == if s.None? then None else Some(s.value)
    ensures r.num == 2 ==>
              var s, t := r.slots[r.next], r.slots[(r.next + 1) % 2];
              RingSend(r) == if s.None? || t.None? then None else Some(s.value + t.value)
  {
    assert SendFrom(r, r.num) == Some([]);
    assert forall s: seq<T> :: s + [] == s;
    if r.num > 0 { OneSlot(r, r.num - 1); }
    if r.num > 1 { OneSlot(r, 0); }
  }

  lemma OneSlot<T>(r: Ring<T>, i: nat)
    requires (r.count == 1 || r.count == 2) && |r.slots| == r.count && r.next < r.count && i < r.num <= r.count
    ensures var s := r.slots[if i + 1 == r.num then (r.next + 1) % r.count else r.next];
            SendFrom(r, i) == if s.None? then None else Behind(s.value, SendFrom(r, i + 1))
  {
    assert Visit(r, i) == if i + 1 == r.num then (r.next + 1) % r.count else r.next;
  }

  lemma LastOne(count: nat, gs: seq<Gop>)
    requires count > 0 && gs != [] && (count == 1 || |gs| == 1)
    ensures Flatten(CutAll(Last(count, gs))) == Cut(gs[|gs| - 1])
  {
    hide Cut;
    assert CutAll(Last(count, gs)) == [Cut(gs[|gs| - 1])];
    OneFlat(Cut(gs[|gs| - 1]));
  }

  lemma LastTwo(gs: seq<Gop>)
    requires |gs| >= 2
    ensures Flatten(CutAll(Last(2, gs))) == Cut(gs[|gs| - 2]) + Cut(gs[|gs| - 1])
  {
    hide Cut;
    var cut := CutAll(Last(2, gs));
    assert cut == [Cut(gs[|gs| - 2])] + [Cut(gs[|gs| - 1])];
    FlattenAppend([cut[0]], [cut[1]]);
    OneFlat(cut[0]);
    OneFlat(cut[1]);
  }

  lemma NoneFlat()
    ensures Flatten(CutAll([])) == []
  {
  }

  lemma OneFlat(g: Gop)
    ensures Flatten([g]) == g
  {
    assert [g][1..] == [];
    assert g + [] == g;
  }

  /** The ring is a list of the run's last groups. */
  lemma RingRefinesList(count: nat, ps: seq<Packet>)
    requires count == 1 || count == 2
    ensures var r := RingRun(NewRing(count), ps);
            r.Some? && r.value.count == count && RingSend(r.value) == Some(Flatten(CutAll(Last(count, Gops(ps)))))
  {
    hide RingSend, RingRun, Gops;
    RunHolds(count, ps);
    var r := RingRun(NewRing(count), ps).value;
    RunCount(NewRing(count), ps);
    SendsHeld(r, Gops(ps));
  }

  lemma {:induction false} RunCount(r: Ring<Packet>, ps: seq<Packet>)
    ensures RingRun(r, ps).Some? ==> RingRun(r, ps).value.count == r.count
    decreases |ps|
  {
    if ps != [] { RunCount(r, ps[..|ps| - 1]); }
  }

  // ---------- other counts ----------

  /** Exactly the counts one and two survive every run. */
  lemma SafeIff(count: nat, key: Packet, other: Packet)
    requires key.IsKey() && !other.IsKey()
    ensures (forall ps: seq<Packet> :: RingRun(NewRing(count), ps).Some?) <==> count == 1 || count == 2
    ensures count == 0 || count > 2 <==> RingRun(NewRing(count), [key, other]) == None
  {
    if count == 1 || count == 2 {
      forall ps: seq<Packet> ensures RingRun(NewRing(count), ps).Some? { RunHolds(count, ps); }
    } else {
      KeyThenOther(count, key, other);
    }
  }

  /** A key frame fills slot 0; the next frame looks for it in slot 2. */
  lemma KeyThenOther(count: nat, key: Packet, other: Packet)
    requires key.IsKey() && !other.IsKey() && (count == 0 || count > 2)
    ensures RingRun(NewRing(count), [key, other]) == None
  {
    assert [key, other][..1] == [key] && [key][..0] == [];
    assert RingRun(NewRing(count), []) == Some(NewRing(count));
    if count > 2 {
      assert RingRun(NewRing(count), [key]).Some?;
      ModUnique(1, count, 0, 1);
      ModUnique(2, count, 0, 2);
    }
  }
}
