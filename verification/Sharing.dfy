/**
 * When sharing the cached packets is safe: over all runs, and however the players that rewrite what
 * they hold are scheduled, exactly when none of them was served from a cache that held a group.
 */
module Sharing {
  import opened Bytes
  import opened Options
  import opened Av
  import opened GopSpec
  import opened StoreSpec
  import opened Fanout

  /** A player that rewrites takes its first packets from a cache that holds a group. */
  predicate Shares(h: Hub, e: Event)
  {
    e.Publish? && exists id :: id in h.players && SharesWith(h, e, id)
  }

  /** What a publisher can tell before it serves the player: is there a group in the ring by then? */
  predicate SharesWith(h: Hub, e: Event, id: nat)
    requires e.Publish? && id in h.players
  {
    && h.players[id].rewrites && !h.players[id].init && id !in e.broken
    && CacheWrite(h.cache, e.p).Some? && CacheWrite(h.cache, e.p).value.ring.num > 0
  }

  predicate SharesAt(count: nat, es: seq<Event>, k: nat)
    requires k < |es|
  {
    var h := HubRun(NewHub(count), es[..k]);
    h.Some? && Shares(h.value, es[k])
  }

  predicate NeverShares(count: nat, es: seq<Event>) { forall k :: 0 <= k < |es| ==> !SharesAt(count, es, k) }

  ghost predicate ServedAt(count: nat, es: seq<Event>, k: nat)
    requires k <= |es|
  {
    var h := HubRun(NewHub(count), es[..k]);
    h.Some? && Served(h.value)
  }

  ghost predicate AlwaysServed(count: nat, es: seq<Event>) { forall k :: 0 <= k <= |es| ==> ServedAt(count, es, k) }

  /** A run without its rewrites. */
  function Without(es: seq<Event>): seq<Event>
    decreases |es|
  {
    if es == [] then []
    else Without(es[..|es| - 1]) + if es[|es| - 1].Rewrite? then [] else [es[|es| - 1]]
  }

  lemma WithoutSnoc(es: seq<Event>, e: Event)
    ensures Without(es + [e]) == Without(es) + if e.Rewrite? then [] else [e]
  {
    assert (es + [e])[..|es|] == es;
  }

  lemma {:induction false} WithoutAppend(a: seq<Event>, b: seq<Event>)
    ensures Without(a + b) == Without(a) + Without(b)
    decreases |b|
  {
    if b == [] {
      assert a + b == a;
    } else {
      var k := |b| - 1;
      WithoutAppend(a, b[..k]);
      assert a + b == a + b[..k] + [b[k]] && b == b[..k] + [b[k]];
      WithoutSnoc(a + b[..k], b[k]);
      WithoutSnoc(b[..k], b[k]);
    }
  }

  lemma {:induction false} WithoutSame(es: seq<Event>)
    requires forall e <- es :: !e.Rewrite?
    ensures Without(es) == es
    decreases |es|
  {
    if es != [] {
      WithoutSame(es[..|es| - 1]);
      assert es == es[..|es| - 1] + [es[|es| - 1]] && es[|es| - 1] in es;
    }
  }

  lemma RunSnoc(h: Hub, es: seq<Event>, e: Event)
    ensures HubRun(h, es + [e]) == match HubRun(h, es) case None => None case Some(h1) => HubStep(h1, e)
  {
    assert (es + [e])[..|es|] == es;
  }

  // ---------- a served hub ----------

  /** The places the cache hands out are all that are in its ring, and some exactly if it holds a group. */
  lemma HandsOut(c: CacheState, count: nat, ps: seq<Packet>)
    requires CacheIs(c, count, ps)
    ensures CacheHands(c).Some?
    ensures var places := Places(CacheHands(c).value);
            && (forall x :: x in places <==> InRing(c.ring, x)) && (forall x <- places :: x < |c.store|)
            && (places != {} <==> c.ring.num > 0) && (places != {} ==> CacheHands(c).value != [])
  {
    hide Holds, LoadRing, Gops, Routed, InRing, RingSend;
    var all := Routed(Pictures, ps);
    var gs := Gops(all);
    GopsTile(all);
    NoneEmpty(gs, all);
    SendsAll(c.store, c.ring, gs);
    LoadSend(c.store, c.ring);
    PlacesShared(Copies(c), RingSend(c.ring).value);
  }

  lemma NoneEmpty(gs: seq<Gop>, ps: seq<Packet>)
    requires Tiles(gs, ps)
    ensures forall i :: 0 <= i < |gs| ==> gs[i] != []
  {
    forall i | 0 <= i < |gs| ensures gs[i] != [] {
      assert gs[i] in gs;
    }
  }

  /** Nobody holds anything of the store. */
  predicate NothingHeld(h: Hub) { forall id <- h.players :: h.players[id].held == {} }

  lemma StaysUnheld(h: Hub, e: Event)
    requires Served(h) && (h.count == 1 || h.count == 2) && NothingHeld(h) && !Shares(h, e)
    ensures HubStep(h, e).Some? && NothingHeld(HubStep(h, e).value)
  {
    hide CacheIs, CacheWrite, CacheHands, Snapshot, ServedRight, Places;
    StepIff(h, e);
    if e.Publish? {
      CacheStep(h.cache, h.count, h.published, e.p);
      var c := CacheWrite(h.cache, e.p).value;
      HandsOut(c, h.count, h.published + [e.p]);
      var t := HubStep(h, e).value;
      forall id | id in t.players ensures t.players[id].held == {} {
        assert id in h.players && !SharesWith(h, e, id);
      }
    }
  }

  // ---------- runs that never share ----------

  lemma NeverPrefix(count: nat, es: seq<Event>, e: Event)
    requires NeverShares(count, es + [e])
    ensures NeverShares(count, es)
    ensures var h := HubRun(NewHub(count), es); h.Some? ==> !Shares(h.value, e)
  {
    hide HubRun, Shares;
    var all := es + [e];
    forall k | 0 <= k < |es| ensures !SharesAt(count, es, k) {
      assert !SharesAt(count, all, k) && all[..k] == es[..k];
    }
    assert !SharesAt(count, all, |es|) && all[..|es|] == es;
  }

  lemma AlwaysSnoc(count: nat, es: seq<Event>, e: Event)
    requires AlwaysServed(count, es)
    requires var h := HubRun(NewHub(count), es + [e]); h.Some? && Served(h.value)
    ensures AlwaysServed(count, es + [e])
  {
    hide HubRun, Served;
    var all := es + [e];
    forall k | 0 <= k <= |all| ensures ServedAt(count, all, k) {
      if k <= |es| {
        assert ServedAt(count, es, k) && all[..k] == es[..k];
      } else {
        assert all[..k] == all;
      }
    }
  }

  /** Where nobody is handed anything it rewrites, rewrites do nothing. */
  lemma {:induction false} Untouched(count: nat, full: seq<Event>)
    requires (count == 1 || count == 2) && NeverShares(count, Without(full))
    ensures HubRun(NewHub(count), full) == HubRun(NewHub(count), Without(full))
    ensures AlwaysServed(count, full)
    ensures var h := HubRun(NewHub(count), full);
            h.Some? && h.value.count == count && Served(h.value) && NothingHeld(h.value)
    decreases |full|
  {
    hide HubStep, Served, NeverShares, AlwaysServed, Spoils, NothingHeld, Shares, Without;
    if full == [] {
      NothingDone(count);
    } else {
      var k := |full| - 1;
      var front, e := full[..k], full[k];
      assert full == front + [e];
      WithoutSnoc(front, e);
      RunSnoc(NewHub(count), front, e);
      if e.Rewrite? {
        assert Without(full) == Without(front);
        Untouched(count, front);
        NothingToSpoil(HubRun(NewHub(count), front).value, e);
      } else {
        NeverPrefix(count, Without(front), e);
        Untouched(count, front);
        var h := HubRun(NewHub(count), front).value;
        RunSnoc(NewHub(count), Without(front), e);
        NotSpoilt(h, e);
        StepIff(h, e);
        StaysUnheld(h, e);
      }
      AlwaysSnoc(count, front, e);
    }
  }

  lemma NothingDone(count: nat)
    requires count == 1 || count == 2
    ensures Without([]) == [] && HubRun(NewHub(count), []) == Some(NewHub(count)) && AlwaysServed(count, [])
    ensures Served(NewHub(count)) && NothingHeld(NewHub(count))
  {
    hide Served;
    HubFresh(count);
  }

  lemma NothingToSpoil(h: Hub, e: Event)
    requires NothingHeld(h) && e.Rewrite?
    ensures HubStep(h, e) == Some(h) && !Shares(h, e)
  {
  }

  lemma NotSpoilt(h: Hub, e: Event)
    requires NothingHeld(h)
    ensures !Spoils(h, e)
  {
  }

  // ---------- a run that shares ----------

  /** A player that shares a group can spoil it: any other packet in any place it was handed. */
  lemma CanSpoil(h: Hub, e: Event)
    requires Served(h) && (h.count == 1 || h.count == 2) && Shares(h, e)
    ensures HubStep(h, e).Some? && exists r :: Spoils(HubStep(h, e).value, r)
  {
    hide CacheIs, CacheWrite, CacheHands, Snapshot, InRing, ServedRight, Places;
    StepIff(h, e);
    var id :| id in h.players && SharesWith(h, e, id);
    CacheStep(h.cache, h.count, h.published, e.p);
    var c := CacheWrite(h.cache, e.p).value;
    HandsOut(c, h.count, h.published + [e.p]);
    var places := Places(CacheHands(c).value);
    var t := HubStep(h, e).value;
    assert id in t.players && t.players[id].held >= places;
    var ref :| ref in places;
    var was := c.store[ref];
    Longer(was);
    assert Spoils(t, Rewrite(id, ref, was.(data := was.data + [0])));
  }

  lemma Longer(p: Packet)
    ensures p.(data := p.data + [0]) != p
  {
    assert |p.data + [0]| != |p.data|;
  }

  lemma {:induction false} RunPrefix(h: Hub, es: seq<Event>, k: nat)
    requires k <= |es| && HubRun(h, es).Some?
    ensures HubRun(h, es[..k]).Some?
    decreases |es|
  {
    if k < |es| {
      RunPrefix(h, es[..|es| - 1], k);
      assert es[..|es| - 1][..k] == es[..k];
    } else {
      assert es[..k] == es;
    }
  }

  /** Steps keep the number of groups. */
  lemma {:induction false} RunKeepsCount(h: Hub, es: seq<Event>)
    ensures HubRun(h, es).Some? ==> HubRun(h, es).value.count == h.count
    decreases |es|
  {
    hide CacheWrite, CacheHands;
    if es != [] { RunKeepsCount(h, es[..|es| - 1]); }
  }

  /** The rewrite that spoils what was shared in step k, in its place in the run. */
  lemma SpoiltRun(count: nat, es: seq<Event>, k: nat)
    requires (count == 1 || count == 2) && k < |es| && SharesAt(count, es, k) && AlwaysServed(count, es)
    ensures exists r: Event :: r.Rewrite? && !AlwaysServed(count, es[..k + 1] + [r] + es[k + 1..])
  {
    hide HubRun, HubStep, Served, Shares, Spoils;
    assert ServedAt(count, es, k) && ServedAt(count, es, k + 1);
    var h := HubRun(NewHub(count), es[..k]).value;
    RunKeepsCount(NewHub(count), es[..k]);
    CanSpoil(h, es[k]);
    assert es[..k] + [es[k]] == es[..k + 1];
    RunSnoc(NewHub(count), es[..k], es[k]);
    var t := HubStep(h, es[k]).value;
    var r :| Spoils(t, r);
    RunKeepsCount(NewHub(count), es[..k + 1]);
    StepIff(t, r);
    RunSnoc(NewHub(count), es[..k + 1], r);
    var full := es[..k + 1] + [r] + es[k + 1..];
    assert full[..k + 2] == es[..k + 1] + [r];
    assert !ServedAt(count, full, k + 2);
    assert r.Rewrite? by { IsRewrite(t, r); }
  }

  lemma IsRewrite(h: Hub, e: Event)
    requires Spoils(h, e)
    ensures e.Rewrite?
  {
  }

  /**
   * Over every run, however the rewriting falls in between: every attached player has received exactly
   * the snapshot at its first packet and what followed, and the cache holds what was published, if and
   * only if no rewriting player was ever served from a cache that held a group.
   */
  lemma RunServesIff(count: nat, es: seq<Event>)
    requires (count == 1 || count == 2) && forall e <- es :: !e.Rewrite?
    ensures (forall full: seq<Event> | Without(full) == es :: AlwaysServed(count, full)) <==> NeverShares(count, es)
  {
    hide AlwaysServed, Without, SharesAt;
    WithoutSame(es);
    if NeverShares(count, es) {
      forall full: seq<Event> | Without(full) == es ensures AlwaysServed(count, full) {
        Untouched(count, full);
      }
    } else {
      var k :| 0 <= k < |es| && SharesAt(count, es, k);
      if AlwaysServed(count, es) {
        SpoiltRun(count, es, k);
        var r: Event :| r.Rewrite? && !AlwaysServed(count, es[..k + 1] + [r] + es[k + 1..]);
        Inserted(es, k + 1, r);
      }
    }
  }

  lemma Inserted(es: seq<Event>, k: nat, r: Event)
    requires k <= |es| && Without(es) == es && r.Rewrite?
    ensures Without(es[..k] + [r] + es[k..]) == es
  {
    hide Without;
    WithoutSnoc(es[..k], r);
    WithoutAppend(es[..k] + [r], es[k..]);
    WithoutAppend(es[..k], es[k..]);
    assert es[..k] + es[k..] == es;
  }

  // ---------- the next player ----------

  lemma WriteChanged(c: CacheState, ref: nat, q: Packet, p: Packet)
    requires ref < |c.store| && CacheWrite(c, p).Some?
    ensures ref < |CacheWrite(c, p).value.store|
    ensures CacheWrite(Changed(c, ref, q), p) == Some(Changed(CacheWrite(c, p).value, ref, q))
    ensures CacheWrite(c, p).value.store[ref] == c.store[ref]
  {
    hide RingWrite;
    assert (c.store + [p])[ref := q] == c.store[ref := q] + [p];
  }

  /** What a changed cache shows is right exactly if the changed packet is not in the ring any more. */
  lemma ChangedShows(c: CacheState, count: nat, ps: seq<Packet>, ref: nat, q: Packet)
    requires CacheIs(c, count, ps) && ref < |c.store| && c.store[ref] != q
    ensures var s := CacheSend(Changed(c, ref, q));
            && s.Some? && (s.value == Snapshot(count, ps) <==> !InRing(c.ring, ref))
            && (InRing(c.ring, ref) ==> q in s.value)
  {
    CacheShows(c, count, ps);
    HandsOut(c, count, ps);
    var refs := RingSend(c.ring).value;
    PlacesShared(Copies(c), refs);
    ChangedLoads(c, refs, ref, q);
    hide CacheIs, Snapshot, RingSend, Load, InRing, Known, CacheSend, AsShared, AsCopies, Places;
  }

  lemma ChangedLoads(c: CacheState, refs: seq<nat>, ref: nat, q: Packet)
    requires RingSend(c.ring) == Some(refs) && Known(refs, |c.store|) && ref < |c.store| && c.store[ref] != q
    ensures CacheSend(c).Some? && CacheSend(Changed(c, ref, q)).Some?
    ensures CacheSend(Changed(c, ref, q)).value == CacheSend(c).value <==> ref !in refs
    ensures ref in refs ==> q in CacheSend(Changed(c, ref, q)).value
  {
    hide RingSend, Load;
    LoadChanged(c.store, refs, ref, q);
    SameFront(Copies(c), Load(c.store, refs), Load(c.store[ref := q], refs));
    assert Copies(Changed(c, ref, q)) == Copies(c);
  }

  lemma SameFront(a: seq<Packet>, b: seq<Packet>, c: seq<Packet>)
    ensures a + b == a + c <==> b == c
  {
    if a + b == a + c {
      assert b == (a + b)[|a|..] && c == (a + c)[|a|..];
    }
  }

  /**
   * After a rewrite of a packet that the ring still has, the next player to attach starts right exactly if
   * its first packet pushes the changed one out of the ring; otherwise it is handed a packet that is not
   * what was published.
   */
  lemma NextPlayerIff(h: Hub, e: Event, id: nat, rewrites: bool, p: Packet)
    requires Served(h) && (h.count == 1 || h.count == 2) && Spoils(h, e)
    ensures var t := HubRun(h, [e, Attach(id, rewrites), Publish(p, {})]);
            && t.Some? && id in t.value.players && Fetchable(t.value.players[id].queue, |t.value.cache.store|)
            && var got, ps := Received(t.value.players[id], t.value.cache.store), h.published + [p];
               && (got == Expected(h.count, ps, |h.published|) <==> !InRing(t.value.cache.ring, e.ref))
               && (InRing(t.value.cache.ring, e.ref) ==> e.q in got)
  {
    hide CacheIs, CacheWrite, CacheHands, CacheSend, Snapshot, InRing, ServedRight;
    CacheStep(h.cache, h.count, h.published, p);
    var c := CacheWrite(h.cache, p).value;
    WriteChanged(h.cache, e.ref, e.q, p);
    var d := Changed(c, e.ref, e.q);
    ChangedShows(c, h.count, h.published + [p], e.ref, e.q);
    HandsShow(d);
    ThreeSteps(h, e, Attach(id, rewrites), Publish(p, {}));
    FirstServe(p, rewrites, |h.published|, CacheHands(d).value, d.store);
    ExpectedStep(h.count, h.published, p, |h.published|);
    assert [] + Snapshot(h.count, h.published + [p]) == Snapshot(h.count, h.published + [p]);
  }

  lemma FirstServe(p: Packet, rewrites: bool, at: nat, hands: seq<Handle>, store: seq<Packet>)
    requires Fetchable(hands, |store|)
    ensures var w := Serve(NewPlayer(rewrites, at), p, hands);
            w.queue == hands && Received(w, store) == Fetch(store, hands)
  {
    assert [] + hands == hands && [] + Fetch(store, hands) == Fetch(store, hands);
  }

  lemma ThreeSteps(h: Hub, a: Event, b: Event, c: Event)
    ensures HubRun(h, [a, b, c]) ==
            match HubStep(h, a)
            case None => None
            case Some(h1) => match HubStep(h1, b) case None => None case Some(h2) => HubStep(h2, c)
  {
    hide HubStep;
    assert [a, b, c][..2] == [a, b] && [a, b][..1] == [a] && [a][..0] == [];
    assert HubRun(h, [a]) == HubStep(h, a);
  }
}
