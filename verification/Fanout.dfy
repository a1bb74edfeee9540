/**
 * What a player receives: the cache as it stands after the first packet published behind its
 * attachment, then everything published. One publisher's packets, one step at a time. Players queue what
 * they are handed and send it later; of the cached pictures they are handed the packets themselves, and
 * some players change what they are handed.
 */
module Fanout {
  import opened Bytes
  import opened Options
  import opened Av
  import opened GopSpec
  import opened StoreSpec

  datatype Place = Metadata | VideoSeq | AudioSeq | Pictures | Nowhere

  /** Where the cache puts a packet; raw audio goes nowhere. */
  function Route(p: Packet): Place
  {
    if p.isMetadata then Metadata
    else if p.header.NoHeader? then if p.isVideo then Nowhere else Pictures
    else if p.isVideo then if p.header.tag.IsSeq() then VideoSeq else Pictures
    else if p.header.tag.IsAacHeader() then AudioSeq else Nowhere
  }

  /** Copies are sent of the metadata and the headers; the ring refers to packets in the store. */
  datatype CacheState = CacheState(metadata: Option<Packet>, videoSeq: Option<Packet>, audioSeq: Option<Packet>,
                                   ring: Ring<nat>, store: seq<Packet>)

  function NewCache(count: nat): CacheState { CacheState(None, None, None, NewRing(count), []) }

  function CacheWrite(c: CacheState, p: Packet): Option<CacheState>
  {
    match Route(p)
    case Metadata => Some(c.(metadata := Some(p)))
    case VideoSeq => Some(c.(videoSeq := Some(p)))
    case AudioSeq => Some(c.(audioSeq := Some(p)))
    case Nowhere => Some(c)
    case Pictures =>
      match RingWrite(c.ring, |c.store|, p.IsKey())
      case None => None
      case Some(r) => Some(c.(ring := r, store := c.store + [p]))
  }

  function Item(o: Option<Packet>): seq<Packet> { if o.Some? then [o.value] else [] }

  function CacheSend(c: CacheState): Option<seq<Packet>>
  {
    match RingSend(c.ring)
    case None => None
    case Some(refs) =>
      if Known(refs, |c.store|) then Some(Copies(c) + Load(c.store, refs)) else None
  }

  function Copies(c: CacheState): seq<Packet> { Item(c.metadata) + Item(c.videoSeq) + Item(c.audioSeq) }

  /** What a player is handed: a packet of its own, or a place in the store. */
  datatype Handle = Copy(p: Packet) | Shared(ref: nat)

  function AsCopies(ps: seq<Packet>): (hs: seq<Handle>)
    ensures |hs| == |ps| && forall i :: 0 <= i < |ps| ==> hs[i] == Copy(ps[i])
  {
    seq(|ps|, i requires 0 <= i < |ps| => Copy(ps[i]))
  }

  function AsShared(refs: seq<nat>): (hs: seq<Handle>)
    ensures |hs| == |refs| && forall i :: 0 <= i < |refs| ==> hs[i] == Shared(refs[i])
  {
    seq(|refs|, i requires 0 <= i < |refs| => Shared(refs[i]))
  }

  /** What a send of the cache hands out. */
  function CacheHands(c: CacheState): Option<seq<Handle>>
  {
    match RingSend(c.ring)
    case None => None
    case Some(refs) => if Known(refs, |c.store|) then Some(AsCopies(Copies(c)) + AsShared(refs)) else None
  }

  /** The places among what is handed out. */
  function Places(hs: seq<Handle>): set<nat> { set h | h in hs && h.Shared? :: h.ref }

  lemma PlacesShared(copies: seq<Packet>, refs: seq<nat>)
    ensures forall x :: x in Places(AsCopies(copies) + AsShared(refs)) <==> x in refs
    ensures refs != [] ==> Places(AsCopies(copies) + AsShared(refs)) != {}
  {
    var hs := AsCopies(copies) + AsShared(refs);
    forall x | x in refs ensures x in Places(hs) {
      var i :| 0 <= i < |refs| && refs[i] == x;
      assert hs[|copies| + i] == Shared(x);
    }
    if refs != [] { assert refs[0] in Places(hs); }
  }

  predicate Fetchable(hs: seq<Handle>, n: nat) { forall i :: 0 <= i < |hs| && hs[i].Shared? ==> hs[i].ref < n }

  /** What handles stand for as the store is now. */
  function Fetch(store: seq<Packet>, hs: seq<Handle>): (ps: seq<Packet>)
    requires Fetchable(hs, |store|)
    ensures |ps| == |hs|
  {
    seq(|hs|, i requires 0 <= i < |hs| => match hs[i] case Copy(p) => p case Shared(ref) => store[ref])
  }

  lemma FetchAppend(store: seq<Packet>, a: seq<Handle>, b: seq<Handle>)
    requires Fetchable(a, |store|) && Fetchable(b, |store|)
    ensures Fetchable(a + b, |store|) && Fetch(store, a + b) == Fetch(store, a) + Fetch(store, b)
  {
  }

  lemma FetchGrows(store: seq<Packet>, more: seq<Packet>, hs: seq<Handle>)
    requires Fetchable(hs, |store|) && store <= more
    ensures Fetchable(hs, |more|) && Fetch(more, hs) == Fetch(store, hs)
  {
  }

  /** Another packet in a place shows exactly in what refers to it. */
  lemma FetchChanged(store: seq<Packet>, hs: seq<Handle>, ref: nat, q: Packet)
    requires Fetchable(hs, |store|) && ref < |store| && store[ref] != q
    ensures Fetchable(hs, |store[ref := q]|)
    ensures Fetch(store[ref := q], hs) == Fetch(store, hs) <==> Shared(ref) !in hs
  {
    if Shared(ref) in hs {
      var i :| 0 <= i < |hs| && hs[i] == Shared(ref);
      assert Fetch(store[ref := q], hs)[i] == q != Fetch(store, hs)[i];
    }
  }

  /** What is handed out stands for what the cache shows. */
  lemma HandsShow(c: CacheState)
    ensures CacheHands(c).Some? <==> CacheSend(c).Some?
    ensures CacheHands(c).Some? ==>
              var hs := CacheHands(c).value;
              Fetchable(hs, |c.store|) && Fetch(c.store, hs) == CacheSend(c).value
  {
    if CacheHands(c).Some? {
      var refs := RingSend(c.ring).value;
      assert Fetchable(AsCopies(Copies(c)), |c.store|) && Fetch(c.store, AsCopies(Copies(c))) == Copies(c);
      assert Fetchable(AsShared(refs), |c.store|) && Fetch(c.store, AsShared(refs)) == Load(c.store, refs);
      FetchAppend(c.store, AsCopies(Copies(c)), AsShared(refs));
    }
  }

  function CacheRun(count: nat, ps: seq<Packet>): Option<CacheState>
    decreases |ps|
  {
    if ps == [] then Some(NewCache(count))
    else match CacheRun(count, ps[..|ps| - 1]) case None => None case Some(c) => CacheWrite(c, ps[|ps| - 1])
  }

  /** The packets that go to a place. */
  function Routed(w: Place, ps: seq<Packet>): seq<Packet>
    decreases |ps|
  {
    if ps == [] then [] else Routed(w, ps[..|ps| - 1]) + if Route(ps[|ps| - 1]) == w then [ps[|ps| - 1]] else []
  }

  function Newest(w: Place, ps: seq<Packet>): seq<Packet> { Last(1, Routed(w, ps)) }

  /** Groups a send of the cache shows after ps. */
  function Cached(count: nat, ps: seq<Packet>): seq<Gop> { Last(count, Gops(Routed(Pictures, ps))) }

  function Snapshot(count: nat, ps: seq<Packet>): seq<Packet>
  {
    Newest(Metadata, ps) + Newest(VideoSeq, ps) + Newest(AudioSeq, ps) + Flatten(CutAll(Cached(count, ps)))
  }

  lemma RoutedSnoc(w: Place, ps: seq<Packet>, p: Packet)
    ensures Routed(w, ps + [p]) == Routed(w, ps) + if Route(p) == w then [p] else []
  {
    assert (ps + [p])[..|ps|] == ps;
  }

  lemma {:induction false} RoutedAppend(w: Place, a: seq<Packet>, b: seq<Packet>)
    ensures Routed(w, a + b) == Routed(w, a) + Routed(w, b)
    decreases |b|
  {
    hide Route;
    if b == [] {
      assert a + b == a;
    } else {
      var k := |b| - 1;
      RoutedAppend(w, a, b[..k]);
      assert (a + b)[..|a| + k] == a + b[..k];
      ConcatAssoc(Routed(w, a), Routed(w, b[..k]), if Route(b[k]) == w then [b[k]] else []);
    }
  }

  lemma {:induction false} RoutedAll(w: Place, ps: seq<Packet>)
    requires forall p <- ps :: Route(p) == w
    ensures Routed(w, ps) == ps
    decreases |ps|
  {
    if ps != [] {
      var k := |ps| - 1;
      RoutedAll(w, ps[..k]);
      assert ps[k] in ps && ps[..k] + [ps[k]] == ps;
    }
  }

  lemma {:induction false} RoutedNone(w: Place, ps: seq<Packet>)
    requires forall p <- ps :: Route(p) != w
    ensures Routed(w, ps) == []
    decreases |ps|
  {
    if ps != [] {
      RoutedNone(w, ps[..|ps| - 1]);
      assert ps[|ps| - 1] in ps;
    }
  }

  lemma {:induction false} RoutedHas(w: Place, ps: seq<Packet>)
    ensures forall p <- Routed(w, ps) :: p in ps && Route(p) == w
    decreases |ps|
  {
    if ps != [] { RoutedHas(w, ps[..|ps| - 1]); }
  }

  // ---------- the cache after a run ----------

  ghost predicate CacheIs(c: CacheState, count: nat, ps: seq<Packet>)
  {
    && Item(c.metadata) == Newest(Metadata, ps) && Item(c.videoSeq) == Newest(VideoSeq, ps)
    && Item(c.audioSeq) == Newest(AudioSeq, ps) && c.ring.count == count
    && Knows(c.ring, |c.store|) && Holds(LoadRing(c.store, c.ring), Gops(Routed(Pictures, ps)))
  }

  lemma CacheStep(c: CacheState, count: nat, ps: seq<Packet>, p: Packet)
    requires CacheIs(c, count, ps)
    ensures CacheWrite(c, p).Some? && CacheIs(CacheWrite(c, p).value, count, ps + [p])
  {
    hide Holds, RingWrite, Gops, Routed, LoadRing, Knows;
    RoutedSnoc(Metadata, ps, p);
    RoutedSnoc(VideoSeq, ps, p);
    RoutedSnoc(AudioSeq, ps, p);
    RoutedSnoc(Pictures, ps, p);
    assert forall s: seq<Packet> :: s + [] == s;
    if Route(p) == Pictures {
      StepHolds(LoadRing(c.store, c.ring), Gops(Routed(Pictures, ps)), Routed(Pictures, ps), p);
      LoadWrite(c.store, c.ring, p);
      RingKeepsCount(c.ring, |c.store|, p.IsKey());
    }
  }

  lemma RingKeepsCount<T>(r: Ring<T>, x: T, key: bool)
    ensures RingWrite(r, x, key).Some? ==> RingWrite(r, x, key).value.count == r.count
  {
  }

  lemma {:induction false} CacheRuns(count: nat, ps: seq<Packet>)
    requires count == 1 || count == 2
    ensures CacheRun(count, ps).Some? && CacheIs(CacheRun(count, ps).value, count, ps)
    decreases |ps|
  {
    hide CacheIs, CacheWrite;
    if ps == [] {
      CacheFresh(count);
    } else {
      var k := |ps| - 1;
      CacheRuns(count, ps[..k]);
      CacheStep(CacheRun(count, ps[..k]).value, count, ps[..k], ps[k]);
      assert ps[..k] + [ps[k]] == ps;
    }
  }

  lemma CacheFresh(count: nat)
    requires count == 1 || count == 2
    ensures CacheIs(NewCache(count), count, [])
  {
  }

  /** A send shows the newest metadata and sequence headers, and the last groups. */
  lemma CacheShows(c: CacheState, count: nat, ps: seq<Packet>)
    requires CacheIs(c, count, ps)
    ensures CacheSend(c) == Some(Snapshot(count, ps))
  {
    hide Holds, RingSend, Gops, Routed, LoadRing, Knows;
    SendsHeld(LoadRing(c.store, c.ring), Gops(Routed(Pictures, ps)));
    LoadSend(c.store, c.ring);
    LoadCount(c.store, c.ring);
  }

  lemma LoadCount(store: seq<Packet>, r: Ring<nat>)
    requires Knows(r, |store|)
    ensures LoadRing(store, r).count == r.count
  {
  }

  // ---------- players ----------

  /**
   * `at` counts what was published before the player attached; since then it has sent `sent`, and `queue`
   * waits to be sent. A player that rewrites may change the packets it was handed.
   */
  datatype Player = Player(rewrites: bool, init: bool, at: nat, sent: seq<Packet>, queue: seq<Handle>, held: set<nat>)

  function NewPlayer(rewrites: bool, at: nat): Player { Player(rewrites, false, at, [], [], {}) }

  /** What a player has sent, and would send if nothing more happened to what waits. */
  function Received(w: Player, store: seq<Packet>): seq<Packet>
    requires Fetchable(w.queue, |store|)
  {
    w.sent + Fetch(store, w.queue)
  }

  datatype Hub = Hub(count: nat, cache: CacheState, published: seq<Packet>, players: map<nat, Player>)

  /**
   * `broken`: the players whose connection fails if anything is written to it in this step. A send comes
   * from a player's own thread, and so does a rewrite, at any time; it leaves any packet in a place the
   * player was handed.
   */
  datatype Event =
    | Attach(id: nat, rewrites: bool)
    | Detach(id: nat)
    | Publish(p: Packet, broken: set<nat>)
    | Takeover
    | Send(id: nat)
    | Rewrite(id: nat, ref: nat, q: Packet)

  function NewHub(count: nat): Hub { Hub(count, NewCache(count), [], map[]) }

  function Serve(w: Player, p: Packet, hands: seq<Handle>): Player
  {
    if w.init then w.(queue := w.queue + [Copy(p)])
    else w.(init := true, queue := w.queue + hands, held := w.held + if w.rewrites then Places(hands) else {})
  }

  /** A player stays unless a write to it fails. */
  predicate Stays(id: nat, w: Player, broken: set<nat>, hands: seq<Handle>)
  {
    id !in broken || (!w.init && hands == [])
  }

  function AllServed(players: map<nat, Player>, broken: set<nat>, p: Packet, hands: seq<Handle>): map<nat, Player>
  {
    map id | id in players && Stays(id, players[id], broken, hands) :: Serve(players[id], p, hands)
  }

  /** The first of what waits goes out, as it is now. */
  function SentFirst(w: Player, store: seq<Packet>): Player
    requires Fetchable(w.queue, |store|)
  {
    if w.queue == [] then w
    else w.(sent := w.sent + [Fetch(store, w.queue)[0]], queue := w.queue[1..])
  }

  function StartedOver(players: map<nat, Player>): map<nat, Player>
  {
    map id | id in players :: NewPlayer(players[id].rewrites, 0)
  }

  /**
   * A published packet goes to the cache and then to every player: the cache's contents if it is
   * the player's first, the packet itself otherwise. A new publisher starts an empty cache, and every
   * player over.
   */
  function HubStep(h: Hub, e: Event): Option<Hub>
  {
    match e
    case Attach(id, rewrites) => Some(h.(players := h.players[id := NewPlayer(rewrites, |h.published|)]))
    case Detach(id) => Some(h.(players := h.players - {id}))
    case Takeover => Some(Hub(h.count, NewCache(h.count), [], StartedOver(h.players)))
    case Publish(p, broken) =>
      (match CacheWrite(h.cache, p)
       case None => None
       case Some(c) =>
         match CacheHands(c)
         case None => None
         case Some(hands) => Some(Hub(h.count, c, h.published + [p], AllServed(h.players, broken, p, hands))))
    case Send(id) =>
      if id in h.players && Fetchable(h.players[id].queue, |h.cache.store|) then
        Some(h.(players := h.players[id := SentFirst(h.players[id], h.cache.store)]))
      else Some(h)
    case Rewrite(id, ref, q) =>
      if id in h.players && ref in h.players[id].held && ref < |h.cache.store| then
        Some(h.(cache := h.cache.(store := h.cache.store[ref := q])))
      else Some(h)
  }

  function HubRun(h: Hub, es: seq<Event>): Option<Hub>
    decreases |es|
  {
    if es == [] then Some(h)
    else match HubRun(h, es[..|es| - 1]) case None => None case Some(h1) => HubStep(h1, es[|es| - 1])
  }

  /** What a player that attached behind `at` packets has received. */
  function Expected(count: nat, ps: seq<Packet>, at: nat): seq<Packet>
    requires at <= |ps|
  {
    if at == |ps| then [] else Snapshot(count, ps[..at + 1]) + ps[at + 1..]
  }

  /** The cache holds what was published, and every player has sent, or has waiting, what it should. */
  ghost predicate Served(h: Hub)
  {
    && CacheIs(h.cache, h.count, h.published)
    && forall id <- h.players :: ServedRight(h.players[id], h.cache.store, h.count, h.published)
  }

  predicate ServedRight(w: Player, store: seq<Packet>, count: nat, ps: seq<Packet>)
  {
    && w.at <= |ps| && w.init == (w.at < |ps|)
    && Fetchable(w.queue, |store|) && Received(w, store) == Expected(count, ps, w.at)
  }

  lemma ExpectedStep(count: nat, ps: seq<Packet>, p: Packet, at: nat)
    requires at <= |ps|
    ensures Expected(count, ps + [p], at) ==
            Expected(count, ps, at) + if at < |ps| then [p] else Snapshot(count, ps + [p])
  {
    hide Snapshot;
    var ps1 := ps + [p];
    if at < |ps| {
      assert ps1[..at + 1] == ps[..at + 1] && ps1[at + 1..] == ps[at + 1..] + [p];
    } else {
      assert ps1[..at + 1] == ps1 && ps1[at + 1..] == [];
      assert Snapshot(count, ps1) + [] == Snapshot(count, ps1) == [] + Snapshot(count, ps1);
    }
  }

  /** The one step that does harm: another packet is put where the cache, or a player's queue, still has one. */
  predicate Spoils(h: Hub, e: Event)
  {
    && e.Rewrite? && e.id in h.players && e.ref in h.players[e.id].held
    && e.ref < |h.cache.store| && h.cache.store[e.ref] != e.q
    && (InRing(h.cache.ring, e.ref) || exists id <- h.players :: Shared(e.ref) in h.players[id].queue)
  }

  /** A step keeps the law exactly when it does not put another packet where one is still to be sent. */
  lemma StepIff(h: Hub, e: Event)
    requires Served(h) && (h.count == 1 || h.count == 2)
    ensures HubStep(h, e).Some? && HubStep(h, e).value.count == h.count
    ensures Served(HubStep(h, e).value) <==> !Spoils(h, e)
  {
    hide CacheIs, CacheWrite, CacheHands, CacheSend, Snapshot, InRing, Serve, Stays, Received, ServedRight, SentFirst;
    match e {
      case Publish(p, broken) => PublishServes(h, p, broken);
      case Takeover =>
        CacheFresh(h.count);
        NewServed(h, [], 0);
      case Attach(id, rewrites) => NewServed(h, h.published, |h.published|);
      case Send(id) => if id in h.players { SendServes(h.players[id], h.cache.store, h.count, h.published); }
      case Rewrite(id, ref, q) => RewriteIff(h, id, ref, q);
      case Detach(id) =>
    }
  }

  lemma NewServed(h: Hub, ps: seq<Packet>, at: nat)
    requires at == |ps|
    ensures forall rewrites, store :: ServedRight(NewPlayer(rewrites, at), store, h.count, ps)
  {
  }

  lemma SendServes(w: Player, store: seq<Packet>, count: nat, ps: seq<Packet>)
    requires ServedRight(w, store, count, ps)
    ensures ServedRight(SentFirst(w, store), store, count, ps)
  {
    hide Expected;
    if w.queue != [] {
      var all := Fetch(store, w.queue);
      assert Fetch(store, w.queue[1..]) == all[1..];
      assert all == [all[0]] + all[1..];
      ConcatAssoc(w.sent, [all[0]], all[1..]);
    }
  }

  /** One player served: the cache's contents or the packet join what it has. */
  lemma ServeServes(w: Player, store: seq<Packet>, more: seq<Packet>, count: nat, ps: seq<Packet>, p: Packet,
                    hands: seq<Handle>)
    requires ServedRight(w, store, count, ps) && store <= more
    requires Fetchable(hands, |more|) && Fetch(more, hands) == Snapshot(count, ps + [p])
    ensures ServedRight(Serve(w, p, hands), more, count, ps + [p])
  {
    hide Snapshot, Expected;
    FetchGrows(store, more, w.queue);
    ExpectedStep(count, ps, p, w.at);
    var added := if w.init then [Copy(p)] else hands;
    assert Fetch(more, [Copy(p)]) == [p];
    FetchAppend(more, w.queue, added);
    ConcatAssoc(w.sent, Fetch(more, w.queue), Fetch(more, added));
  }

  lemma PublishServes(h: Hub, p: Packet, broken: set<nat>)
    requires Served(h) && (h.count == 1 || h.count == 2)
    ensures var t := HubStep(h, Publish(p, broken)); t.Some? && t.value.count == h.count && Served(t.value)
  {
    hide CacheIs, CacheHands, CacheSend, Snapshot, Serve, Stays, ServedRight, RingWrite;
    CacheStep(h.cache, h.count, h.published, p);
    var c := CacheWrite(h.cache, p).value;
    CacheShows(c, h.count, h.published + [p]);
    HandsShow(c);
    var hands := CacheHands(c).value;
    assert h.cache.store <= c.store;
    forall id | id in h.players
      ensures ServedRight(Serve(h.players[id], p, hands), c.store, h.count, h.published + [p])
    {
      ServeServes(h.players[id], h.cache.store, c.store, h.count, h.published, p, hands);
    }
  }

  lemma RewriteIff(h: Hub, id: nat, ref: nat, q: Packet)
    requires Served(h)
    ensures Served(HubStep(h, Rewrite(id, ref, q)).value) <==> !Spoils(h, Rewrite(id, ref, q))
  {
    hide CacheIs, InRing, ServedRight;
    if id in h.players && ref in h.players[id].held && ref < |h.cache.store| {
      var t := Changed(h.cache, ref, q).store;
      CacheChanged(h.cache, h.count, h.published, ref, q);
      if h.cache.store[ref] == q {
        assert t == h.cache.store;
      } else {
        forall j | j in h.players
          ensures ServedRight(h.players[j], t, h.count, h.published) <==> Shared(ref) !in h.players[j].queue
        {
          PlayerIff(h.players[j], h.cache.store, h.count, h.published, ref, q);
        }
      }
    }
  }

  lemma PlayerIff(w: Player, store: seq<Packet>, count: nat, ps: seq<Packet>, ref: nat, q: Packet)
    requires ServedRight(w, store, count, ps) && ref < |store| && store[ref] != q
    ensures ServedRight(w, store[ref := q], count, ps) <==> Shared(ref) !in w.queue
  {
    hide Expected, Fetch;
    FetchChanged(store, w.queue, ref, q);
    var a, b := Fetch(store, w.queue), Fetch(store[ref := q], w.queue);
    if w.sent + a == w.sent + b {
      assert a == (w.sent + a)[|w.sent|..] && b == (w.sent + b)[|w.sent|..];
    }
  }

  /** The cache with another packet in one place. */
  function Changed(c: CacheState, ref: nat, q: Packet): CacheState
    requires ref < |c.store|
  {
    c.(store := c.store[ref := q])
  }

  lemma CacheChanged(c: CacheState, count: nat, ps: seq<Packet>, ref: nat, q: Packet)
    requires CacheIs(c, count, ps) && ref < |c.store|
    ensures CacheIs(Changed(c, ref, q), count, ps) <==> !InRing(c.ring, ref) || c.store[ref] == q
  {
    hide Holds, LoadRing, Knows, InRing, Gops, Routed;
    var gs, v := Gops(Routed(Pictures, ps)), LoadRing(c.store, c.ring);
    if c.store[ref] == q {
      assert c.store[ref := q] == c.store;
    } else {
      RingChanged(c.store, c.ring, ref, q);
      var w := LoadRing(c.store[ref := q], c.ring);
      SameShape(c.store, c.store[ref := q], c.ring);
      if Holds(w, gs) { HoldsOne(v, w, gs); }
    }
  }

  lemma SameShape(a: seq<Packet>, b: seq<Packet>, r: Ring<nat>)
    requires Knows(r, |a|) && |a| == |b|
    ensures LoadRing(a, r).count == LoadRing(b, r).count && LoadRing(a, r).next == LoadRing(b, r).next
  {
  }

  lemma HubFresh(count: nat)
    requires count == 1 || count == 2
    ensures Served(NewHub(count))
  {
    hide CacheIs;
    CacheFresh(count);
  }

  // ---------- what a late player sees ----------

  /** Number of key frames. */
  function Keys(ps: seq<Packet>): nat
  {
    if ps == [] then 0 else (if ps[0].IsKey() then 1 else 0) + Keys(ps[1..])
  }

  lemma {:induction false} KeysAppend(a: seq<Packet>, b: seq<Packet>)
    ensures Keys(a + b) == Keys(a) + Keys(b)
  {
    if a == [] {
      assert a + b == b;
    } else {
      KeysAppend(a[1..], b);
      assert (a + b)[1..] == a[1..] + b && (a + b)[0] == a[0];
    }
  }

  /** A key frame and then none. */
  predicate OneGop(g: Gop) { g != [] && g[0].IsKey() && Keys(g) == 1 }

  predicate IsSuffix(s: seq<Packet>, all: seq<Packet>) { |s| <= |all| && s == all[|all| - |s|..] }

  predicate Tiles(gs: seq<Gop>, ps: seq<Packet>)
  {
    IsSuffix(Flatten(gs), ps) && (forall g <- gs :: OneGop(g)) && (Keys(ps) > 0 <==> gs != [])
  }

  lemma Suffixes(f: seq<Packet>, ps: seq<Packet>, p: Packet)
    requires IsSuffix(f, ps)
    ensures IsSuffix(f + [p], ps + [p]) && IsSuffix([], ps)
  {
  }

  /** The groups tile what was written from the first key frame on. */
  lemma {:induction false} GopsTile(ps: seq<Packet>)
    ensures Tiles(Gops(ps), ps)
    decreases |ps|
  {
    hide IsSuffix, OneGop, Keys, Flatten;
    if ps == [] {
      NothingTiles();
    } else {
      var k := |ps| - 1;
      var gs, p := Gops(ps[..k]), ps[k];
      GopsTile(ps[..k]);
      assert ps == ps[..k] + [p];
      KeysAppend(ps[..k], [p]);
      KeysOne(p);
      Suffixes(Flatten(gs), ps[..k], p);
      if p.IsKey() {
        FlattenAppend(gs, [[p]]);
        OneFlat([p]);
        assert OneGop([p]) by { KeyIsGop(p); }
      } else if gs != [] {
        GrowLast(gs, p);
      } else {
        NothingTiles();
        EmptySuffix(ps);
      }
    }
  }

  lemma KeyIsGop(p: Packet)
    requires p.IsKey()
    ensures OneGop([p])
  {
    KeysOne(p);
  }

  lemma EmptySuffix(ps: seq<Packet>)
    ensures IsSuffix([], ps)
  {
  }

  lemma NothingTiles()
    ensures Tiles([], []) && Flatten<Packet>([]) == []
  {
  }

  lemma KeysOne(p: Packet)
    ensures Keys([p]) == if p.IsKey() then 1 else 0
  {
    assert [p][1..] == [];
  }

  lemma GrowLast(gs: seq<Gop>, p: Packet)
    requires gs != [] && !p.IsKey() && forall g <- gs :: OneGop(g)
    ensures var gs1 := gs[..|gs| - 1] + [gs[|gs| - 1] + [p]];
            Flatten(gs1) == Flatten(gs) + [p] && forall g <- gs1 :: OneGop(g)
  {
    var front, g := gs[..|gs| - 1], gs[|gs| - 1];
    assert gs == front + [g] && g in gs;
    FlattenAppend(front, [g]);
    FlattenAppend(front, [g + [p]]);
    OneFlat(g);
    OneFlat(g + [p]);
    KeysAppend(g, [p]);
    KeysOne(p);
    ConcatAssoc(Flatten(front), g, [p]);
    assert OneGop(g + [p]) by { assert (g + [p])[0] == g[0]; }
    assert forall h <- front :: h in gs;
  }

  lemma CutKeepsKey(g: Gop)
    requires OneGop(g)
    ensures OneGop(Cut(g))
  {
    var c := Cut(g);
    assert g == c + g[|c|..];
    KeysAppend(c, g[|c|..]);
    assert c[0] == g[0];
  }

  lemma {:induction false} FlatKeys(gs: seq<Gop>)
    requires forall g <- gs :: OneGop(g)
    ensures Keys(Flatten(gs)) == |gs|
  {
    if gs != [] {
      assert gs[0] in gs;
      FlatKeys(gs[1..]);
      KeysAppend(gs[0], Flatten(gs[1..]));
    }
  }

  lemma {:induction false} CutShorter(gs: seq<Gop>)
    ensures |Flatten(CutAll(gs))| <= |Flatten(gs)|
    ensures |Flatten(CutAll(gs))| == |Flatten(gs)| <==> forall g <- gs :: |g| <= MAX_GOP
    ensures (forall g <- gs :: |g| <= MAX_GOP) ==> CutAll(gs) == gs
  {
    if gs != [] {
      CutShorter(gs[1..]);
      assert CutAll(gs)[1..] == CutAll(gs[1..]) && CutAll(gs)[0] == Cut(gs[0]);
      assert forall g :: g in gs <==> g == gs[0] || g in gs[1..];
    } else {
      assert CutAll(gs) == [];
    }
  }

  /** What a late player has of the packets the picture cache takes. */
  lemma PicturesExpected(count: nat, ps: seq<Packet>, at: nat)
    requires at < |ps|
    ensures Routed(Pictures, Expected(count, ps, at)) ==
            Flatten(CutAll(Cached(count, ps[..at + 1]))) + Routed(Pictures, ps[at + 1..])
  {
    hide Routed, Gops, Route;
    var h := ps[..at + 1];
    var pictures := Flatten(CutAll(Cached(count, h)));
    var heads := Newest(Metadata, h) + Newest(VideoSeq, h) + Newest(AudioSeq, h);
    RoutedHas(Metadata, h);
    RoutedHas(VideoSeq, h);
    RoutedHas(AudioSeq, h);
    RoutedNone(Pictures, heads);
    FromCache(count, h);
    RoutedAll(Pictures, pictures);
    RoutedAppend(Pictures, heads, pictures);
    RoutedAppend(Pictures, heads + pictures, ps[at + 1..]);
    assert [] + pictures == pictures;
  }

  lemma FromCache(count: nat, h: seq<Packet>)
    ensures forall p <- Flatten(CutAll(Cached(count, h))) :: Route(p) == Pictures
  {
    hide Routed, Gops, Route;
    var gs := Gops(Routed(Pictures, h));
    GopsTile(Routed(Pictures, h));
    RoutedHas(Pictures, h);
    var cached := Cached(count, h);
    InFlat(CutAll(cached));
    forall p | p in Flatten(CutAll(cached)) ensures Route(p) == Pictures {
      var g :| g in CutAll(cached) && p in g;
      var i :| 0 <= i < |cached| && Cut(cached[i]) == g;
      assert cached[i] in gs && p in cached[i];
      FlatHas(gs, cached[i]);
    }
  }

  lemma {:induction false} InFlat(gs: seq<Gop>)
    ensures forall p <- Flatten(gs) :: exists g :: g in gs && p in g
  {
    if gs != [] {
      InFlat(gs[1..]);
      assert gs[0] in gs;
      forall p | p in Flatten(gs) ensures exists g :: g in gs && p in g {
        if p !in gs[0] {
          assert p in Flatten(gs[1..]);
          var g :| g in gs[1..] && p in g;
          assert g in gs;
        }
      }
    }
  }

  lemma {:induction false} FlatHas(gs: seq<Gop>, g: Gop)
    requires g in gs
    ensures forall p <- g :: p in Flatten(gs)
  {
    if g != gs[0] { FlatHas(gs[1..], g); }
  }

  /**
   * The late player's law, exactly: what it has of the pictures is a suffix of all that was published
   * (nothing missing in between, nothing twice) if and only if no group it was sent from the cache was
   * longer than the cache keeps; and it starts at a key frame.
   */
  lemma LateJoinerIff(h: Hub, id: nat)
    requires Served(h) && h.count > 0 && id in h.players && h.players[id].init
    requires Keys(Routed(Pictures, h.published[..h.players[id].at + 1])) > 0
    ensures var w, all := h.players[id], Routed(Pictures, h.published);
            && Fetchable(w.queue, |h.cache.store|)
            && var got := Routed(Pictures, Received(w, h.cache.store));
               && (IsSuffix(got, all) <==> forall g <- Cached(h.count, h.published[..w.at + 1]) :: |g| <= MAX_GOP)
               && got != [] && got[0].IsKey()
  {
    hide Routed, Cached, IsSuffix, Keys, Expected, Received;
    ExpectedIff(h.count, h.published, h.players[id].at);
  }

  lemma ExpectedIff(count: nat, ps: seq<Packet>, at: nat)
    requires count > 0 && at < |ps| && Keys(Routed(Pictures, ps[..at + 1])) > 0
    ensures var all, got := Routed(Pictures, ps), Routed(Pictures, Expected(count, ps, at));
            && (IsSuffix(got, all) <==> forall g <- Cached(count, ps[..at + 1]) :: |g| <= MAX_GOP)
            && got != [] && got[0].IsKey()
  {
    hide Routed, Gops, Expected, Flatten, Keys, IsSuffix, OneGop, Cached, CutAll;
    var h, live := Routed(Pictures, ps[..at + 1]), Routed(Pictures, ps[at + 1..]);
    var cached := Cached(count, ps[..at + 1]);
    PicturesExpected(count, ps, at);
    RoutedAppend(Pictures, ps[..at + 1], ps[at + 1..]);
    assert ps[..at + 1] + ps[at + 1..] == ps;
    CachedTile(count, ps[..at + 1]);
    var before := Front(Flatten(cached), h);
    ConcatAssoc(before, Flatten(cached), live);
    SuffixIff(before, cached, live);
  }

  /** The cached groups are the end of what was routed to the ring. */
  lemma CachedTile(count: nat, ps: seq<Packet>)
    requires count > 0 && Keys(Routed(Pictures, ps)) > 0
    ensures var cached := Cached(count, ps);
            cached != [] && (forall g <- cached :: OneGop(g)) && IsSuffix(Flatten(cached), Routed(Pictures, ps))
  {
    hide Routed, Gops, Flatten, Keys, OneGop;
    var h := Routed(Pictures, ps);
    var gs, cached := Gops(h), Cached(count, ps);
    GopsTile(h);
    var front := gs[..|gs| - |cached|];
    assert gs == front + cached;
    FlattenAppend(front, cached);
    assert forall g <- cached :: g in gs;
    SuffixOfSuffix(Flatten(front), Flatten(cached), h);
  }

  lemma SuffixOfSuffix(a: seq<Packet>, b: seq<Packet>, all: seq<Packet>)
    requires IsSuffix(a + b, all)
    ensures IsSuffix(b, all)
  {
    assert all[|all| - |b|..] == (a + b)[|a|..];
  }

  /** What a suffix is behind. */
  function Front(s: seq<Packet>, all: seq<Packet>): (r: seq<Packet>)
    requires IsSuffix(s, all)
    ensures r + s == all
  {
    all[..|all| - |s|]
  }

  lemma SuffixIff(before: seq<Packet>, cached: seq<Gop>, live: seq<Packet>)
    requires cached != [] && forall g <- cached :: OneGop(g)
    ensures var got := Flatten(CutAll(cached)) + live;
            && (IsSuffix(got, before + (Flatten(cached) + live)) <==> forall g <- cached :: |g| <= MAX_GOP)
            && got != [] && got[0].IsKey()
  {
    hide OneGop, Cut, CutAll, Keys;
    var whole := Flatten(cached) + live;
    var got := Flatten(CutAll(cached)) + live;
    var all := before + whole;
    CutShorter(cached);
    StartsWithKey(cached);
    CutsAreGops(cached);
    StartsWithKey(CutAll(cached));
    if |got| == |whole| {
      assert got == whole;
      assert all[|all| - |got|..] == whole;
    } else {
      FlatKeys(cached);
      FlatKeys(CutAll(cached));
      KeysAppend(Flatten(cached), live);
      KeysAppend(Flatten(CutAll(cached)), live);
      var d := |whole| - |got|;
      assert all[|all| - |got|..] == whole[d..];
      FewerKeys(whole, d);
    }
  }

  lemma StartsWithKey(gs: seq<Gop>)
    requires gs != [] && forall g <- gs :: OneGop(g)
    ensures Flatten(gs) != [] && Flatten(gs)[0].IsKey()
  {
    assert gs[0] in gs;
  }

  lemma CutsAreGops(gs: seq<Gop>)
    requires forall g <- gs :: OneGop(g)
    ensures forall g <- CutAll(gs) :: OneGop(g)
  {
    hide OneGop, Cut;
    forall g | g in CutAll(gs) ensures OneGop(g) {
      var i :| 0 <= i < |gs| && CutAll(gs)[i] == g;
      CutKeepsKey(gs[i]);
    }
  }

  /** Dropping packets from the front of something that starts with a key frame loses that key frame. */
  lemma FewerKeys(s: seq<Packet>, d: nat)
    requires 0 < d <= |s| && s[0].IsKey()
    ensures Keys(s[d..]) < Keys(s)
  {
    assert s == [s[0]] + (s[1..d] + s[d..]);
    KeysAppend([s[0]], s[1..d] + s[d..]);
    KeysAppend(s[1..d], s[d..]);
    KeysOne(s[0]);
  }
}
