/** A stream at work: each packet goes to the cache and then to every writer of the table. */
module StreamRun {
  import opened Options
  import opened Av
  import opened GopSpec
  import opened StoreSpec
  import opened Fanout
  import opened StreamCache
  import Timestamps

  /** What a writer had, before or after it is given a packet: the cache's contents come first. */
  method ServeOne(cache: Cache, w: Writer, p: Packet) returns (ok: bool)
    requires cache.Valid() && CacheHands(cache.Abs()).Some? && w !in cache.Repr() && w.base <= |w.sent|
    modifies w`queue, w`held, w`init
    ensures ok == (!w.broken || (!old(w.init) && CacheHands(old(cache.Abs())).value == []))
    ensures cache.Valid() && cache.Abs() == old(cache.Abs()) && cache.Repr() == old(cache.Repr())
    ensures ok ==> w.AsPlayer() == Serve(old(w.AsPlayer()), p, CacheHands(old(cache.Abs())).value)
  {
    hide CacheHands, Places;
    if !w.init {
      var st := cache.Send(w);
      ok := st == Complete;
      if !ok { return; }
      w.init := true;
    } else {
      ok := w.Write(p);
    }
  }

  /** A writer's own thread at work leaves the cache as it is. */
  method SendOne(cache: Cache, w: Writer)
    requires cache.Valid() && w !in cache.Repr() && Fetchable(w.queue, |cache.store.cells|) && w.base <= |w.sent|
    modifies w`sent, w`queue
    ensures cache.Valid() && cache.Abs() == old(cache.Abs()) && cache.Repr() == old(cache.Repr())
    ensures w.AsPlayer() == SentFirst(old(w.AsPlayer()), cache.store.cells) && w.base <= |w.sent|
  {
    w.SendFirst(cache.store);
  }

  class Stream {
    const cache: Cache
    var ws: map<nat, Writer>
    ghost var published: seq<Packet>

    ghost function Writers(): set<Writer> reads this { set id | id in ws :: ws[id] }

    /** No writer is in the table twice. */
    ghost predicate Apart()
      reads this
    {
      forall i, j :: i in ws && j in ws && i != j ==> ws[i] != ws[j]
    }

    ghost predicate Shaped()
      reads this, cache.Repr(), Writers()
    {
      && cache.Valid() && (forall id <- ws :: ws[id] !in cache.Repr()) && this !in cache.Repr() && Apart()
      && forall id <- ws :: ws[id].base <= |ws[id].sent|
    }

    ghost function Players(): map<nat, Player>
      reads this, Writers()
    {
      map id | id in ws :: ws[id].AsPlayer()
    }

    ghost function Abs(): Hub
      reads this, cache.Repr(), Writers()
    {
      Hub(cache.gop.count, cache.Abs(), published, Players())
    }

    ghost function Clocks(): map<nat, Timestamps.Clock>
      reads this, Writers()
    {
      map id | id in ws :: ws[id].clock
    }

    /** The law every step keeps: each writer has exactly what a player of the run should have. */
    ghost predicate Valid()
      reads this, cache.Repr(), Writers()
    {
      Shaped() && (cache.gop.count == 1 || cache.gop.count == 2) && Served(Abs())
    }

    constructor (count: nat)
      requires count == 1 || count == 2
      ensures Valid() && fresh(cache.Repr()) && Abs() == NewHub(count)
    {
      cache := new Cache(count);
      ws, published := map[], [];
      new;
      HubFresh(count);
      assert Players() == map[];
    }

    method AddWriter(id: nat, w: Writer)
      requires Valid() && w !in Writers() && w !in cache.Repr()
      modifies `ws, w
      ensures Valid() && HubStep(old(Abs()), Attach(id, w.rewrites)) == Some(Abs())
      ensures Writers() <= old(Writers()) + {w} && ws == old(ws)[id := w] && w.clock == old(w.clock)
      ensures Players() == old(Players())[id := NewPlayer(w.rewrites, |published|)]
    {
      hide Served, Shaped, Cache.Abs, Players, Writers;
      StepIff(Abs(), Attach(id, w.rewrites));
      Put(id, w);
    }

    /** Enters a writer that is to start over. */
    method Put(id: nat, w: Writer)
      requires Shaped() && w !in Writers() && w !in cache.Repr()
      modifies `ws, w
      ensures Shaped() && cache.Abs() == old(cache.Abs())
      ensures Players() == old(Players())[id := NewPlayer(w.rewrites, |published|)]
      ensures Writers() <= old(Writers()) + {w} && ws == old(ws)[id := w] && w.clock == old(w.clock)
    {
      hide Shaped, Cache.Abs, Players, Writer.AsPlayer;
      Prepare(w);
      Enter(id, w);
    }

    method Prepare(w: Writer)
      requires Shaped() && w !in Writers() && w !in cache.Repr()
      modifies w
      ensures Shaped() && cache.Abs() == old(cache.Abs()) && Players() == old(Players()) && Writers() == old(Writers())
      ensures w.AsPlayer() == NewPlayer(w.rewrites, |published|) && w.base <= |w.sent| && w.clock == old(w.clock) &&
              cache.Repr() == old(cache.Repr())
    {
      hide Cache.Valid, Cache.Abs, Cache.Repr;
      w.init, w.at, w.base, w.queue, w.held := false, |published|, |w.sent|, [], {};
      StartsOver(w, |published|);
      hide Writer.AsPlayer;
      assert forall id <- ws :: ws[id] != w;
    }

    method Enter(id: nat, w: Writer)
      requires Shaped() && w !in Writers() && w !in cache.Repr() && w.base <= |w.sent|
      modifies `ws
      ensures Shaped() && cache.Abs() == old(cache.Abs())
      ensures Players() == old(Players())[id := w.AsPlayer()]
      ensures Writers() <= old(Writers()) + {w} && ws == old(ws)[id := w] && w.clock == old(w.clock)
    {
      hide Cache.Valid, Cache.Abs, Cache.Repr, Writer.AsPlayer;
      ghost var players := Players();
      ws := ws[id := w];
      assert Players() == players[id := w.AsPlayer()];
    }

    method RemoveWriter(id: nat)
      requires Valid()
      modifies `ws
      ensures Valid() && HubStep(old(Abs()), Detach(id)) == Some(Abs())
    {
      hide Served, Shaped, Cache.Abs, Players;
      StepIff(Abs(), Detach(id));
      Drop(id);
    }

    method Drop(id: nat)
      requires Shaped()
      modifies `ws
      ensures Shaped() && cache.Abs() == old(cache.Abs()) && ws == old(ws) - {id}
      ensures Players() == old(Players()) - {id} && Writers() <= old(Writers())
      ensures BrokenIds() == old(BrokenIds()) - {id}
    {
      hide Cache.Valid, Cache.Abs, Cache.Repr, Writer.AsPlayer;
      ghost var players := Players();
      ws := ws - {id};
      assert Players() == players - {id};
    }

    /** The writers whose connection is down. */
    ghost function BrokenIds(): set<nat>
      reads this, Writers()
    {
      set id | id in ws && ws[id].broken
    }

    /** The turn of one writer. */
    method ServeNext(id: nat, w: Writer, p: Packet)
      requires Shaped() && id in ws && w == ws[id] && CacheHands(cache.Abs()).Some?
      modifies `ws, w`queue, w`held, w`init
      ensures Shaped() && cache.Abs() == old(cache.Abs()) && Writers() <= old(Writers())
      ensures BrokenIds() == old(BrokenIds()) * ws.Keys
      ensures var hands, was := CacheHands(old(cache.Abs())).value, old(Players())[id];
              if Stays(id, was, old(BrokenIds()), hands) then
                ws == old(ws) && Players() == old(Players())[id := Serve(was, p, hands)]
              else ws == old(ws) - {id} && Players() == old(Players()) - {id}
    {
      hide CacheHands, Shaped, Cache.Abs, Players, Serve, Writers;
      WriterIs(id, w);
      PlayerKeys();
      var ok := ServeInPlace(id, w, p);
      if !ok {
        ghost var players := Players();
        Drop(id);
        assert Players() == old(Players()) - {id};
      }
    }

    lemma WriterIs(id: nat, w: Writer)
      requires id in ws && w == ws[id]
      ensures id in Players() && Players()[id].init == w.init && (w.broken <==> id in BrokenIds())
    {
    }

    /** Serves a writer of the table; the others are as they were. */
    method ServeInPlace(id: nat, w: Writer, p: Packet) returns (ok: bool)
      requires Shaped() && id in ws && w == ws[id] && CacheHands(cache.Abs()).Some?
      modifies w`queue, w`held, w`init
      ensures Shaped() && cache.Abs() == old(cache.Abs())
      ensures BrokenIds() == old(BrokenIds())
      ensures ok == (!w.broken || (!old(w.init) && CacheHands(old(cache.Abs())).value == []))
      ensures if ok then
                Players() == old(Players())[id := Serve(old(Players())[id], p, CacheHands(old(cache.Abs())).value)]
              else Players() - {id} == old(Players()) - {id}
    {
      hide CacheHands, Cache.Valid, Cache.Abs, Cache.Repr, Writer.AsPlayer, Serve;
      ghost var hands, players := CacheHands(cache.Abs()).value, Players();
      ok := ServeOne(cache, w, p);
      assert forall j :: j in ws && j != id ==> ws[j].AsPlayer() == players[j];
      if ok {
        assert Players() == players[id := Serve(players[id], p, hands)];
      } else {
        assert Players() - {id} == players - {id};
      }
    }

    /** Hands a packet, or the cache's contents, to every writer in some order; those that fail go. */
    method ServeAll(p: Packet)
      requires Shaped() && CacheHands(cache.Abs()).Some?
      modifies `ws, Writers()`queue, Writers()`held, Writers()`init
      ensures Shaped() && cache.Abs() == old(cache.Abs()) && Writers() <= old(Writers())
      ensures Players() == AllServed(old(Players()), old(BrokenIds()), p, CacheHands(old(cache.Abs())).value)
    {
      hide CacheHands, Shaped, Cache.Abs, BrokenIds, Players, Stays, Serve, HalfServed, AllServed;
      ghost var c := cache.Abs();
      ghost var hands := CacheHands(c).value;
      ghost var players, broken := Players(), BrokenIds();
      var left := ws.Keys;
      PlayerKeys();
      NoneServed(players, broken, p, hands);
      while left != {}
        invariant Shaped() && cache.Abs() == c && Writers() <= old(Writers()) && left <= ws.Keys
        invariant Players().Keys == ws.Keys && BrokenIds() == broken * ws.Keys
        invariant HalfServed(Players(), left, players, broken, p, hands)
        decreases left
      {
        var id :| id in left;
        OneMore(Players(), left, players, broken, p, hands, id, BrokenIds());
        left := left - {id};
        ServeNext(id, ws[id], p);
      }
      HalfIsAll(Players(), players, broken, p, hands);
    }

    /** The packet goes to the cache; the writers are as they were. */
    method Remember(p: Packet)
      requires Shaped() && CacheWrite(cache.Abs(), p).Some?
      modifies `published, cache.Repr()
      ensures Shaped() && cache.Abs() == CacheWrite(old(cache.Abs()), p).value && published == old(published) + [p]
      ensures Players() == old(Players()) && BrokenIds() == old(BrokenIds()) && Writers() == old(Writers())
      ensures fresh(cache.Repr() - old(cache.Repr()))
    {
      hide Cache.Valid, Cache.Abs, CacheWrite, Writer.AsPlayer;
      ghost var players := Players();
      var ok := cache.Write(p);
      published := published + [p];
      assert Players() == players;
    }

    /** One turn of the loop: the packet is cached, then handed to every writer. */
    method Publish(p: Packet)
      requires Valid()
      modifies this, cache.Repr(), Writers()
      ensures Valid() && HubStep(old(Abs()), Event.Publish(p, old(BrokenIds()))) == Some(Abs())
      ensures Writers() <= old(Writers()) && fresh(cache.Repr() - old(cache.Repr()))
    {
      hide Served, Shaped, Cache.Abs, CacheWrite, CacheHands, Players, BrokenIds;
      ghost var h := Abs();
      ghost var e := Event.Publish(p, BrokenIds());
      StepIff(h, e);
      Published(h, p, BrokenIds());
      Remember(p);
      ServeAll(p);
    }

    /** A writer's own thread sends what waits first; the law is kept. */
    method SendFrom(id: nat, w: Writer)
      requires Valid() && id in ws && w == ws[id]
      modifies w`sent, w`queue
      ensures Valid() && HubStep(old(Abs()), Send(id)) == Some(Abs())
    {
      hide Served, Shaped, Cache.Abs, Players, SentFirst;
      StepIff(Abs(), Send(id));
      WaitsRight(id, w);
      SendInPlace(id, w);
    }

    method SendInPlace(id: nat, w: Writer)
      requires Shaped() && id in ws && w == ws[id] && Fetchable(w.queue, |cache.store.cells|) && id in Players()
      modifies w`sent, w`queue
      ensures Shaped() && cache.Abs() == old(cache.Abs())
      ensures Players() == old(Players())[id := SentFirst(old(w.AsPlayer()), cache.store.cells)]
    {
      hide Cache.Valid, Cache.Abs, Cache.Repr, Writer.AsPlayer, SentFirst;
      ghost var players := Players();
      SendOne(cache, w);
      assert forall j :: j in ws && j != id ==> ws[j].AsPlayer() == players[j];
      assert Players() == players[id := w.AsPlayer()];
    }

    lemma WaitsRight(id: nat, w: Writer)
      requires Valid() && id in ws && w == ws[id]
      ensures Fetchable(w.queue, |cache.store.cells|) && cache.Abs().store == cache.store.cells
      ensures id in Players() && Players()[id] == w.AsPlayer()
    {
      hide CacheIs, Cache.Valid, Received;
      assert ServedRight(Players()[id], cache.store.cells, cache.gop.count, published);
    }

    /**
     * A writer that rewrites puts another packet where it holds one, as the HLS sender does when it
     * converts in place. The law survives exactly if the cache does not refer to that place any more.
     */
    method Rewrite(id: nat, ref: nat, q: Packet)
      requires Valid()
      modifies cache.store
      ensures Shaped() && HubStep(old(Abs()), Event.Rewrite(id, ref, q)) == Some(Abs())
      ensures Valid() <==> !Spoils(old(Abs()), Event.Rewrite(id, ref, q))
    {
      hide Served, Spoils, Cache.Valid, GopCache.Abs;
      StepIff(Abs(), Event.Rewrite(id, ref, q));
      if id in ws && ref in ws[id].held && ref < |cache.store.cells| { Overwrite(ref, q); }
    }

    method Overwrite(ref: nat, q: Packet)
      requires Shaped() && ref < |cache.store.cells|
      modifies cache.store
      ensures Shaped() && cache.Abs() == old(cache.Abs()).(store := old(cache.Abs()).store[ref := q])
      ensures Players() == old(Players())
    {
      hide Writer.AsPlayer;
      cache.store.cells := cache.store.cells[ref := q];
      assert cache.gop.Abs() == old(cache.gop.Abs());
      assert Players() == old(Players());
    }

    /** A new publisher's stream takes the writers over; each is to start over, behind the last time it sent. */
    method TakeOver(from: Stream)
      requires Valid() && Abs() == NewHub(cache.gop.count) && from.Apart() && from != this && from !in cache.Repr()
      requires forall id <- from.ws :: from.ws[id] !in cache.Repr()
      modifies `ws, from`ws, from.Writers()
      ensures Valid() && from.ws == map[] && ws == old(from.ws)
      ensures HubStep(old(from.Abs()).(count := cache.gop.count), Takeover) == Some(Abs())
      ensures Clocks() == Rebased(old(from.Clocks()))
    {
      ghost var clocks, players := from.Clocks(), from.Players();
      hide Valid, Cache.Repr, Players, Cache.Abs, AllNew, Timestamps.Rebase, NewCache, Moving, Clocks, Rebased;
      PlayerKeys();
      from.PlayerKeys();
      assert ws.Keys == {};
      StartsMoving(from);
      MoveAll(from, clocks);
      FromPlayers(players, ws);
      EndsMoving(from, clocks);
    }

    method MoveAll(from: Stream, ghost clocks: map<nat, Timestamps.Clock>)
      requires Valid() && published == [] && ws == map[] && from != this && from !in cache.Repr()
      requires Moving(from, from.ws, clocks) && forall id <- from.ws :: from.ws[id] !in cache.Repr()
      modifies `ws, from`ws, from.Writers()
      ensures Valid() && from.ws == map[] && ws == old(from.ws) && Moving(from, ws, clocks)
      ensures published == [] && cache.Abs() == old(cache.Abs()) && Players() == AllNew(ws)
    {
      hide Valid, Cache.Repr, Players, Cache.Abs, AllNew, Timestamps.Rebase;
      ghost var all, repr := from.ws, cache.Repr();
      NoPlayers();
      while from.ws.Keys != {}
        invariant Valid() && published == [] && cache.Repr() == repr && cache.Abs() == old(cache.Abs())
        invariant Moving(from, all, clocks) && Players() == AllNew(ws)
        decreases from.ws.Keys
      {
        var id :| id in from.ws.Keys;
        OneNew(ws, id, from.ws[id]);
        MoveOne(from, id, all, clocks);
      }
      assert ws == all;
    }

    /** Some writers of the old table are in the new one, with their clocks rebased. */
    ghost predicate Moving(from: Stream, all: map<nat, Writer>, clocks: map<nat, Timestamps.Clock>)
      reads this, from, all.Values
    {
      && from.ws.Keys <= all.Keys && ws.Keys == all.Keys - from.ws.Keys && clocks.Keys == all.Keys
      && (forall i, j :: i in all && j in all && i != j ==> all[i] != all[j])
      && (forall id <- from.ws :: from.ws[id] == all[id]) && (forall id <- ws :: ws[id] == all[id])
      && forall id <- all :: all[id].clock == if id in ws then Timestamps.Rebase(clocks[id]) else clocks[id]
    }

    lemma StartsMoving(from: Stream)
      requires ws == map[] && from.Apart()
      ensures Moving(from, from.ws, from.Clocks())
    {
    }

    lemma EndsMoving(from: Stream, clocks: map<nat, Timestamps.Clock>)
      requires from.ws == map[] && Moving(from, ws, clocks)
      ensures Clocks() == Rebased(clocks)
    {
      hide Timestamps.Rebase;
    }

    method MoveOne(from: Stream, id: nat, ghost all: map<nat, Writer>, ghost clocks: map<nat, Timestamps.Clock>)
      requires Valid() && published == [] && from != this && from !in cache.Repr() && id in from.ws
      requires Moving(from, all, clocks) && forall id <- all :: all[id] !in cache.Repr()
      modifies `ws, from`ws, from.ws[id]
      ensures Valid() && cache.Repr() == old(cache.Repr()) && published == [] && cache.Abs() == old(cache.Abs())
      ensures Moving(from, all, clocks) && from.ws == old(from.ws) - {id} && ws == old(ws)[id := old(from.ws[id])]
      ensures Players() == old(Players())[id := NewPlayer(old(from.ws[id]).rewrites, 0)]
    {
      hide Valid, Cache.Repr, Players, Cache.Abs, Timestamps.Rebase;
      TakeOne(from, id, from.ws[id]);
    }

    method TakeOne(from: Stream, id: nat, w: Writer)
      requires Valid() && published == [] && from != this && from !in cache.Repr()
      requires w !in Writers() && w !in cache.Repr()
      modifies `ws, from`ws, w
      ensures Valid() && cache.Repr() == old(cache.Repr()) && published == [] && cache.Abs() == old(cache.Abs())
      ensures ws == old(ws)[id := w] && from.ws == old(from.ws) - {id}
      ensures Players() == old(Players())[id := NewPlayer(w.rewrites, 0)]
      ensures w.clock == Timestamps.Rebase(old(w.clock))
    {
      hide Valid, Cache.Repr, Players, Writers, Cache.Abs;
      AddWriter(id, w);
      from.ws := from.ws - {id};
      RebaseClock(w);
    }

    /** The clock has nothing to do with what a player has. */
    method RebaseClock(w: Writer)
      requires Valid() && w !in cache.Repr()
      modifies w`clock
      ensures Valid() && Players() == old(Players()) && cache.Abs() == old(cache.Abs()) &&
              cache.Repr() == old(cache.Repr())
      ensures w.clock == Timestamps.Rebase(old(w.clock))
    {
      hide Served, Cache.Valid, Cache.Abs, Cache.Repr;
      w.clock := Timestamps.Rebase(w.clock);
      assert Players() == old(Players());
    }

    lemma NoPlayers()
      requires ws == map[]
      ensures Players() == AllNew(map[])
    {
    }

    lemma PlayerKeys()
      ensures Players().Keys == ws.Keys && forall id <- ws :: Players()[id].rewrites == ws[id].rewrites
      ensures BrokenIds() <= ws.Keys && BrokenIds() == BrokenIds() * ws.Keys
    {
    }
  }

  ghost function Rebased(clocks: map<nat, Timestamps.Clock>): map<nat, Timestamps.Clock>
  {
    map id | id in clocks :: Timestamps.Rebase(clocks[id])
  }

  ghost function AllNew(ws: map<nat, Writer>): map<nat, Player> { map id | id in ws :: NewPlayer(ws[id].rewrites, 0) }

  lemma OneNew(ws: map<nat, Writer>, id: nat, w: Writer)
    ensures AllNew(ws[id := w]) == AllNew(ws)[id := NewPlayer(w.rewrites, 0)]
  {
  }

  lemma FromPlayers(players: map<nat, Player>, ws: map<nat, Writer>)
    requires players.Keys == ws.Keys && forall id <- ws :: players[id].rewrites == ws[id].rewrites
    ensures AllNew(ws) == StartedOver(players)
  {
  }

  /** The step of a publication, unfolded. */
  lemma Published(h: Hub, p: Packet, broken: set<nat>)
    requires Served(h) && (h.count == 1 || h.count == 2)
    ensures CacheWrite(h.cache, p).Some? && CacheHands(CacheWrite(h.cache, p).value).Some?
    ensures var c := CacheWrite(h.cache, p).value;
            HubStep(h, Publish(p, broken)) ==
            Some(Hub(h.count, c, h.published + [p], AllServed(h.players, broken, p, CacheHands(c).value)))
  {
    hide CacheWrite, CacheHands, CacheSend, CacheIs, AllServed;
    CacheStep(h.cache, h.count, h.published, p);
    CacheShows(CacheWrite(h.cache, p).value, h.count, h.published + [p]);
    HandsShow(CacheWrite(h.cache, p).value);
  }

  lemma StartsOver(w: Writer, n: nat)
    requires !w.init && w.at == n && w.base == |w.sent| && w.queue == [] && w.held == {}
    ensures w.AsPlayer() == NewPlayer(w.rewrites, n)
  {
  }

  /** The table when the writers `left` have still to be served. */
  ghost predicate HalfServed(cur: map<nat, Player>, left: set<nat>, players: map<nat, Player>,
                             broken: set<nat>, p: Packet, hands: seq<Handle>)
  {
    && left <= cur.Keys <= players.Keys
    && (forall id <- cur :: cur[id] == if id in left then players[id] else Serve(players[id], p, hands))
    && (forall id <- players :: id !in left ==> (id in cur <==> Stays(id, players[id], broken, hands)))
  }

  lemma NoneServed(players: map<nat, Player>, broken: set<nat>, p: Packet, hands: seq<Handle>)
    ensures HalfServed(players, players.Keys, players, broken, p, hands)
  {
  }

  lemma OneMore(cur: map<nat, Player>, left: set<nat>, players: map<nat, Player>, broken: set<nat>, p: Packet,
                hands: seq<Handle>, id: nat, now: set<nat>)
    requires HalfServed(cur, left, players, broken, p, hands) && id in left && now == broken * cur.Keys
    ensures id in cur
    ensures var next := if Stays(id, cur[id], now, hands) then cur[id := Serve(cur[id], p, hands)] else cur - {id};
            HalfServed(next, left - {id}, players, broken, p, hands)
  {
    hide Serve;
  }

  lemma HalfIsAll(cur: map<nat, Player>, players: map<nat, Player>, broken: set<nat>, p: Packet,
                  hands: seq<Handle>)
    requires HalfServed(cur, {}, players, broken, p, hands)
    ensures cur == AllServed(players, broken, p, hands)
  {
    hide Serve, Stays;
  }
}
