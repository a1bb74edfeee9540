/** What a player gets, and which players are there, told from the fields of the packets published. */
module LatePlayer {
  import opened Bytes
  import opened Options
  import opened Av
  import opened GopSpec
  import opened StoreSpec
  import opened Fanout

  // ---------- kinds of packets ----------

  datatype Kind = AnyMetadata | AvcHeader | AacHeader | Picture

  /**
   * Command data is metadata; a video tag of frame type 1 with AVC packet type 0 is a sequence header, and so is
   * an AAC tag (sound format 10) of packet type 0; every other video tag is a picture, and so is what has no tag
   * header and is no video.
   */
  predicate Is(k: Kind, p: Packet)
  {
    match k
    case AnyMetadata => p.isMetadata
    case AvcHeader =>
      && !p.isMetadata && p.isVideo && p.header.Parsed?
      && p.header.tag.frameType == 1 && p.header.tag.avcPacketType == 0
    case AacHeader =>
      && !p.isMetadata && !p.isVideo && p.header.Parsed?
      && p.header.tag.soundFormat == 10 && p.header.tag.aacPacketType == 0
    case Picture =>
      && !p.isMetadata
      && if p.isVideo then p.header.Parsed? && !(p.header.tag.frameType == 1 && p.header.tag.avcPacketType == 0)
         else p.header.NoHeader?
  }

  /** A picture from which decoding can start. */
  predicate KeyPicture(p: Packet)
  {
    p.isVideo && p.header.Parsed? && p.header.tag.frameType == 1 && p.header.tag.avcPacketType != 0
  }

  function OfKind(k: Kind, ps: seq<Packet>): seq<Packet>
    decreases |ps|
  {
    if ps == [] then [] else OfKind(k, ps[..|ps| - 1]) + if Is(k, ps[|ps| - 1]) then [ps[|ps| - 1]] else []
  }

  /** The newest packet of a kind, if there is any. */
  predicate IsNewest(o: seq<Packet>, k: Kind, ps: seq<Packet>)
  {
    if o == [] then forall i :: 0 <= i < |ps| ==> !Is(k, ps[i])
    else
      && |o| == 1
      && exists i :: 0 <= i < |ps| && o[0] == ps[i] && LastOf(k, ps, i)
  }

  predicate LastOf(k: Kind, ps: seq<Packet>, i: nat)
    requires i < |ps|
  {
    Is(k, ps[i]) && forall j :: i < j < |ps| ==> !Is(k, ps[j])
  }

  function PlaceOf(k: Kind): Place
  {
    match k case AnyMetadata => Metadata case AvcHeader => VideoSeq case AacHeader => AudioSeq case Picture => Pictures
  }

  lemma RouteIs(k: Kind, p: Packet)
    ensures Is(k, p) <==> Route(p) == PlaceOf(k)
  {
  }

  lemma {:induction false} RoutedIs(k: Kind, ps: seq<Packet>)
    ensures Routed(PlaceOf(k), ps) == OfKind(k, ps)
    decreases |ps|
  {
    hide Is, Route;
    if ps != [] {
      RoutedIs(k, ps[..|ps| - 1]);
      RouteIs(k, ps[|ps| - 1]);
    }
  }

  lemma NewestGrows(o: seq<Packet>, k: Kind, ps: seq<Packet>, p: Packet)
    requires IsNewest(o, k, ps)
    ensures IsNewest(if Is(k, p) then [p] else o, k, ps + [p])
  {
    hide Is;
    var more := ps + [p];
    if Is(k, p) {
      assert LastOf(k, more, |ps|);
    } else if o != [] {
      var i :| 0 <= i < |ps| && o[0] == ps[i] && LastOf(k, ps, i);
      assert o[0] == more[i] && LastOf(k, more, i);
    }
  }

  lemma {:induction false} NewestIs(k: Kind, ps: seq<Packet>)
    ensures IsNewest(Last(1, OfKind(k, ps)), k, ps)
    decreases |ps|
  {
    hide Is, IsNewest;
    if ps == [] {
      NoneNewest(k);
    } else {
      var n := |ps| - 1;
      NewestIs(k, ps[..n]);
      NewestGrows(Last(1, OfKind(k, ps[..n])), k, ps[..n], ps[n]);
      assert ps[..n] + [ps[n]] == ps;
      LastMore(OfKind(k, ps[..n]), ps[n]);
    }
  }

  lemma NoneNewest(k: Kind)
    ensures IsNewest([], k, [])
  {
  }

  lemma LastMore(s: seq<Packet>, p: Packet)
    ensures Last(1, s + [p]) == [p] && Last(1, s + []) == Last(1, s)
  {
    assert s + [] == s;
  }

  // ---------- groups of pictures ----------

  /** From a key picture up to the next. */
  predicate FromKey(g: seq<Packet>)
  {
    g != [] && KeyPicture(g[0]) && forall i :: 1 <= i < |g| ==> !KeyPicture(g[i])
  }

  /** The last groups, up to count of them: what they leave out has a key picture only if they are that many. */
  predicate LastGroups(gs: seq<seq<Packet>>, count: nat, ps: seq<Packet>)
  {
    && |gs| <= count && (forall i :: 0 <= i < |gs| ==> FromKey(gs[i]))
    && |Flatten(gs)| <= |ps| && ps[|ps| - |Flatten(gs)|..] == Flatten(gs)
    && (|gs| < count ==> forall i :: 0 <= i < |ps| - |Flatten(gs)| ==> !KeyPicture(ps[i]))
  }

  /** Of each group no more than the first 1024 pictures. */
  function Shortened(gs: seq<seq<Packet>>): (r: seq<seq<Packet>>)
    ensures |r| == |gs|
  {
    seq(|gs|, i requires 0 <= i < |gs| => if |gs[i]| > 1024 then gs[i][..1024] else gs[i])
  }

  lemma ShortenedIs(gs: seq<seq<Packet>>)
    ensures CutAll(gs) == Shortened(gs)
  {
    forall i | 0 <= i < |gs| ensures CutAll(gs)[i] == Shortened(gs)[i] { }
  }

  lemma {:induction false} NoKeys(ps: seq<Packet>)
    ensures Keys(ps) == 0 <==> forall i :: 0 <= i < |ps| ==> !KeyPicture(ps[i])
  {
    if ps != [] {
      NoKeys(ps[1..]);
      if forall i :: 0 <= i < |ps| ==> !KeyPicture(ps[i]) {
        assert forall i :: 0 <= i < |ps| - 1 ==> ps[1..][i] == ps[i + 1];
      } else {
        var i :| 0 <= i < |ps| && KeyPicture(ps[i]);
        if i > 0 { assert KeyPicture(ps[1..][i - 1]); }
      }
    }
  }

  lemma OneGopIs(g: seq<Packet>)
    requires OneGop(g)
    ensures FromKey(g)
  {
    NoKeys(g[1..]);
    forall i | 1 <= i < |g| ensures !KeyPicture(g[i]) {
      assert g[i] == g[1..][i - 1];
    }
  }

  lemma {:induction false} GopsCount(ps: seq<Packet>)
    ensures |Gops(ps)| == Keys(ps)
    decreases |ps|
  {
    if ps != [] {
      var k := |ps| - 1;
      GopsCount(ps[..k]);
      assert ps == ps[..k] + [ps[k]];
      KeysAppend(ps[..k], [ps[k]]);
      KeysOne(ps[k]);
    }
  }

  lemma CachedGroups(count: nat, ps: seq<Packet>)
    requires count > 0
    ensures LastGroups(Cached(count, ps), count, OfKind(Picture, ps))
  {
    hide Gops, Flatten, Keys, OneGop, FromKey, KeyPicture, Routed, OfKind;
    RoutedIs(Picture, ps);
    var xs := OfKind(Picture, ps);
    var gs, cached := Gops(xs), Last(count, Gops(xs));
    GopsCount(xs);
    GopsTile(xs);
    var front := gs[..|gs| - |cached|];
    assert gs == front + cached;
    FlattenAppend(front, cached);
    SuffixOfSuffix(Flatten(front), Flatten(cached), xs);
    forall i | 0 <= i < |cached| ensures FromKey(cached[i]) {
      assert cached[i] in gs;
      OneGopIs(cached[i]);
    }
    if |gs| < count {
      FrontHasNone(gs, xs);
      assert cached == gs;
    }
  }

  lemma FrontHasNone(gs: seq<seq<Packet>>, xs: seq<Packet>)
    requires gs == Gops(xs)
    ensures IsSuffix(Flatten(gs), xs) && forall i :: 0 <= i < |xs| - |Flatten(gs)| ==> !KeyPicture(xs[i])
  {
    hide Gops, Flatten, Keys, OneGop, KeyPicture;
    GopsTile(xs);
    GopsCount(xs);
    FlatKeys(gs);
    var before := Front(Flatten(gs), xs);
    KeysAppend(before, Flatten(gs));
    NoKeys(before);
    forall i | 0 <= i < |xs| - |Flatten(gs)| ensures !KeyPicture(xs[i]) {
      assert before[i] == xs[i];
    }
  }

  // ---------- what a player gets ----------

  /**
   * In this order: the newest metadata, the newest AVC sequence header and the newest AAC one, as far as any was
   * published, and the last groups of pictures, each cut to its first 1024.
   */
  ghost predicate Start(got: seq<Packet>, count: nat, ps: seq<Packet>)
  {
    exists metadata, video, audio, gs ::
      && IsNewest(metadata, AnyMetadata, ps) && IsNewest(video, AvcHeader, ps) && IsNewest(audio, AacHeader, ps)
      && LastGroups(gs, count, OfKind(Picture, ps))
      && got == metadata + video + audio + Flatten(Shortened(gs))
  }

  lemma SnapshotStarts(count: nat, ps: seq<Packet>)
    requires count > 0
    ensures Start(Snapshot(count, ps), count, ps)
  {
    hide IsNewest, LastGroups, OfKind, Routed, Gops, CutAll, Shortened;
    RoutedIs(AnyMetadata, ps);
    RoutedIs(AvcHeader, ps);
    RoutedIs(AacHeader, ps);
    NewestIs(AnyMetadata, ps);
    NewestIs(AvcHeader, ps);
    NewestIs(AacHeader, ps);
    CachedGroups(count, ps);
    ShortenedIs(Cached(count, ps));
  }

  /**
   * A player gets nothing before the first packet published behind its attachment, then what the cache holds
   * with that packet in it, and after that every packet as it is published.
   */
  lemma PlayerGets(h: Hub, id: nat)
    requires Served(h) && h.count > 0 && id in h.players
    ensures var w, ps := h.players[id], h.published;
            && w.at <= |ps| && Fetchable(w.queue, |h.cache.store|)
            && var got := Received(w, h.cache.store);
               if w.at == |ps| then got == []
               else
                 exists n :: 0 <= n <= |got| && Start(got[..n], h.count, ps[..w.at + 1]) && got[n..] == ps[w.at + 1..]
  {
    hide Start, Snapshot;
    var w, ps := h.players[id], h.published;
    if w.at < |ps| {
      var s, live, got := Snapshot(h.count, ps[..w.at + 1]), ps[w.at + 1..], Received(w, h.cache.store);
      SnapshotStarts(h.count, ps[..w.at + 1]);
      assert got == s + live;
      assert got[..|s|] == s && got[|s|..] == live;
    }
  }

  // ---------- which players there are ----------

  /**
   * Players come by attaching and go by detaching, or when a publisher's packet finds their connection broken and
   * there is something to write: to a player already served always, to a new one if the cache shows anything. A
   * new publisher takes all of them over, as new ones.
   */
  lemma PlayersIff(h: Hub, e: Event, id: nat)
    requires HubStep(h, e).Some?
    ensures var there, now := id in h.players, id in HubStep(h, e).value.players;
            match e
            case Attach(a, _) => now <==> there || a == id
            case Detach(a) => now <==> there && a != id
            case Publish(p, broken) =>
              now <==>
              there && (id !in broken || (!h.players[id].init && CacheSend(CacheWrite(h.cache, p).value) == Some([])))
            case Takeover => now <==> there
            case Send(_) => now <==> there
            case Rewrite(_, _, _) => now <==> there
  {
    hide CacheWrite, CacheSend, CacheHands, Serve;
    match e {
      case Publish(p, broken) =>
        var c := CacheWrite(h.cache, p).value;
        HandsShow(c);
      case _ =>
    }
  }

  /** Publishing adds to what was published, a new publisher begins with nothing, and nothing else counts. */
  lemma PublishedLaw(h: Hub, e: Event)
    requires HubStep(h, e).Some?
    ensures HubStep(h, e).value.published ==
            match e case Publish(p, _) => h.published + [p] case Takeover => [] case _ => h.published
  {
    hide CacheWrite, CacheHands, AllServed, StartedOver;
  }

  /**
   * A player stays attached where it attached, what it has sent it has sent, and its own thread sends the first of
   * what waits; it is as new when it attaches, and under a new publisher.
   */
  lemma PlayerKept(h: Hub, e: Event, id: nat)
    requires HubStep(h, e).Some? && id in HubStep(h, e).value.players
    ensures var w := HubStep(h, e).value.players[id];
            if e.Takeover? || (e.Attach? && e.id == id) then
              && w.sent == [] && w.queue == [] && !w.init && w.held == {}
              && w.at == if e.Takeover? then 0 else |h.published|
            else
              && id in h.players && h.players[id].sent <= w.sent && w.at == h.players[id].at
              && (e == Send(id) && h.players[id].queue != [] && Fetchable(h.players[id].queue, |h.cache.store|) ==>
                  w.sent == h.players[id].sent + [Fetch(h.cache.store, h.players[id].queue)[0]])
  {
    hide CacheWrite, CacheHands, Stays, Fetch, Places;
  }
}
