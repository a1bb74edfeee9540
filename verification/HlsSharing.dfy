/** The HLS writer among the players of a stream: it rewrites the cached pictures it is handed. */
module HlsSharing {
  import opened Bytes
  import opened Options
  import opened Av
  import opened GopSpec
  import opened StoreSpec
  import opened Fanout
  import opened Sharing
  import AnnexB
  import HlsSource

  /** One picture of one unit, as FLV carries it. */
  function Picture(key: bool, timestamp: u32): Packet
  {
    var kind := if key then 1 else 2;
    Packet(false, true, false, timestamp, 1, Parsed(Tag(0, 0, kind, VIDEO_H264, 1, 0)),
           [kind * 16 + VIDEO_H264, 1, 0, 0, 0] + [0, 0, 0, 2] + [if key then 0x65 else 0x41, 0x88])
  }

  lemma PictureParses(c: HlsSource.Codec, key: bool, timestamp: u32)
    ensures HlsSource.Parse(c, Picture(key, timestamp)).1.Got?
  {
    hide AnnexB.AccessUnit, AnnexB.Coded;
    var p := Picture(key, timestamp);
    assert p.data[2..5] == [0, 0, 0];
    ZeroBE();
    var body := p.data[5..];
    var unit: bytes := [if key then 0x65 else 0x41, 0x88];
    assert body == [0, 0, 0, 2] + unit;
    OneUnit(unit);
  }

  lemma OneUnit(unit: bytes)
    requires |unit| == 2
    ensures AnnexB.SplitNals([0, 0, 0, 2] + unit).fault == AnnexB.Fine
  {
    var s: bytes := [0, 0, 0, 2] + unit;
    ZeroBE();
    assert [0, 0, 0, 2][..3] == [0, 0, 0];
    assert FromBE([0, 0, 0, 2]) == 2;
    assert s[..4] == [0, 0, 0, 2] && s[4..] == unit && unit[2..] == [];
    assert AnnexB.SplitNals([]).fault == AnnexB.Fine;
  }

  /** A publisher's first packet is a key frame, and the HLS writer is served with it. */
  function AfterFirst(p: Packet): (h: Option<Hub>)
  {
    HubRun(NewHub(1), [Attach(1, true), Publish(p, {})])
  }

  /** The ring behind the key frame, and behind the next picture. */
  const FIRST: Ring<nat> := Ring(true, 1, 1, 0, [Some([0])])
  const SECOND: Ring<nat> := Ring(true, 1, 1, 0, [Some([0, 1])])

  lemma FirstServed(p: Packet)
    requires p.IsKey() && Route(p) == Pictures
    ensures var h := AfterFirst(p);
            && h.Some? && Served(h.value) && h.value.count == 1 && h.value.published == [p]
            && 1 in h.value.players && 0 in h.value.players[1].held
            && h.value.cache.ring == FIRST && h.value.cache.store == [p]
  {
    hide CacheIs, Served, CacheWrite, CacheHands, NewCache, Places, Route;
    var h0 := NewHub(1);
    HubFresh(1);
    StepIff(h0, Attach(1, true));
    var h1 := HubStep(h0, Attach(1, true)).value;
    StepIff(h1, Publish(p, {}));
    TwoSteps(h0, Attach(1, true), Publish(p, {}));
    FirstCache(p);
    assert [] + [p] == [p];
  }

  lemma FirstCache(p: Packet)
    requires p.IsKey() && Route(p) == Pictures
    ensures var c := CacheWrite(NewCache(1), p);
            && c.Some? && c.value.ring == FIRST && c.value.store == [p]
            && CacheHands(c.value).Some? && 0 in Places(CacheHands(c.value).value)
  {
    hide Route;
    FirstRing();
    assert [] + [p] == [p];
    PlacesShared(Copies(CacheWrite(NewCache(1), p).value), RingSend(FIRST).value);
    assert RingSend(FIRST).value[0] == 0;
  }

  lemma KeyPicture()
    ensures Picture(true, 0).IsKey() && Route(Picture(true, 0)) == Pictures
    ensures !Picture(false, 40).IsKey() && Route(Picture(false, 40)) == Pictures
  {
  }

  lemma FirstRing()
    ensures RingWrite(NewRing(1), 0, true) == Some(FIRST)
    ensures RingSend(FIRST) == Some([0])
    ensures RingWrite(FIRST, 1, false) == Some(SECOND)
    ensures InRing(FIRST, 0) && InRing(SECOND, 0)
  {
    var one: seq<nat> := [0];
    assert NewRing<nat>(1).slots[0 := Some(one)] == FIRST.slots;
    SendsSlots(FIRST);
    assert Push(one, 1) == SECOND.slots[0].value;
    assert FIRST.slots[0 := Some(Push(one, 1))] == SECOND.slots;
    assert SECOND.slots[0].value[0] == 0 && FIRST.slots[0].value[0] == 0;
  }

  lemma TwoSteps(h: Hub, a: Event, b: Event)
    ensures HubRun(h, [a, b]) == match HubStep(h, a) case None => None case Some(h1) => HubStep(h1, b)
  {
    hide HubStep;
    assert [a, b][..1] == [a] && [a][..0] == [];
    assert HubRun(h, [a]) == HubStep(h, a);
  }

  /**
   * The writer converts that key frame in place; a player that attaches behind it, in the same group,
   * is sent a key frame that nobody published, whatever the writer's parser had seen before.
   */
  lemma SecondPlayerSpoilt(c: HlsSource.Codec)
    ensures HlsSource.Parse(c, Picture(true, 0)).1.Got?
    ensures var key, other := Picture(true, 0), Picture(false, 40);
            var q := HlsSource.Rewritten(c, key);
            && AfterFirst(key).Some?
            && var t := HubRun(AfterFirst(key).value, [Rewrite(1, 0, q), Attach(2, false), Publish(other, {})]);
               && t.Some? && t.value.published == [key, other] && 2 in t.value.players
               && var w, store := t.value.players[2], t.value.cache.store;
                  && q !in t.value.published && Fetchable(w.queue, |store|) && q in Received(w, store)
                  && Received(w, store) != Expected(1, t.value.published, 1)
  {
    hide HlsSource.Parse, HlsSource.Rewritten, Picture, HubStep, Served, Expected, AfterFirst;
    var key, other := Picture(true, 0), Picture(false, 40);
    PictureParses(c, true, 0);
    PictureParses(c, false, 40);
    VideoPictures();
    var q := HlsSource.Rewritten(c, key);
    HlsSource.RewrittenIsForeign(c, key, c, key);
    HlsSource.RewrittenIsForeign(c, key, c, other);
    KeyPicture();
    FirstServed(key);
    var h := AfterFirst(key).value;
    FirstRing();
    NextPlayerIff(h, Rewrite(1, 0, q), 2, false, other);
    LastRing(h, q, other);
  }

  lemma VideoPictures()
    ensures Picture(true, 0).isVideo && Picture(false, 40).isVideo
  {
  }

  lemma LastRing(h: Hub, q: Packet, other: Packet)
    requires Served(h) && h.count == 1 && other == Picture(false, 40) && 1 in h.players && 0 in h.players[1].held
    requires h.cache.ring == FIRST && |h.cache.store| == 1
    ensures var t := HubRun(h, [Rewrite(1, 0, q), Attach(2, false), Publish(other, {})]);
            t.Some? ==> t.value.published == h.published + [other] && InRing(t.value.cache.ring, 0)
  {
    hide CacheHands, CacheWrite, Picture, Served, InRing;
    ThreeSteps(h, Rewrite(1, 0, q), Attach(2, false), Publish(other, {}));
    NextCache(Changed(h.cache, 0, q), other);
  }

  lemma NextCache(c: CacheState, other: Packet)
    requires c.ring == FIRST && |c.store| == 1 && other == Picture(false, 40)
    ensures CacheWrite(c, other).Some? && InRing(CacheWrite(c, other).value.ring, 0)
  {
    hide Picture, InRing;
    KeyPicture();
    FirstRing();
  }
}
