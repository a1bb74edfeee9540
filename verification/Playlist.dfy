/** The playlist: the last segments by file name, where a name only tells the second it was made in. */
module Playlist {
  import opened Bytes

  datatype TsItem = TsItem(name: nat, seqNum: nat, duration: int, data: bytes)

  const KEPT: nat := 3

  /** The names in order, and what is stored under each. */
  datatype Listing = Listing(ll: seq<nat>, lm: map<nat, TsItem>)

  const EMPTY: Listing := Listing([], map[])

  /** A full list drops its oldest name, with whatever is stored under it by now. */
  function Put(p: Listing, it: TsItem): Listing
  {
    var q := if |p.ll| == KEPT then Listing(p.ll[1..], p.lm - {p.ll[0]}) else p;
    Listing(q.ll + [it.name], q.lm[it.name := it])
  }

  function Listed(all: seq<TsItem>): Listing
  {
    if all == [] then EMPTY else Put(Listed(all[..|all| - 1]), all[|all| - 1])
  }

  lemma ListedSnoc(all: seq<TsItem>, it: TsItem)
    ensures Listed(all + [it]) == Put(Listed(all), it)
  {
    assert (all + [it])[..|all|] == all;
  }

  function Found(k: nat, lm: map<nat, TsItem>): seq<TsItem> { if k in lm then [lm[k]] else [] }

  /** What the playlist shows: names with nothing under them are passed over. */
  function Shown(ll: seq<nat>, lm: map<nat, TsItem>): seq<TsItem>
  {
    if ll == [] then [] else Shown(ll[..|ll| - 1], lm) + Found(ll[|ll| - 1], lm)
  }

  function ShownOf(p: Listing): seq<TsItem> { Shown(p.ll, p.lm) }

  function Names(all: seq<TsItem>): (r: seq<nat>)
    ensures |r| == |all| && forall i :: 0 <= i < |all| ==> r[i] == all[i].name
  {
    seq(|all|, i requires 0 <= i < |all| => all[i].name)
  }

  // ---------- when the last three are shown ----------

  /** The listed names are always those of the last three. */
  lemma {:induction false} NamesListed(all: seq<TsItem>)
    ensures Listed(all).ll == Names(Last(KEPT, all))
    decreases |all|
  {
    if all != [] {
      var k := |all| - 1;
      NamesListed(all[..k]);
      assert Last(KEPT, all) == (if k >= KEPT then Last(KEPT, all[..k])[1..] else Last(KEPT, all[..k])) + [all[k]];
    }
  }

  /** Names at most two apart differ. */
  predicate Spread(all: seq<TsItem>)
  {
    forall i, j :: 0 <= i < j < |all| && j <= i + 2 ==> all[i].name != all[j].name
  }

  /** Then each of the last three is stored under its own name. */
  lemma {:induction false} StoredUnder(all: seq<TsItem>)
    requires Spread(all)
    ensures forall i | 0 <= i < |all| && |all| <= i + KEPT ::
              all[i].name in Listed(all).lm && Listed(all).lm[all[i].name] == all[i]
    decreases |all|
  {
    if all != [] {
      var k := |all| - 1;
      var front := all[..k];
      SpreadPrefix(all, k);
      StoredUnder(front);
      NamesListed(front);
      assert k >= KEPT ==> Listed(front).ll[0] == all[k - KEPT].name;
      LastPut(all);
      hide Listed, Spread, Put;
      forall i | 0 <= i < |all| && |all| <= i + KEPT
        ensures all[i].name in Listed(all).lm && Listed(all).lm[all[i].name] == all[i]
      {
        if i < k {
          assert front[i] == all[i];
          TwoApart(all, i, k);
          if k >= KEPT { TwoApart(all, k - KEPT, i); }
          StillStored(Listed(front), all[i], all[k]);
        }
      }
    }
  }

  lemma StillStored(p: Listing, x: TsItem, it: TsItem)
    requires x.name in p.lm && p.lm[x.name] == x && x.name != it.name && (|p.ll| == KEPT ==> p.ll[0] != x.name)
    ensures var q := Put(p, it); x.name in q.lm && q.lm[x.name] == x
  {
  }

  lemma TwoApart(all: seq<TsItem>, i: nat, j: nat)
    requires Spread(all) && i < j < |all| && j <= i + 2
    ensures all[i].name != all[j].name
  {
  }

  lemma LastPut(all: seq<TsItem>)
    requires all != []
    ensures Listed(all) == Put(Listed(all[..|all| - 1]), all[|all| - 1])
    ensures var it := all[|all| - 1]; it.name in Listed(all).lm && Listed(all).lm[it.name] == it
  {
  }

  lemma SpreadPrefix(all: seq<TsItem>, k: nat)
    requires Spread(all) && k <= |all|
    ensures Spread(all[..k])
  {
  }

  /** Items that are stored under their names are shown. */
  lemma {:induction false} ShowsStored(items: seq<TsItem>, lm: map<nat, TsItem>)
    requires forall i :: 0 <= i < |items| ==> items[i].name in lm && lm[items[i].name] == items[i]
    ensures Shown(Names(items), lm) == items
    decreases |items|
  {
    if items != [] {
      var k := |items| - 1;
      assert items[k].name in lm && lm[items[k].name] == items[k];
      ShowsStored(items[..k], lm);
      ShownSnoc(Names(items[..k]), items[k].name, lm);
      hide Shown;
      assert Names(items) == Names(items[..k]) + [items[k].name];
      assert items == items[..k] + [items[k]];
    }
  }

  lemma ShownSnoc(ll: seq<nat>, name: nat, lm: map<nat, TsItem>)
    ensures Shown(ll + [name], lm) == Shown(ll, lm) + Found(name, lm)
  {
    assert (ll + [name])[..|ll|] == ll;
  }

  /** What is shown whole is what is stored under each name. */
  lemma {:induction false} ShownWhole(ll: seq<nat>, lm: map<nat, TsItem>)
    ensures |Shown(ll, lm)| <= |ll|
    ensures |Shown(ll, lm)| == |ll| ==> forall i :: 0 <= i < |ll| ==> ll[i] in lm && Shown(ll, lm)[i] == lm[ll[i]]
    decreases |ll|
  {
    if ll != [] { ShownWhole(ll[..|ll| - 1], lm); }
  }

  predicate Distinct(all: seq<TsItem>) { forall i, j :: 0 <= i < j < |all| ==> all[i] != all[j] }

  predicate ShowsLast(all: seq<TsItem>) { ShownOf(Listed(all)) == Last(3, all) }

  predicate AlwaysShowsLast(all: seq<TsItem>) { forall k :: 0 <= k <= |all| ==> ShowsLast(all[..k]) }

  lemma ShowsSpread(all: seq<TsItem>)
    requires Spread(all)
    ensures ShowsLast(all)
  {
    hide Listed;
    StoredUnder(all);
    NamesListed(all);
    var n := |all| - |Last(KEPT, all)|;
    assert forall i :: 0 <= i < |Last(KEPT, all)| ==> Last(KEPT, all)[i] == all[n + i];
    ShowsStored(Last(KEPT, all), Listed(all).lm);
  }

  /** Two items at most two apart under one name: while both are listed, one is shown in place of the other. */
  lemma ClashShows(all: seq<TsItem>, i: nat)
    requires Distinct(all) && i + 1 < |all| <= i + KEPT && all[i].name == all[|all| - 1].name
    ensures !ShowsLast(all)
  {
    hide Listed;
    NamesListed(all);
    var p, last := Listed(all), Last(KEPT, all);
    ShownWhole(p.ll, p.lm);
    var a := i - (|all| - |last|);
    assert last[a] == all[i] && last[|last| - 1] == all[|all| - 1];
    assert p.ll[a] == p.ll[|last| - 1];
  }

  /**
   * The playlist shows the last three segments, in order, at all times, if and only if no two segments
   * at most two apart are made in the same second.
   */
  lemma ShowsLastIff(all: seq<TsItem>)
    requires Distinct(all)
    ensures AlwaysShowsLast(all) <==> Spread(all)
  {
    hide ShowsLast;
    if Spread(all) {
      forall k | 0 <= k <= |all| ensures ShowsLast(all[..k]) {
        SpreadPrefix(all, k);
        ShowsSpread(all[..k]);
      }
    } else {
      var i, j :| 0 <= i < j < |all| && j <= i + 2 && all[i].name == all[j].name;
      assert Distinct(all[..j + 1]);
      ClashShows(all[..j + 1], i);
    }
  }

  // ---------- the playlist's text ----------

  datatype Line = Line(duration: int, name: nat)

  /** Target duration in seconds, media sequence number, and a line for each segment. */
  datatype M3u8 = M3u8(target: nat, sequence: nat, lines: seq<Line>)

  function Longest(items: seq<TsItem>): nat
  {
    if items == [] then 0
    else
      var m, d := Longest(items[..|items| - 1]), items[|items| - 1].duration;
      if d > m then d else m
  }

  function Lines(items: seq<TsItem>): seq<Line>
  {
    if items == [] then []
    else Lines(items[..|items| - 1]) + [Line(items[|items| - 1].duration, items[|items| - 1].name)]
  }

  function Text(items: seq<TsItem>): M3u8
  {
    M3u8(Longest(items) / 1000 + 1, if items == [] then 0 else items[0].seqNum, Lines(items))
  }

  /** Every segment is shorter than the target duration (RFC 8216, section 4.3.3.1), which is not a second too long. */
  lemma {:induction false} TargetHolds(items: seq<TsItem>)
    ensures forall it <- items :: it.duration < Text(items).target * 1000
    ensures Text(items).target > 1 ==> exists it <- items :: (Text(items).target - 1) * 1000 <= it.duration
    decreases |items|
  {
    LongestIs(items);
  }

  lemma {:induction false} LongestIs(items: seq<TsItem>)
    ensures forall it <- items :: it.duration <= Longest(items)
    ensures Longest(items) > 0 ==> exists it <- items :: it.duration == Longest(items)
    decreases |items|
  {
    if items != [] {
      var k := |items| - 1;
      LongestIs(items[..k]);
      assert items == items[..k] + [items[k]];
      assert items[k] in items && forall it <- items[..k] :: it in items;
    }
  }

  /** One line for each segment, in order, with its own duration and name. */
  lemma {:induction false} LinesAre(items: seq<TsItem>)
    ensures |Text(items).lines| == |items|
    ensures forall i :: 0 <= i < |items| ==> Text(items).lines[i] == Line(items[i].duration, items[i].name)
    decreases |items|
  {
    if items != [] { LinesAre(items[..|items| - 1]); }
  }

  /**
   * With names spread out, the media sequence number counts the segments that have left (RFC 8216, section
   * 4.3.3.2).
   */
  lemma SequenceCounts(all: seq<TsItem>)
    requires Spread(all) && all != [] && forall i :: 0 <= i < |all| ==> all[i].seqNum == i + 1
    ensures Text(ShownOf(Listed(all))).sequence == 1 + if |all| <= 3 then 0 else |all| - 3
  {
    hide Listed, Shown;
    ShowsSpread(all);
  }

  // ---------- the cache at work ----------

  class TsCacheItem {
    var ll: seq<nat>
    var lm: map<nat, TsItem>

    function Abs(): Listing
      reads this
    {
      Listing(ll, lm)
    }

    constructor ()
      ensures Abs() == EMPTY
    {
      ll, lm := [], map[];
    }

    method SetItem(it: TsItem)
      modifies this
      ensures Abs() == Put(old(Abs()), it)
    {
      if |ll| == KEPT {
        var k := ll[0];
        ll := ll[1..];
        lm := lm - {k};
      }
      lm := lm[it.name := it];
      ll := ll + [it.name];
    }

    method GenM3U8PlayList() returns (text: M3u8)
      ensures text == Text(ShownOf(Abs()))
    {
      var sequence, getSeq, maxDuration: nat, body := 0, false, 0, [];
      hide Longest, Lines;
      ghost var shown: seq<TsItem> := [];
      NoLines();
      for i := 0 to |ll|
        invariant shown == Shown(ll[..i], lm) && maxDuration == Longest(shown) && body == Lines(shown)
        invariant getSeq == (shown != []) && sequence == if shown == [] then 0 else shown[0].seqNum
      {
        assert ll[..i + 1][..i] == ll[..i];
        assert shown + [] == shown;
        if ll[i] in lm {
          var v := lm[ll[i]];
          if v.duration > maxDuration { maxDuration := v.duration; }
          if !getSeq {
            getSeq := true;
            sequence := v.seqNum;
          }
          body := body + [Line(v.duration, v.name)];
          OneMore(shown, v);
          shown := shown + [v];
        }
      }
      assert ll[..|ll|] == ll;
      text := M3u8(maxDuration / 1000 + 1, sequence, body);
    }
  }

  lemma NoLines()
    ensures Longest([]) == 0 && Lines([]) == []
  {
  }

  lemma OneMore(items: seq<TsItem>, v: TsItem)
    ensures Longest(items + [v]) == if v.duration > Longest(items) then v.duration else Longest(items)
    ensures Lines(items + [v]) == Lines(items) + [Line(v.duration, v.name)]
  {
    assert (items + [v])[..|items|] == items;
  }
}
