/**
 * H.264 from length-prefixed NAL units (as FLV carries them) to the byte stream of Annex B
 * (Recommendation H.264, section B.1), with parameter sets put before the first IDR picture.
 */
module AnnexB {
  import opened Bytes
  import opened Buffers

  // ---------- length-prefixed units ----------

  datatype Fault = Fine | TooShort | SizeNotMatch | BodyLenError

  datatype Split = Split(nals: seq<bytes>, fault: Fault)

  /** The units in front of the first fault: every length must be positive and lie within the data. */
  function SplitNals(s: bytes): Split
  {
    if s == [] then Split([], Fine)
    else if |s| < 4 then Split([], SizeNotMatch)
    else
      var n, t := FromBE(s[..4]), s[4..];
      if n == 0 || n > |t| then Split([], BodyLenError)
      else var r := SplitNals(t[n..]); r.(nals := [t[..n]] + r.nals)
  }

  function JoinNals(ns: seq<bytes>): bytes
  {
    if ns == [] then [] else BE(|ns[0]|, 4) + ns[0] + JoinNals(ns[1..])
  }

  /** A unit that a four-byte length can describe. */
  predicate Unit(n: bytes) { 0 < |n| < MOD32 }

  lemma {:induction false} SplitJoin(ns: seq<bytes>)
    requires forall n <- ns :: Unit(n)
    ensures SplitNals(JoinNals(ns)) == Split(ns, Fine)
  {
    hide BE, FromBE;
    if ns != [] {
      var n, more := ns[0], JoinNals(ns[1..]);
      var s := JoinNals(ns);
      assert n in ns;
      Pow256Values();
      BEExact(|n|, 4);
      ConcatAssoc(BE(|n|, 4), n, more);
      assert s[..4] == BE(|n|, 4) && s[4..] == n + more;
      assert (n + more)[..|n|] == n && (n + more)[|n|..] == more;
      SplitJoin(ns[1..]);
    }
  }

  lemma {:induction false} JoinSplit(s: bytes)
    requires SplitNals(s).fault == Fine
    ensures JoinNals(SplitNals(s).nals) == s && forall n <- SplitNals(s).nals :: Unit(n)
  {
    hide BE, FromBE;
    if s != [] {
      var n, t := FromBE(s[..4]), s[4..];
      JoinSplit(t[n..]);
      FromBEInjective(s[..4]);
      FromBEBound(s[..4]);
      Pow256Values();
      var ns := SplitNals(s).nals;
      assert ns[0] == t[..n] && ns[1..] == SplitNals(t[n..]).nals;
      assert t[..n] + t[n..] == t && s[..4] + t == s;
      ConcatAssoc(s[..4], t[..n], t[n..]);
    }
  }

  /** The conversion accepts exactly the data that positive lengths tile. */
  lemma TilesIff(s: bytes)
    ensures SplitNals(s).fault == Fine <==> exists ns: seq<bytes> :: (forall n <- ns :: Unit(n)) && s == JoinNals(ns)
  {
    if SplitNals(s).fault == Fine { JoinSplit(s); }
    forall ns: seq<bytes> | (forall n <- ns :: Unit(n)) && s == JoinNals(ns) ensures SplitNals(s).fault == Fine {
      SplitJoin(ns);
    }
  }

  // ---------- which units go out ----------

  function NalType(n: bytes): nat { if n == [] then 0 else n[0] % 32 }

  /** Slices, IDR slices and supplemental information are forwarded. */
  predicate Forwarded(n: bytes) { NalType(n) in {1, 5, 6} }

  predicate Idr(n: bytes) { NalType(n) == 5 }

  predicate ParamSet(n: bytes) { NalType(n) in {7, 8} }

  function Filter(p: bytes -> bool, ns: seq<bytes>): seq<bytes>
  {
    if ns == [] then [] else (if p(ns[0]) then [ns[0]] else []) + Filter(p, ns[1..])
  }

  function FirstIdr(ns: seq<bytes>): (k: nat)
    ensures k <= |ns|
  {
    if ns == [] || Idr(ns[0]) then 0 else 1 + FirstIdr(ns[1..])
  }

  const AUD: bytes := [0x09, 0xf0]

  /**
   * The access unit: a delimiter, the forwarded units, and before the first IDR the parameter sets
   * of this unit seen so far, or the stored ones if there were none.
   */
  function AccessUnit(ns: seq<bytes>, stored: seq<bytes>): seq<bytes>
  {
    [AUD] + Picked(ns, stored)
  }

  /** The sets put in front of the first IDR: those seen in this unit, if any, and the stored ones otherwise. */
  function SetsFor(ns: seq<bytes>, stored: seq<bytes>): seq<bytes>
  {
    var sets := Filter(ParamSet, ns[..FirstIdr(ns)]);
    if sets == [] then stored else sets
  }

  function Picked(ns: seq<bytes>, stored: seq<bytes>): seq<bytes>
  {
    var k := FirstIdr(ns);
    Filter(Forwarded, ns[..k]) + (if k == |ns| then [] else SetsFor(ns, stored)) + Filter(Forwarded, ns[k..])
  }

  const START: bytes := [0, 0, 0, 1]

  function Coded(ns: seq<bytes>): bytes
  {
    if ns == [] then [] else START + ns[0] + Coded(ns[1..])
  }

  lemma {:induction false} CodedAppend(a: seq<bytes>, b: seq<bytes>)
    ensures Coded(a + b) == Coded(a) + Coded(b)
  {
    if a == [] {
      assert a + b == b;
    } else {
      CodedAppend(a[1..], b);
      assert (a + b)[1..] == a[1..] + b && (a + b)[0] == a[0];
      ConcatAssoc(START + a[0], Coded(a[1..]), Coded(b));
    }
  }

  lemma CodedOne(n: bytes)
    ensures Coded([n]) == START + n
  {
    assert Coded([n][1..]) == [];
  }

  lemma {:induction false} FilterSnoc(p: bytes -> bool, ns: seq<bytes>, n: bytes)
    ensures Filter(p, ns + [n]) == Filter(p, ns) + if p(n) then [n] else []
  {
    if ns == [] {
      assert [] + [n] == [n] && [n][1..] == [];
    } else {
      FilterSnoc(p, ns[1..], n);
      assert (ns + [n])[1..] == ns[1..] + [n];
    }
  }

  lemma {:induction false} FirstIdrSnoc(ns: seq<bytes>, n: bytes)
    ensures FirstIdr(ns + [n]) == if FirstIdr(ns) < |ns| || Idr(n) then FirstIdr(ns) else |ns| + 1
  {
    if ns == [] {
      assert [] + [n] == [n] && [n][1..] == [];
    } else {
      FirstIdrSnoc(ns[1..], n);
      assert (ns + [n])[1..] == ns[1..] + [n];
    }
  }

  /** What goes in front of a unit: the sets, if it is the first IDR. */
  function Front(ns: seq<bytes>, n: bytes, stored: seq<bytes>): seq<bytes>
  {
    if FirstIdr(ns) < |ns| || !Idr(n) then []
    else var sets := Filter(ParamSet, ns); if sets == [] then stored else sets
  }

  function Back(n: bytes): seq<bytes> { if Forwarded(n) then [n] else [] }

  /** One more unit: what it adds to the access unit. */
  lemma PickedSnoc(ns: seq<bytes>, n: bytes, stored: seq<bytes>)
    ensures Picked(ns + [n], stored) == Picked(ns, stored) + Front(ns, n, stored) + Back(n)
  {
    hide Filter, FirstIdr;
    var k := FirstIdr(ns);
    FirstIdrSnoc(ns, n);
    FilterSnoc(Forwarded, ns[k..], n);
    FilterSnoc(Forwarded, ns, n);
    OneFiltered(n);
    if k < |ns| {
      assert (ns + [n])[..k] == ns[..k] && (ns + [n])[k..] == ns[k..] + [n];
    } else {
      assert ns[..k] == ns && ns[k..] == [];
      if Idr(n) {
        assert (ns + [n])[..k] == ns && (ns + [n])[k..] == [n];
      } else {
        assert (ns + [n])[..k + 1] == ns + [n] && (ns + [n])[k + 1..] == [];
      }
    }
  }

  lemma OneFiltered(n: bytes)
    ensures Filter(Forwarded, [n]) == Back(n) && Filter(Forwarded, []) == []
  {
    assert [n][1..] == [];
  }

  // ---------- the byte stream reads back ----------

  /** Three bytes that end a unit in a byte stream: 000000 or 000001. */
  predicate Break(s: bytes) { |s| >= 3 && s[0] == 0 && s[1] == 0 && s[2] <= 1 }

  function NalEnd(s: bytes): (e: nat)
    ensures e <= |s|
  {
    if s == [] || Break(s) then 0 else 1 + NalEnd(s[1..])
  }

  /** Cutting a byte stream at its start codes, as section B.2 does. */
  function SplitStream(s: bytes): seq<bytes>
    decreases |s|
  {
    if |s| < 3 then []
    else if s[..3] == [0, 0, 1] then
      var e := NalEnd(s[3..]);
      [s[3..][..e]] + SplitStream(s[3..][e..])
    else SplitStream(s[1..])
  }

  /** Emulation prevention (section 7.4.1) keeps breaks out of units, and units end in a non-zero byte. */
  predicate Clean(n: bytes)
  {
    n != [] && n[|n| - 1] != 0 && forall i :: 0 <= i < |n| ==> !Break(n[i..])
  }

  /** What can follow a unit in a stream. */
  predicate Follows(t: bytes) { t == [] || START <= t }

  lemma {:induction false} CleanEnds(n: bytes, t: bytes)
    requires n != [] && Follows(t)
    ensures Clean(n) ==> NalEnd(n + t) == |n|
    ensures t != [] && NalEnd(n + t) == |n| ==> Clean(n)
  {
    if |n| == 1 {
      OneEnds(n, t);
    } else {
      CleanEnds(n[1..], t);
      CleanTail(n);
      hide Clean, NalEnd;
      NalStep(n, t);
      BreakFront(n, t);
    }
  }

  lemma NalStep(n: bytes, t: bytes)
    requires n != []
    ensures NalEnd(n + t) == if Break(n + t) then 0 else 1 + NalEnd(n[1..] + t)
  {
    assert (n + t)[1..] == n[1..] + t;
  }

  lemma OneEnds(n: bytes, t: bytes)
    requires |n| == 1 && Follows(t)
    ensures Clean(n) ==> NalEnd(n + t) == 1
    ensures t != [] && NalEnd(n + t) == 1 ==> Clean(n)
  {
    NalStep(n, t);
    assert n[1..] + t == t && n[0..] == n;
    if t != [] { assert t[0] == START[0] && t[1] == START[1] && t[2] == START[2]; }
  }

  /** What follows makes a break only behind a unit that ends in zero. */
  lemma BreakFront(n: bytes, t: bytes)
    requires |n| > 1 && Follows(t)
    ensures Break(n) ==> Break(n + t)
    ensures Break(n + t) && !Break(n) ==> !Clean(n[1..])
  {
    if |n| == 2 {
      assert n[1..][0] == n[1];
    } else {
      assert (n + t)[2] == n[2];
    }
  }

  lemma CleanTail(n: bytes)
    requires |n| > 1
    ensures Clean(n) <==> !Break(n) && Clean(n[1..])
  {
    assert n[0..] == n && n[1..][|n| - 2] == n[|n| - 1];
    forall i | 0 <= i < |n| - 1 ensures n[1..][i..] == n[i + 1..] { }
    if !Break(n) && Clean(n[1..]) {
      forall i | 0 <= i < |n| ensures !Break(n[i..]) {
        if i > 0 { assert n[i..] == n[1..][i - 1..]; }
      }
    }
  }

  lemma CodedFollows(ns: seq<bytes>)
    ensures Follows(Coded(ns)) && (ns != [] ==> Coded(ns) != [])
  {
    if ns != [] { ConcatAssoc(START, ns[0], Coded(ns[1..])); }
  }

  lemma StreamHead(n: bytes, t: bytes)
    ensures var e := NalEnd(n + t);
            SplitStream(START + n + t) == [(n + t)[..e]] + SplitStream((n + t)[e..])
  {
    var s := START + n + t;
    ConcatAssoc(START, n, t);
    assert s[..3] == [0, 0, 0] && s[1..][..3] == [0, 0, 1];
    assert s[1..][3..] == n + t;
  }

  /** Cutting at the start codes gives back the units. */
  lemma {:induction false} StreamReads(ns: seq<bytes>)
    requires forall n <- ns :: Clean(n)
    ensures SplitStream(Coded(ns)) == ns
  {
    if ns != [] {
      var n, t := ns[0], Coded(ns[1..]);
      assert n in ns;
      CodedFollows(ns[1..]);
      CleanEnds(n, t);
      StreamHead(n, t);
      assert (n + t)[..|n|] == n && (n + t)[|n|..] == t;
      StreamReads(ns[1..]);
      assert ns == [n] + ns[1..];
    }
  }

  /** No break anywhere: what the last unit of a stream needs, which may end in zeros. */
  predicate Unbroken(n: bytes) { forall i :: 0 <= i < |n| ==> !Break(n[i..]) }

  /** Every unit with another behind it is empty or clean, and the last one unbroken. */
  predicate Readable(ns: seq<bytes>)
  {
    && (forall i :: 0 <= i < |ns| - 1 ==> ns[i] == [] || Clean(ns[i]))
    && (ns != [] ==> Unbroken(ns[|ns| - 1]))
  }

  lemma {:induction false} LastEnds(n: bytes)
    ensures NalEnd(n) == |n| <==> Unbroken(n)
  {
    if n != [] {
      LastEnds(n[1..]);
      assert n[0..] == n;
      forall i | 0 <= i < |n| - 1 ensures n[1..][i..] == n[i + 1..] { }
      if !Break(n) && Unbroken(n[1..]) {
        forall i | 0 <= i < |n| ensures !Break(n[i..]) {
          if i > 0 { assert n[i..] == n[1..][i - 1..]; }
        }
      }
    }
  }

  lemma ReadableRest(ns: seq<bytes>)
    requires |ns| > 1
    ensures Readable(ns) <==> (ns[0] == [] || Clean(ns[0])) && Readable(ns[1..])
  {
    hide Clean, Unbroken;
    var more := ns[1..];
    if (ns[0] == [] || Clean(ns[0])) && Readable(more) {
      forall i | 0 <= i < |ns| - 1 ensures ns[i] == [] || Clean(ns[i]) {
        if i > 0 { assert ns[i] == more[i - 1]; }
      }
    }
  }

  /** Cutting a coded stream at its start codes gives back its units exactly if they are readable. */
  lemma {:induction false} StreamReadsIff(ns: seq<bytes>)
    ensures SplitStream(Coded(ns)) == ns <==> Readable(ns)
  {
    hide SplitStream, Coded, NalEnd, Clean, Readable, Unbroken;
    if ns == [] {
      NothingCoded();
    } else {
      var n, more := ns[0], ns[1..];
      var t := Coded(more);
      CodedFirst(ns);
      StreamHead(n, t);
      CutIff(n, t, more);
      assert ns == [n] + more;
      if more == [] {
        LastReadable(n);
        NothingCoded();
        LastEnds(n);
        assert n + t == n && ns == [n];
      } else {
        CodedFollows(more);
        StreamReadsIff(more);
        ReadableRest(ns);
        if n == [] { EmptyEnds(t); } else { CleanEnds(n, t); }
      }
    }
  }

  lemma NothingCoded()
    ensures Coded([]) == [] && SplitStream([]) == [] && Readable([])
  {
  }

  lemma LastReadable(n: bytes)
    ensures Readable([n]) <==> Unbroken(n)
  {
  }

  lemma CodedFirst(ns: seq<bytes>)
    requires ns != []
    ensures Coded(ns) == START + ns[0] + Coded(ns[1..])
  {
  }

  lemma EmptyEnds(t: bytes)
    requires Follows(t) && t != []
    ensures NalEnd([] + t) == 0
  {
    assert [] + t == t && t[0] == START[0] && t[1] == START[1] && t[2] == START[2];
  }

  /** The first cut is right exactly if the unit ends where it should. */
  lemma CutIff(n: bytes, t: bytes, more: seq<bytes>)
    ensures var e := NalEnd(n + t);
            [(n + t)[..e]] + SplitStream((n + t)[e..]) == [n] + more <==> e == |n| && SplitStream(t) == more
  {
    hide NalEnd, SplitStream;
    var e := NalEnd(n + t);
    var cut := [(n + t)[..e]] + SplitStream((n + t)[e..]);
    if e == |n| {
      assert (n + t)[..e] == n && (n + t)[e..] == t;
      assert cut[1..] == SplitStream(t) && ([n] + more)[1..] == more;
    } else {
      assert |cut[0]| == e && ([n] + more)[0] == n;
    }
  }

  /** A unit with another behind it survives exactly when it is clean. */
  lemma UnitSurvivesIff(n: bytes, more: seq<bytes>)
    requires n != [] && more != [] && forall m <- more :: Clean(m)
    ensures SplitStream(Coded([n] + more)) == [n] + more <==> Clean(n)
  {
    var t := Coded(more);
    assert ([n] + more)[1..] == more;
    CodedFollows(more);
    CleanEnds(n, t);
    StreamHead(n, t);
    StreamReads(more);
    var e := NalEnd(n + t);
    if e == |n| {
      assert (n + t)[..e] == n && (n + t)[e..] == t;
    } else {
      assert SplitStream(Coded([n] + more))[0] == (n + t)[..e];
      assert |(n + t)[..e]| != |n|;
    }
  }

  lemma {:induction false} FilterOf(p: bytes -> bool, ns: seq<bytes>)
    ensures forall n <- Filter(p, ns) :: n in ns && p(n)
    ensures forall n <- ns :: p(n) ==> n in Filter(p, ns)
  {
    if ns != [] { FilterOf(p, ns[1..]); }
  }

  /**
   * The conversion as a whole: length-prefixed units in, and a decoder that cuts the output at start
   * codes sees the delimiter, the forwarded units in order and, before the first IDR, parameter sets.
   */
  lemma ConvertedReads(ns: seq<bytes>, stored: seq<bytes>)
    requires forall n <- ns :: Unit(n) && (Forwarded(n) || ParamSet(n) ==> Clean(n))
    requires forall n <- stored :: Clean(n)
    ensures SplitStream(Coded(AccessUnit(SplitNals(JoinNals(ns)).nals, stored))) == AccessUnit(ns, stored)
  {
    SplitJoin(ns);
    UnitsFrom(ns, stored);
    hide AccessUnit, Clean;
    forall n | n in AccessUnit(ns, stored) ensures Clean(n) {
      if n == AUD { AudClean(); }
    }
    StreamReads(AccessUnit(ns, stored));
  }

  /** Where the units of an access unit come from. */
  lemma UnitsFrom(ns: seq<bytes>, stored: seq<bytes>)
    ensures forall n <- AccessUnit(ns, stored) ::
              n == AUD || n in stored || (n in ns && (Forwarded(n) || ParamSet(n)))
  {
    var k := FirstIdr(ns);
    FilterOf(Forwarded, ns[..k]);
    FilterOf(ParamSet, ns[..k]);
    FilterOf(Forwarded, ns[k..]);
    hide FirstIdr, Filter, Forwarded, ParamSet;
  }

  /** The units of the given types (Recommendation H.264, Table 7-1), in order. */
  function OfTypes(ts: set<nat>, ns: seq<bytes>): seq<bytes>
  {
    if ns == [] then []
    else (if ns[0] != [] && ns[0][0] % 32 in ts then [ns[0]] else []) + OfTypes(ts, ns[1..])
  }

  lemma {:induction false} OfTypesAppend(ts: set<nat>, a: seq<bytes>, b: seq<bytes>)
    ensures OfTypes(ts, a + b) == OfTypes(ts, a) + OfTypes(ts, b)
  {
    if a == [] {
      assert a + b == b;
    } else {
      OfTypesAppend(ts, a[1..], b);
      assert (a + b)[1..] == a[1..] + b && (a + b)[0] == a[0];
      ConcatAssoc(if a[0] != [] && a[0][0] % 32 in ts then [a[0]] else [], OfTypes(ts, a[1..]), OfTypes(ts, b));
    }
  }

  lemma {:induction false} FilterIsOfTypes(ns: seq<bytes>)
    ensures Filter(Forwarded, ns) == OfTypes({1, 5, 6}, ns) && Filter(ParamSet, ns) == OfTypes({7, 8}, ns)
  {
    if ns != [] { FilterIsOfTypes(ns[1..]); }
  }

  lemma {:induction false} FirstIdrAt(ns: seq<bytes>, k: nat)
    requires k <= |ns| && (forall i :: 0 <= i < k ==> ns[i] == [] || ns[i][0] % 32 != 5)
    requires k < |ns| ==> ns[k] != [] && ns[k][0] % 32 == 5
    ensures FirstIdr(ns) == k
  {
    if k > 0 {
      assert ns[0] == [] || ns[0][0] % 32 != 5;
      FirstIdrAt(ns[1..], k - 1);
    }
  }

  /**
   * The conversion in terms of unit types: the delimiter, then all slices, IDR slices and supplemental
   * information (types 1, 5 and 6) in order, with the parameter sets (7 and 8) that stood before the first
   * IDR slice put in front of it, or the stored ones if there were none, and no sets without an IDR slice.
   */
  lemma UnitTypes(ns: seq<bytes>, stored: seq<bytes>, k: nat)
    requires k <= |ns| && (forall i :: 0 <= i < k ==> ns[i] == [] || ns[i][0] % 32 != 5)
    requires k < |ns| ==> ns[k] != [] && ns[k][0] % 32 == 5
    ensures var before, sets := OfTypes({1, 5, 6}, ns[..k]), OfTypes({7, 8}, ns[..k]);
            var placed := if k == |ns| then [] else if sets == [] then stored else sets;
            && AccessUnit(ns, stored) == [[0x09, 0xf0]] + before + placed + OfTypes({1, 5, 6}, ns[k..])
            && before + OfTypes({1, 5, 6}, ns[k..]) == OfTypes({1, 5, 6}, ns)
  {
    hide OfTypes, Filter, FirstIdr, Picked;
    FirstIdrAt(ns, k);
    PickedAt(ns, stored);
    FilterIsOfTypes(ns[..k]);
    FilterIsOfTypes(ns[k..]);
    OfTypesAppend({1, 5, 6}, ns[..k], ns[k..]);
    assert ns[..k] + ns[k..] == ns;
    var sets := OfTypes({7, 8}, ns[..k]);
    var placed := if k == |ns| then [] else if sets == [] then stored else sets;
    Delimited(OfTypes({1, 5, 6}, ns[..k]), placed, OfTypes({1, 5, 6}, ns[k..]));
  }

  lemma PickedAt(ns: seq<bytes>, stored: seq<bytes>)
    ensures var k := FirstIdr(ns);
            var sets := Filter(ParamSet, ns[..k]);
            var placed := if k == |ns| then [] else if sets == [] then stored else sets;
            Picked(ns, stored) == Filter(Forwarded, ns[..k]) + placed + Filter(Forwarded, ns[k..])
  {
    hide Filter, FirstIdr;
  }

  lemma Delimited(a: seq<bytes>, b: seq<bytes>, c: seq<bytes>)
    ensures [AUD] + (a + b + c) == [[0x09, 0xf0]] + a + b + c
  {
  }

  /** From length-prefixed data to what a decoder of the output sees, in terms of unit types. */
  lemma TypesRead(ns: seq<bytes>, stored: seq<bytes>, k: nat)
    requires forall n <- ns :: 0 < |n| < MOD32 && (n[0] % 32 in {1, 5, 6, 7, 8} ==> Clean(n))
    requires forall n <- stored :: Clean(n)
    requires k <= |ns| && (forall i :: 0 <= i < k ==> ns[i] == [] || ns[i][0] % 32 != 5)
    requires k < |ns| ==> ns[k] != [] && ns[k][0] % 32 == 5
    ensures var sets := OfTypes({7, 8}, ns[..k]);
            var placed := if k == |ns| then [] else if sets == [] then stored else sets;
            && SplitStream(Coded(AccessUnit(SplitNals(JoinNals(ns)).nals, stored))) ==
               [[0x09, 0xf0]] + OfTypes({1, 5, 6}, ns[..k]) + placed + OfTypes({1, 5, 6}, ns[k..])
            && OfTypes({1, 5, 6}, ns[..k]) + OfTypes({1, 5, 6}, ns[k..]) == OfTypes({1, 5, 6}, ns)
  {
    hide OfTypes, SplitStream, Coded, AccessUnit, SplitNals, JoinNals, Clean;
    forall n | n in ns ensures Forwarded(n) || ParamSet(n) ==> Clean(n) { }
    ConvertedReads(ns, stored);
    SplitJoin(ns);
    UnitTypes(ns, stored, k);
  }

  lemma AudClean()
    ensures Clean(AUD)
  {
  }

  predicate Sps(n: bytes) { NalType(n) == 7 }

  predicate Pps(n: bytes) { NalType(n) == 8 }

  predicate HasBoth(sets: seq<bytes>) { (exists n <- sets :: Sps(n)) && exists n <- sets :: Pps(n) }

  /** Where the first IDR of the data goes. */
  function IdrPlace(ns: seq<bytes>, stored: seq<bytes>): nat
  {
    1 + |Filter(Forwarded, ns[..FirstIdr(ns)])| + |SetsFor(ns, stored)|
  }

  /**
   * A decoder has a sequence and a picture parameter set in front of the first IDR picture exactly
   * when the sets of this unit seen before it have both kinds, or there are none and the stored ones
   * have both: sets of one kind only suppress the stored ones.
   */
  lemma BothSetsIff(ns: seq<bytes>, stored: seq<bytes>)
    requires FirstIdr(ns) < |ns|
    ensures var a, k := AccessUnit(ns, stored), IdrPlace(ns, stored);
            && k < |a| && a[k] == ns[FirstIdr(ns)] && Idr(a[k]) && (forall n <- a[..k] :: Idr(n) ==> n in stored)
            && (HasBoth(a[..k]) <==> HasBoth(SetsFor(ns, stored)))
  {
    hide Filter, FirstIdr, Idr, AccessUnit, HasBoth, Forwarded, IdrPlace;
    var front, sets := Filter(Forwarded, ns[..FirstIdr(ns)]), SetsFor(ns, stored);
    UnitAtIdr(ns, stored);
    FilterOf(Forwarded, ns[..FirstIdr(ns)]);
    BothInFront(front, sets);
    NoIdrInFront(ns, stored);
  }

  lemma UnitAtIdr(ns: seq<bytes>, stored: seq<bytes>)
    requires FirstIdr(ns) < |ns|
    ensures var a, k := AccessUnit(ns, stored), IdrPlace(ns, stored);
            && k < |a| && a[k] == ns[FirstIdr(ns)] && Idr(a[k])
            && a[..k] == [AUD] + Filter(Forwarded, ns[..FirstIdr(ns)]) + SetsFor(ns, stored)
  {
    var f := FirstIdr(ns);
    var front, sets, back := Filter(Forwarded, ns[..f]), SetsFor(ns, stored), Filter(Forwarded, ns[f..]);
    IdrHere(ns);
    PickedParts(ns, stored);
    UnitParts(front, sets, back);
    hide Filter, FirstIdr, Idr, Forwarded, ParamSet, Picked, SetsFor;
  }

  lemma PickedParts(ns: seq<bytes>, stored: seq<bytes>)
    requires FirstIdr(ns) < |ns|
    ensures var f := FirstIdr(ns);
            Picked(ns, stored) == Filter(Forwarded, ns[..f]) + SetsFor(ns, stored) + Filter(Forwarded, ns[f..])
  {
    hide Filter, FirstIdr;
  }

  lemma NoIdrInFront(ns: seq<bytes>, stored: seq<bytes>)
    ensures forall n <- [AUD] + Filter(Forwarded, ns[..FirstIdr(ns)]) + SetsFor(ns, stored) :: Idr(n) ==> n in stored
  {
    NoIdrBefore(ns);
    FilterOf(Forwarded, ns[..FirstIdr(ns)]);
    FilterOf(ParamSet, ns[..FirstIdr(ns)]);
    hide Filter, FirstIdr;
  }

  lemma UnitParts(front: seq<bytes>, sets: seq<bytes>, back: seq<bytes>)
    requires back != []
    ensures var a, k := [AUD] + (front + sets + back), 1 + |front| + |sets|;
            k < |a| && a[k] == back[0] && a[..k] == [AUD] + front + sets
  {
  }

  /** Only parameter sets count: neither the delimiter nor a forwarded unit is one. */
  lemma BothInFront(front: seq<bytes>, sets: seq<bytes>)
    requires forall n <- front :: Forwarded(n)
    ensures HasBoth([AUD] + front + sets) <==> HasBoth(sets)
  {
    var all := [AUD] + front + sets;
    forall n | n in sets ensures n in all { }
    forall n | n in all && (Sps(n) || Pps(n)) ensures n in sets { }
  }

  lemma {:induction false} IdrHere(ns: seq<bytes>)
    requires FirstIdr(ns) < |ns|
    ensures Idr(ns[FirstIdr(ns)]) && Filter(Forwarded, ns[FirstIdr(ns)..]) != []
    ensures Filter(Forwarded, ns[FirstIdr(ns)..])[0] == ns[FirstIdr(ns)]
  {
    var k := FirstIdr(ns);
    if !Idr(ns[0]) {
      IdrHere(ns[1..]);
      assert ns[1..][k - 1..] == ns[k..];
    } else {
      assert ns[0..] == ns;
    }
  }

  lemma {:induction false} NoIdrBefore(ns: seq<bytes>)
    ensures forall n <- ns[..FirstIdr(ns)] :: !Idr(n)
  {
    if ns != [] && !Idr(ns[0]) {
      NoIdrBefore(ns[1..]);
      var k := FirstIdr(ns);
      assert ns[..k] == [ns[0]] + ns[1..][..k - 1];
    }
  }

  // ---------- the decoder configuration ----------

  datatype Config = Bad | Sets(sps: bytes, pps: bytes)

  /** The first SPS, and everything behind the first PPS length, of a configuration record. */
  function ReadConfig(src: bytes): Config
  {
    if |src| < 9 then Bad
    else
      var n := FromBE(src[6..8]);
      if n == 0 || |src| - 8 < n then Bad
      else
        var tmp := src[8 + n..];
        if |tmp| < 4 then Bad
        else
          var m := FromBE(tmp[1..3]);
          if m == 0 || |tmp| - 3 < m then Bad else Sets(src[8..8 + n], tmp[3..])
  }

  /** A record with one SPS, a count, one PPS and whatever follows it (ISO/IEC 14496-15, section 5.2.4.1). */
  function Record(head: bytes, sps: bytes, count: u8, pps: bytes, more: bytes): bytes
    requires |head| == 6 && |sps| < 0x1_0000 && |pps| < 0x1_0000
  {
    head + BE(|sps|, 2) + sps + [count] + BE(|pps|, 2) + pps + more
  }

  /** The sets are read exactly when nothing follows the first PPS: the rest is taken for part of it. */
  lemma ConfigIff(head: bytes, sps: bytes, count: u8, pps: bytes, more: bytes)
    requires |head| == 6 && 0 < |sps| < 0x1_0000 && 0 < |pps| < 0x1_0000
    ensures ReadConfig(Record(head, sps, count, pps, more)) == Sets(sps, pps + more)
    ensures ReadConfig(Record(head, sps, count, pps, more)) == Sets(sps, pps) <==> more == []
  {
    hide BE, FromBE;
    var r := Record(head, sps, count, pps, more);
    Pow256Values();
    BEExact(|sps|, 2);
    BEExact(|pps|, 2);
    assert r[6..8] == BE(|sps|, 2);
    assert r[8..8 + |sps|] == sps;
    var tmp := r[8 + |sps|..];
    assert tmp == [count] + BE(|pps|, 2) + pps + more;
    assert tmp[1..3] == BE(|pps|, 2);
    assert tmp[3..] == pps + more;
    assert |pps + more| == |pps| + |more|;
    if pps + more == pps { assert |more| == 0; }
  }

  /** What a run of sequence headers leaves stored: the sets of every good one, one behind the other. */
  function StoredAfter(srcs: seq<bytes>): seq<bytes>
  {
    if srcs == [] then []
    else
      StoredAfter(srcs[..|srcs| - 1]) +
      match ReadConfig(srcs[|srcs| - 1]) case Bad => [] case Sets(sps, pps) => [sps, pps]
  }

  /** Only the latest header's sets are stored exactly when every header before it was bad. */
  lemma LatestStoredIff(srcs: seq<bytes>, src: bytes)
    requires ReadConfig(src).Sets?
    ensures StoredAfter(srcs + [src]) == [ReadConfig(src).sps, ReadConfig(src).pps] <==>
            forall s <- srcs :: ReadConfig(s).Bad?
  {
    hide ReadConfig;
    assert (srcs + [src])[..|srcs|] == srcs;
    NothingStoredIff(srcs);
    if StoredAfter(srcs) != [] {
      assert |StoredAfter(srcs + [src])| > 2;
    } else {
      assert [] + [ReadConfig(src).sps, ReadConfig(src).pps] == [ReadConfig(src).sps, ReadConfig(src).pps];
    }
  }

  lemma {:induction false} NothingStoredIff(srcs: seq<bytes>)
    ensures StoredAfter(srcs) == [] <==> forall s <- srcs :: ReadConfig(s).Bad?
  {
    hide ReadConfig;
    if srcs != [] {
      var k := |srcs| - 1;
      NothingStoredIff(srcs[..k]);
      assert srcs == srcs[..k] + [srcs[k]];
      assert forall s :: s in srcs <==> s in srcs[..k] || s == srcs[k];
      if ReadConfig(srcs[k]).Sets? { assert |StoredAfter(srcs)| >= 2; }
    }
  }

  // ---------- the parser ----------

  class Parser {
    var specificInfo: bytes
    ghost var stored: seq<bytes>
    const pps: Buffer

    ghost predicate Valid()
      reads this
    {
      specificInfo == Coded(stored)
    }

    constructor ()
      ensures Valid() && stored == [] && fresh(pps)
    {
      specificInfo, stored := [], [];
      pps := new Buffer();
    }

    /** A sequence header adds its sets to the stored ones; a bad one changes nothing. */
    method ParseSpecificInfo(src: bytes) returns (ok: bool)
      requires Valid()
      modifies this
      ensures Valid() && ok == ReadConfig(src).Sets?
      ensures stored == old(stored) + if ok then [ReadConfig(src).sps, ReadConfig(src).pps] else []
    {
      hide FromBE;
      ok := false;
      if |src| < 9 { return; }
      var spsLen := FromBE(src[6..8]);
      if |src[8..]| < spsLen || spsLen == 0 { return; }
      var sps := src[8..8 + spsLen];
      var tmp := src[8 + spsLen..];
      if |tmp| < 4 { return; }
      var ppsLen := FromBE(tmp[1..3]);
      if |tmp[3..]| < ppsLen || ppsLen == 0 { return; }
      CodedAppend(stored, [sps, tmp[3..]]);
      TwoCoded(sps, tmp[3..]);
      ConcatAssoc(specificInfo, START + sps, START + tmp[3..]);
      specificInfo := specificInfo + (START + sps);
      specificInfo := specificInfo + (START + tmp[3..]);
      stored := stored + [sps, tmp[3..]];
      ok := true;
    }

    predicate IsNaluHeader(src: bytes) { |src| >= 4 && src[..4] == START }

    /** One unit: the sets in front of the first IDR, the unit itself, or a set put aside. */
    method WriteUnit(nal: bytes, hasSpsPps: bool, hasWriteSpsPps: bool, w: Buffer, ghost done: seq<bytes>)
      returns (hasSets: bool, hasWritten: bool)
      requires Valid() && w != pps && nal != [] && pps.content == Coded(Filter(ParamSet, done))
      requires hasSpsPps <==> Filter(ParamSet, done) != []
      requires hasWriteSpsPps <==> FirstIdr(done) < |done|
      modifies w, pps
      ensures w.content == old(w.content) + Coded(Front(done, nal, stored)) + Coded(Back(nal))
      ensures pps.content == old(pps.content) + if ParamSet(nal) then START + nal else []
      ensures hasSets == (hasSpsPps || ParamSet(nal)) && hasWritten == (hasWriteSpsPps || Idr(nal))
    {
      hide Coded, Filter, FirstIdr;
      hasSets, hasWritten := hasSpsPps, hasWriteSpsPps;
      CodedOne(nal);
      NothingPicked(stored);
      var nalType := nal[0] % 32;
      if nalType == 5 && !hasWritten {
        hasWritten := true;
        w.Write(if hasSets then pps.content else specificInfo);
      }
      if nalType == 5 || nalType == 1 || nalType == 6 {
        w.Write(START + nal);
      } else if nalType == 7 || nalType == 8 {
        hasSets := true;
        pps.Write(START + nal);
      }
    }

    /**
     * One pass over the units. Less than a length writes nothing; a fault inside leaves the units in
     * front of it written.
     */
    method GetAnnexbH264(src: bytes, w: Buffer) returns (fault: Fault)
      requires Valid() && w != pps
      modifies w, pps
      ensures fault == if |src| < 4 then TooShort else SplitNals(src).fault
      ensures w.content == old(w.content) + if |src| < 4 then [] else Coded(AccessUnit(SplitNals(src).nals, stored))
    {
      hide FromBE, Coded, AccessUnit, Filter, FirstIdr, Front, Back;
      var dataSize := |src|;
      if dataSize < 4 { return TooShort; }
      pps.Reset();
      w.Write(START + AUD);
      CodedOne(AUD);
      var index, hasSpsPps, hasWriteSpsPps := 0, false, false;
      ghost var done: seq<bytes> := [];
      NothingPicked(stored);
      assert src[0..] == src;
      assert done + SplitNals(src).nals == SplitNals(src).nals;
      while dataSize > 0
        invariant 0 <= index <= |src| && dataSize == |src| - index
        invariant SplitNals(src) == SplitNals(src[index..]).(nals := done + SplitNals(src[index..]).nals)
        invariant w.content == old(w.content) + Coded(AccessUnit(done, stored))
        invariant pps.content == Coded(Filter(ParamSet, done))
        invariant hasSpsPps <==> Filter(ParamSet, done) != []
        invariant hasWriteSpsPps <==> FirstIdr(done) < |done|
      {
        var s := src[index..];
        if dataSize < 4 {
          assert done + [] == done;
          return SizeNotMatch;
        }
        var nalLen := FromBE(s[..4]);
        index := index + 4;
        dataSize := dataSize - 4;
        if nalLen == 0 || nalLen > dataSize {
          assert done + [] == done;
          return BodyLenError;
        }
        var nal := src[index..index + nalLen];
        assert s[4..] == src[index..];
        assert s[4..][..nalLen] == nal && s[4..][nalLen..] == src[index + nalLen..];
        ConcatAssoc(done, [nal], SplitNals(src[index + nalLen..]).nals);
        SetsSnoc(done, nal);
        FirstIdrSnoc(done, nal);
        AccessSnoc(done, nal, stored);
        hasSpsPps, hasWriteSpsPps := WriteUnit(nal, hasSpsPps, hasWriteSpsPps, w, done);
        ConcatAssoc(old(w.content), Coded(AccessUnit(done, stored)), Coded(Front(done, nal, stored)));
        ConcatAssoc(old(w.content), Coded(AccessUnit(done, stored)) + Coded(Front(done, nal, stored)),
            Coded(Back(nal)));
        done := done + [nal];
        index := index + nalLen;
        dataSize := dataSize - nalLen;
      }
      assert src[index..] == [] && done + [] == done;
      return Fine;
    }

    /**
     * Sequence headers are stored, byte streams pass, everything else is converted; what was converted
     * in front of a fault has been written.
     */
    method Parse(b: bytes, isSeq: bool, w: Buffer) returns (ok: bool)
      requires Valid() && w != pps
      modifies this, w, pps
      ensures Valid()
      ensures isSeq ==> ok == ReadConfig(b).Sets? && w.content == old(w.content)
      ensures isSeq ==> stored == old(stored) + if ok then [ReadConfig(b).sps, ReadConfig(b).pps] else []
      ensures !isSeq ==> stored == old(stored)
      ensures !isSeq && IsNaluHeader(b) ==> ok && w.content == old(w.content) + b
      ensures !isSeq && !IsNaluHeader(b) ==> ok == (|b| >= 4 && SplitNals(b).fault == Fine)
      ensures !isSeq && !IsNaluHeader(b) ==>
                w.content == old(w.content) + if |b| < 4 then [] else Coded(AccessUnit(SplitNals(b).nals, stored))
    {
      hide Coded, SplitNals, AccessUnit, ReadConfig;
      ok := true;
      if isSeq {
        ok := ParseSpecificInfo(b);
      } else if IsNaluHeader(b) {
        w.Write(b);
      } else {
        var fault := GetAnnexbH264(b, w);
        ok := fault == Fine;
      }
    }
  }

  lemma NothingPicked(stored: seq<bytes>)
    ensures Filter(Forwarded, []) == []
    ensures AccessUnit([], stored) == [AUD] && Filter(ParamSet, []) == [] && Coded([]) == [] && FirstIdr([]) == 0
  {
  }

  lemma TwoCoded(a: bytes, b: bytes)
    ensures Coded([a, b]) == START + a + (START + b)
  {
    CodedAppend([a], [b]);
    CodedOne(a);
    CodedOne(b);
    assert [a] + [b] == [a, b];
  }

  /** What one more unit appends to the output, in bytes. */
  lemma AccessSnoc(ns: seq<bytes>, n: bytes, stored: seq<bytes>)
    ensures Coded(AccessUnit(ns + [n], stored)) ==
            Coded(AccessUnit(ns, stored)) + Coded(Front(ns, n, stored)) + Coded(Back(n))
  {
    hide Picked, Front, Back, Coded;
    PickedSnoc(ns, n, stored);
    assert AccessUnit(ns + [n], stored) == AccessUnit(ns, stored) + Front(ns, n, stored) + Back(n);
    CodedAppend(AccessUnit(ns, stored) + Front(ns, n, stored), Back(n));
    CodedAppend(AccessUnit(ns, stored), Front(ns, n, stored));
  }

  lemma SetsSnoc(ns: seq<bytes>, n: bytes)
    ensures Coded(Filter(ParamSet, ns + [n])) == Coded(Filter(ParamSet, ns)) + if ParamSet(n) then START + n else []
    ensures Filter(ParamSet, ns + [n]) == [] <==> Filter(ParamSet, ns) == [] && !ParamSet(n)
  {
    hide Coded, Filter;
    FilterSnoc(ParamSet, ns, n);
    CodedAppend(Filter(ParamSet, ns), [n]);
    CodedOne(n);
    assert Filter(ParamSet, ns) + [] == Filter(ParamSet, ns);
  }

  /** Length-prefixed data is taken for a byte stream exactly when its first unit is one byte long. */
  lemma MistakenIff(ns: seq<bytes>, p: Parser)
    requires ns != [] && forall n <- ns :: Unit(n)
    ensures p.IsNaluHeader(JoinNals(ns)) <==> |ns[0]| == 1
  {
    hide BE;
    var s := JoinNals(ns);
    ConcatAssoc(BE(|ns[0]|, 4), ns[0], JoinNals(ns[1..]));
    assert s[..4] == BE(|ns[0]|, 4);
    Pow256Values();
    assert ns[0] in ns;
    BEExact(|ns[0]|, 4);
    BEExact(1, 4);
    OneBE();
  }

  lemma OneBE()
    ensures BE(1, 4) == START
  {
    assert BE(0, 3) == [0, 0, 0] by { assert BE(0, 2) == [0, 0] by { assert BE(0, 1) == [0]; } }
  }
}
