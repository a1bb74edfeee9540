/**
 * What every AMF 0 marker reads as, whoever wrote it: section 2 of the AMF 0 specification from the reader's
 * side, with values nested to any depth, and the bytes the encoder writes, spelled out.
 */
module Amf0Markers {
  import opened Bytes
  import opened Options
  import opened Amf0Spec
  import opened Amf0Theorems

  /** In front of anything, the bytes read as the value and nothing else is taken. */
  ghost predicate ReadsAs(b: bytes, v: Value)
  {
    forall rest: bytes | rest != [] :: Decode(b + rest) == Step(Some(v), rest)
  }

  // ---------- markers without structure ----------

  lemma NullReads(m: u8)
    requires m in {0x05, 0x06, 0x0d}
    ensures ReadsAs([m], Null)
  {
    forall rest: bytes | rest != [] ensures Decode([m] + rest) == Step(Some(Null), rest) { Marked(m, rest); }
  }

  lemma NumberReads(bits: bytes)
    requires |bits| == 8
    ensures ReadsAs([0x00] + bits, Number(bits))
  {
    forall rest: bytes | rest != [] ensures Decode([0x00] + bits + rest) == Step(Some(Number(bits)), rest) {
      assert [0x00] + bits + rest == [0x00] + (bits + rest);
      Marked(0x00, bits + rest);
      FullReads(bits, rest);
    }
  }

  lemma BooleanReads(b: u8)
    ensures b <= 1 ==> ReadsAs([0x01, b], Boolean(b == 1))
    ensures b > 1 ==> forall rest :: Decode([0x01, b] + rest) == Step(None, rest)
  {
    forall rest: bytes
      ensures Decode([0x01, b] + rest) == Step(if b <= 1 then Some(Boolean(b == 1)) else None, rest)
    {
      assert [0x01, b] + rest == [0x01] + ([b] + rest);
      Marked(0x01, [b] + rest);
      MarkerReads(b, rest);
    }
  }

  /** A date is its number; the time zone is read and dropped, whatever it is. */
  lemma DateReads(bits: bytes, zone: bytes)
    requires |bits| == 8 && |zone| == 2
    ensures ReadsAs([0x0b] + bits + zone, Number(bits))
  {
    forall rest: bytes | rest != [] ensures Decode([0x0b] + bits + zone + rest) == Step(Some(Number(bits)), rest) {
      assert [0x0b] + bits + zone + rest == [0x0b] + (bits + (zone + rest));
      Marked(0x0b, bits + (zone + rest));
      FullReads(bits, zone + rest);
      FullReads(zone, rest);
    }
  }

  /** Strings have their length in two bytes, long strings and XML documents in four. */
  lemma TextReads(m: u8, s: bytes)
    requires m in {0x02, 0x0c, 0x0f} && |s| < if m == 0x02 then 0x1_0000 else 0x1_0000_0000
    ensures ReadsAs([m] + BE(|s|, if m == 0x02 then 2 else 4) + s, Str(s))
  {
    hide BE, FromBE;
    var w := if m == 0x02 then 2 else 4;
    Pow256Values();
    forall rest: bytes | rest != [] ensures Decode([m] + BE(|s|, w) + s + rest) == Step(Some(Str(s)), rest) {
      assert [m] + BE(|s|, w) + s + rest == [m] + (BE(|s|, w) + s + rest);
      Marked(m, BE(|s|, w) + s + rest);
      StringReads(s, w, rest);
    }
  }

  /** Movie clips, references, the end marker, record sets and everything unknown are refused. */
  lemma RefusedIff(m: u8)
    ensures (forall t: bytes :: Decode([m] + t) == Step(None, t))
            <==> m !in {0x00, 0x01, 0x02, 0x03, 0x05, 0x06, 0x08, 0x0a, 0x0b, 0x0c, 0x0d, 0x0f, 0x10}
  {
    if m in {0x00, 0x01, 0x02, 0x03, 0x05, 0x06, 0x08, 0x0a, 0x0b, 0x0c, 0x0d, 0x0f, 0x10} {
      AcceptedOnce(m);
    } else {
      forall t: bytes ensures Decode([m] + t) == Step(None, t) { Marked(m, t); }
    }
  }

  // ---------- values within values ----------

  /** A property as a writer sent it: its name, the bytes of its value, and the value they read as. */
  datatype Piece = Piece(key: bytes, b: bytes, v: Value)

  ghost predicate PieceOk(p: Piece) { 1 <= |p.key| < 0x1_0000 && ReadsAs(p.b, p.v) }

  function PieceBytes(ps: seq<Piece>): bytes
  {
    if ps == [] then [] else BE(|ps[0].key|, 2) + ps[0].key + ps[0].b + PieceBytes(ps[1..])
  }

  /** Later properties take the place of earlier ones of the same name. */
  function PieceMap(ps: seq<Piece>, m: map<bytes, Value>): map<bytes, Value>
  {
    if ps == [] then m else PieceMap(ps[1..], m[ps[0].key := ps[0].v])
  }

  lemma EndReads(m: map<bytes, Value>, rest: bytes)
    ensures DecodeProps([0, 0, 9] + rest, m) == Step(Some(m), rest)
  {
    DecodeEncodeProps([], m, rest);
    assert EncodeProps([]) + ([0, 0, 9] + rest) == [0, 0, 9] + rest;
  }

  lemma {:induction false} PiecesRead(ps: seq<Piece>, m: map<bytes, Value>, rest: bytes)
    requires forall p <- ps :: PieceOk(p)
    ensures DecodeProps(PieceBytes(ps) + ([0, 0, 9] + rest), m) == Step(Some(PieceMap(ps, m)), rest)
    decreases |ps|
  {
    var end := [0, 0, 9] + rest;
    if ps == [] {
      assert PieceBytes(ps) + end == end;
      EndReads(m, rest);
    } else {
      var p, more := ps[0], PieceBytes(ps[1..]) + end;
      assert PieceOk(p);
      assert PieceBytes(ps) + end == BE(|p.key|, 2) + p.key + (p.b + more);
      PiecesRead(ps[1..], m[p.key := p.v], rest);
      OneProp(p, more, m);
    }
  }

  lemma OneProp(p: Piece, more: bytes, m: map<bytes, Value>)
    requires PieceOk(p) && more != []
    ensures DecodeProps(BE(|p.key|, 2) + p.key + (p.b + more), m) == DecodeProps(more, m[p.key := p.v])
  {
    hide Decode, BE;
    Pow256Values();
    StringReads(p.key, 2, p.b + more);
    assert Decode(p.b + more) == Step(Some(p.v), more);
  }

  lemma ObjectReads(ps: seq<Piece>)
    requires forall p <- ps :: PieceOk(p)
    ensures ReadsAs([0x03] + PieceBytes(ps) + [0, 0, 9], Object(PieceMap(ps, map[])))
  {
    forall rest: bytes | rest != []
      ensures Decode([0x03] + PieceBytes(ps) + [0, 0, 9] + rest) == Step(Some(Object(PieceMap(ps, map[]))), rest)
    {
      var t := PieceBytes(ps) + ([0, 0, 9] + rest);
      assert [0x03] + PieceBytes(ps) + [0, 0, 9] + rest == [0x03] + t;
      Marked(0x03, t);
      PiecesRead(ps, map[], rest);
    }
  }

  /** An ECMA array reads as the object of its properties, whatever count stands in front of them. */
  lemma EcmaArrayReads(n: u32, ps: seq<Piece>)
    requires forall p <- ps :: PieceOk(p)
    ensures ReadsAs([0x08] + BE(n, 4) + PieceBytes(ps) + [0, 0, 9], Object(PieceMap(ps, map[])))
  {
    hide BE, PieceBytes, PieceMap;
    forall rest: bytes | rest != []
      ensures Decode([0x08] + BE(n, 4) + PieceBytes(ps) + [0, 0, 9] + rest) ==
              Step(Some(Object(PieceMap(ps, map[]))), rest)
    {
      var t := PieceBytes(ps) + ([0, 0, 9] + rest);
      assert [0x08] + BE(n, 4) + PieceBytes(ps) + [0, 0, 9] + rest == [0x08] + (BE(n, 4) + t);
      Marked(0x08, BE(n, 4) + t);
      FullReads(BE(n, 4), t);
      PiecesRead(ps, map[], rest);
    }
  }

  /** A typed object keeps its class name. */
  lemma TypedReads(name: bytes, ps: seq<Piece>)
    requires |name| < 0x1_0000 && forall p <- ps :: PieceOk(p)
    ensures ReadsAs([0x10] + BE(|name|, 2) + name + PieceBytes(ps) + [0, 0, 9], Typed(name, PieceMap(ps, map[])))
  {
    hide BE, PieceBytes, PieceMap, Decode;
    forall rest: bytes | rest != []
      ensures Decode([0x10] + BE(|name|, 2) + name + PieceBytes(ps) + [0, 0, 9] + rest) ==
              Step(Some(Typed(name, PieceMap(ps, map[]))), rest)
    {
      FourParts(0x10, BE(|name|, 2), name, PieceBytes(ps), [0, 0, 9], rest);
      PiecesRead(ps, map[], rest);
      TypedBody(name, PieceBytes(ps) + ([0, 0, 9] + rest));
    }
  }

  lemma FourParts(m: u8, a: bytes, b: bytes, c: bytes, d: bytes, rest: bytes)
    ensures [m] + a + b + c + d + rest == [m] + (a + b + (c + (d + rest)))
  {
  }

  lemma TypedBody(name: bytes, t: bytes)
    requires |name| < 0x1_0000 && t != []
    ensures var r := DecodeProps(t, map[]);
            Decode([0x10] + (BE(|name|, 2) + name + t)) ==
            Step(if r.v.Some? then Some(Typed(name, r.v.value)) else None, r.rest)
  {
    hide BE, DecodeProps, DecodeString, Decode;
    Pow256Values();
    var s := BE(|name|, 2) + name + t;
    Marked(0x10, s);
    StringReads(name, 2, t);
    assert name + t != [];
    TypedMarker(s);
  }

  lemma TypedMarker(s: bytes)
    ensures var n := DecodeString(s, 2);
            DecodeBody(0x10, s) ==
            if n.v.None? then Step(None, n.rest)
            else
              var r := DecodeProps(n.rest, map[]);
              Step(if r.v.Some? then Some(Typed(n.v.value, r.v.value)) else None, r.rest)
  {
    hide DecodeProps, DecodeString;
  }

  function ElemBytes(ps: seq<Piece>): bytes { if ps == [] then [] else ps[0].b + ElemBytes(ps[1..]) }

  function ElemValues(ps: seq<Piece>): (vs: seq<Value>)
    ensures |vs| == |ps|
  {
    if ps == [] then [] else [ps[0].v] + ElemValues(ps[1..])
  }

  lemma {:induction false} ElemsRead(ps: seq<Piece>, rest: bytes)
    requires rest != [] && forall p <- ps :: ReadsAs(p.b, p.v)
    ensures DecodeElems(ElemBytes(ps) + rest, |ps|) == Step(Some(ElemValues(ps)), rest)
    decreases |ps|
  {
    hide Decode;
    if ps == [] {
      assert ElemBytes(ps) + rest == rest;
    } else {
      var more := ElemBytes(ps[1..]) + rest;
      assert ReadsAs(ps[0].b, ps[0].v);
      ConcatAssoc(ps[0].b, ElemBytes(ps[1..]), rest);
      ElemsRead(ps[1..], rest);
    }
  }

  /** A strict array reads as exactly as many values as it declares. */
  lemma StrictArrayReads(ps: seq<Piece>)
    requires |ps| < 0x1_0000_0000 && forall p <- ps :: ReadsAs(p.b, p.v)
    ensures ReadsAs([0x0a] + BE(|ps|, 4) + ElemBytes(ps), Array(ElemValues(ps)))
  {
    hide BE, ElemBytes, ElemValues, Decode;
    forall rest: bytes | rest != []
      ensures Decode([0x0a] + BE(|ps|, 4) + ElemBytes(ps) + rest) == Step(Some(Array(ElemValues(ps))), rest)
    {
      TwoParts(0x0a, BE(|ps|, 4), ElemBytes(ps), rest);
      ArrayAll(|ps|, ElemBytes(ps) + rest);
      ElemsRead(ps, rest);
    }
  }

  lemma TwoParts(m: u8, a: bytes, b: bytes, rest: bytes)
    ensures [m] + a + b + rest == [m] + (a + (b + rest))
  {
  }

  lemma ArrayAll(n: nat, t: bytes)
    requires n < 0x1_0000_0000
    ensures Decode([0x0a] + (BE(n, 4) + t)) == Wrap(DecodeElems(t, n), es => Array(es))
  {
    Marked(0x0a, BE(n, 4) + t);
    hide DecodeBody, BE, DecodeElems;
    ArrayBody(n, t);
  }

  /** Every accepted marker has an input it accepts. */
  lemma AcceptedOnce(m: u8)
    requires m in {0x00, 0x01, 0x02, 0x03, 0x05, 0x06, 0x08, 0x0a, 0x0b, 0x0c, 0x0d, 0x0f, 0x10}
    ensures exists t: bytes :: Decode([m] + t) != Step(None, t)
  {
    var b: bytes, v := Sample(m);
    assert b[0] == m && ReadsAs(b, v);
    var t := b[1..] + [0];
    assert b + [0] == [m] + t;
    assert Decode(b + [0]) == Step(Some(v), [0]);
  }

  lemma Sample(m: u8) returns (b: bytes, v: Value)
    requires m in {0x00, 0x01, 0x02, 0x03, 0x05, 0x06, 0x08, 0x0a, 0x0b, 0x0c, 0x0d, 0x0f, 0x10}
    ensures b != [] && b[0] == m && ReadsAs(b, v)
  {
    hide ReadsAs, BE;
    var eight: bytes := [0, 0, 0, 0, 0, 0, 0, 0];
    if m == 0x00 {
      NumberReads(eight);
      b, v := [0x00] + eight, Number(eight);
    } else if m == 0x01 {
      BooleanReads(0);
      b, v := [0x01, 0], Boolean(false);
    } else if m in {0x02, 0x0c, 0x0f} {
      TextReads(m, []);
      b, v := [m] + BE(0, if m == 0x02 then 2 else 4) + [], Str([]);
    } else if m == 0x03 {
      ObjectReads([]);
      b, v := [0x03] + PieceBytes([]) + [0, 0, 9], Object(PieceMap([], map[]));
    } else if m == 0x08 {
      EcmaArrayReads(0, []);
      b, v := [0x08] + BE(0, 4) + PieceBytes([]) + [0, 0, 9], Object(PieceMap([], map[]));
    } else if m == 0x0a {
      StrictArrayReads([]);
      b, v := [0x0a] + BE(0, 4) + ElemBytes([]), Array(ElemValues([]));
    } else if m == 0x0b {
      DateReads(eight, [0, 0]);
      b, v := [0x0b] + eight + [0, 0], Number(eight);
    } else if m == 0x10 {
      TypedReads([], []);
      b, v := [0x10] + BE(0, 2) + [] + PieceBytes([]) + [0, 0, 9], Typed([], PieceMap([], map[]));
    } else {
      NullReads(m);
      b, v := [m], Null;
    }
  }

  // ---------- what the encoder writes ----------

  /** 1.0, true, "x", null, [null], {a: null} and a string of 65536 bytes, byte by byte. */
  lemma KnownBytes(long: bytes)
    requires |long| == 0x1_0000
    ensures Encode(NumberItem([0x3f, 0xf0, 0, 0, 0, 0, 0, 0])) == [0, 0x3f, 0xf0, 0, 0, 0, 0, 0, 0]
    ensures Encode(BooleanItem(true)) == [1, 1] && Encode(NullItem) == [5]
    ensures Encode(StrItem([0x78])) == [2, 0, 1, 0x78] && Encode(ArrayItem([NullItem])) == [10, 0, 0, 0, 1, 5]
    ensures Encode(ObjectItem([Prop([0x61], NullItem)])) == [3, 0, 1, 0x61, 5, 0, 0, 9]
    ensures Encode(StrItem(long)) == [12, 0, 1, 0, 0] + long
  {
    OneTwo();
    KnownContainers();
    hide EncodeProps, EncodeAll, BE;
  }

  lemma KnownContainers()
    ensures Encode(ArrayItem([NullItem])) == [10, 0, 0, 0, 1, 5]
    ensures Encode(ObjectItem([Prop([0x61], NullItem)])) == [3, 0, 1, 0x61, 5, 0, 0, 9]
  {
    OneTwo();
    hide BE;
    assert EncodeAll([NullItem]) == Encode(NullItem) + EncodeAll([]) == [5];
    var p := Prop([0x61], NullItem);
    assert EncodeProps([p]) == EncString([0x61]) + Encode(NullItem) + EncodeProps([]) == [0, 1, 0x61, 5];
    hide EncodeProps, EncodeAll;
  }

  lemma OneTwo()
    ensures BE(1, 2) == [0, 1] && BE(1, 4) == [0, 0, 0, 1] && BE(0x1_0000, 4) == [0, 1, 0, 0]
  {
    assert BE(0, 1) == [0] && BE(0, 2) == BE(0, 1) + [0] && BE(0, 3) == BE(0, 2) + [0];
    assert BE(1, 2) == BE(0, 1) + [1] && BE(0x100, 3) == BE(1, 2) + [0];
  }
}
