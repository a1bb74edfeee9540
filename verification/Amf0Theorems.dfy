/** Round trips through the AMF 0 codec, and exactly when they hold. */
module Amf0Theorems {
  import opened Bytes
  import opened Options
  import opened Amf0Spec

  const COUNT_MAX := 0x1_0000_0000

  // ---------- which values fit the format ----------

  predicate KeyOk(k: bytes) { 1 <= |k| <= STRING_MAX }

  predicate ItemOk(o: Item)
  {
    match o
    case NumberItem(bits) => |bits| == 8
    case StrItem(s) => |s| < COUNT_MAX
    case ObjectItem(props) => forall p <- props :: KeyOk(p.key) && ItemOk(p.item)
    case ArrayItem(items) => |items| < COUNT_MAX && forall x <- items :: ItemOk(x)
    case _ => true
  }

  /** The same, said of the value itself. */
  predicate ValueOk(v: Value)
  {
    match v
    case Number(bits) => |bits| == 8
    case Str(s) => |s| < COUNT_MAX
    case Object(m) => forall k <- m :: KeyOk(k) && ValueOk(m[k])
    case Array(elems) => |elems| < COUNT_MAX && forall x <- elems :: ValueOk(x)
    case Typed(name, m) => |name| <= STRING_MAX && forall k <- m :: KeyOk(k) && ValueOk(m[k])
    case _ => true
  }

  /** Property lists that come from a map repeat no key. */
  predicate Distinct(o: Item)
  {
    match o
    case ObjectItem(props) =>
      && (forall i, j :: 0 <= i < j < |props| ==> props[i].key != props[j].key)
      && forall p <- props :: Distinct(p.item)
    case ArrayItem(items) => forall x <- items :: Distinct(x)
    case _ => true
  }

  /** The encoding's last bytes are those of an empty string. */
  predicate EndsEmpty(o: Item)
  {
    match o
    case StrItem(s) => s == []
    case ArrayItem(items) => items != [] && EndsEmpty(items[|items| - 1])
    case _ => false
  }

  // ---------- strings ----------

  lemma FullReads(b: bytes, rest: bytes)
    ensures ReadFull(b + rest, |b|) == Step(Some(b), rest)
  {
    assert (b + rest)[..|b|] == b && (b + rest)[|b|..] == rest;
  }

  lemma StringReads(s: bytes, width: nat, rest: bytes)
    requires |s| < Pow256(width)
    ensures DecodeString(BE(|s|, width) + s + rest, width) ==
            if s + rest == [] then Step(None, []) else Step(Some(s), rest)
  {
    BEExact(|s|, width);
    ConcatAssoc(BE(|s|, width), s, rest);
    FullReads(BE(|s|, width), s + rest);
    FullReads(s, rest);
  }

  lemma MarkerReads(m: u8, rest: bytes)
    ensures ReadBytes([m] + rest, 1) == Step(Some([m]), rest)
  {
    FullReads([m], rest);
  }

  // ---------- the round trip ----------

  /** What decoding an encoded value gives: the value, unless a final empty string meets the end of input. */
  function Expected(o: Item, rest: bytes): Step<Value>
  {
    if rest == [] && EndsEmpty(o) then Step(None, []) else Step(Some(Plain(o)), rest)
  }

  lemma Marked(marker: u8, t: bytes)
    ensures Decode([marker] + t) == DecodeBody(marker, t)
  {
    MarkerReads(marker, t);
  }

  lemma BooleanBody(b: bool, rest: bytes)
    ensures DecodeBody(1, [if b then 1 else 0] + rest) == Step(Some(Boolean(b)), rest)
  {
    MarkerReads(if b then 1 else 0, rest);
  }

  lemma StringBody(s: bytes, rest: bytes)
    requires |s| < COUNT_MAX
    ensures var o := StrItem(s); Decode(Encode(o) + rest) == Expected(o, rest)
  {
    Pow256Values();
    var long := |s| > STRING_MAX;
    var marker: u8, width := if long then 0x0c else 0x02, if long then 4 else 2;
    var body := BE(|s|, width) + s;
    assert Encode(StrItem(s)) + rest == [marker] + (body + rest);
    Marked(marker, body + rest);
    StringReads(s, width, rest);
  }

  lemma ArrayBody(n: nat, body: bytes)
    requires n < COUNT_MAX
    ensures DecodeBody(0x0a, BE(n, 4) + body) == Wrap(DecodeElems(body, n), es => Array(es))
  {
    Pow256Values();
    FullReads(BE(n, 4), body);
    BEExact(n, 4);
  }

  lemma {:induction false} DecodeEncode(o: Item, rest: bytes)
    requires ItemOk(o)
    ensures Decode(Encode(o) + rest) == Expected(o, rest)
    decreases o, 0
  {
    hide Decode;
    match o {
      case NumberItem(bits) =>
        assert Encode(o) + rest == [0] + (bits + rest);
        Marked(0, bits + rest);
        FullReads(bits, rest);
      case BooleanItem(b) =>
        var x: u8 := if b then 1 else 0;
        assert Encode(o) + rest == [1] + ([x] + rest);
        Marked(1, [x] + rest);
        BooleanBody(b, rest);
      case StrItem(s) =>
        StringBody(s, rest);
      case NullItem =>
        Marked(5, rest);
      case ObjectItem(props) =>
        var body := EncodeProps(props) + ([0, 0, 9] + rest);
        assert Encode(o) + rest == [3] + body;
        Marked(3, body);
        DecodeEncodeProps(props, map[], rest);
      case ArrayItem(items) =>
        var body := EncodeAll(items) + rest;
        assert Encode(o) + rest == [0x0a] + (BE(|items|, 4) + body);
        Marked(0x0a, BE(|items|, 4) + body);
        hide DecodeBody;
        ArrayBody(|items|, body);
        DecodeEncodeAll(items, rest);
    }
  }

  lemma {:induction false} DecodeEncodeProps(props: seq<Prop>, m: map<bytes, Value>, rest: bytes)
    requires forall p <- props :: KeyOk(p.key) && ItemOk(p.item)
    ensures DecodeProps(EncodeProps(props) + ([0, 0, 9] + rest), m) == Step(Some(PlainProps(props, m)), rest)
    decreases props, 1
  {
    Pow256Values();
    if props == [] {
      assert EncodeProps(props) + ([0, 0, 9] + rest) == [0, 0, 9] + rest;
      assert BE(0, 2) == [0, 0] by { assert BE(0, 1) == [0]; }
      assert [0, 0, 9] + rest == BE(0, 2) + [] + ([9] + rest);
      StringReads([], 2, [9] + rest);
      MarkerReads(9, rest);
    } else {
      var p, more := props[0], EncodeProps(props[1..]) + ([0, 0, 9] + rest);
      assert EncodeProps(props) + ([0, 0, 9] + rest) == BE(|p.key|, 2) + p.key + (Encode(p.item) + more);
      StringReads(p.key, 2, Encode(p.item) + more);
      DecodeEncode(p.item, more);
      DecodeEncodeProps(props[1..], m[p.key := Plain(p.item)], rest);
    }
  }

  lemma {:induction false} DecodeEncodeAll(items: seq<Item>, rest: bytes)
    requires forall x <- items :: ItemOk(x)
    ensures DecodeElems(EncodeAll(items) + rest, |items|) ==
            if rest == [] && items != [] && EndsEmpty(items[|items| - 1]) then Step(None, [])
            else Step(Some(PlainAll(items)), rest)
    decreases items, 1
  {
    if items == [] {
      assert EncodeAll(items) + rest == rest;
    } else {
      var more := EncodeAll(items[1..]) + rest;
      assert EncodeAll(items) + rest == Encode(items[0]) + more;
      DecodeEncode(items[0], more);
      DecodeEncodeAll(items[1..], rest);
      if |items| > 1 { assert items[1..][|items| - 2] == items[|items| - 1]; }
    }
  }

  // ---------- whatever the decoder accepts fits the format ----------

  lemma StringBound(s: bytes, width: nat)
    requires width == 2 || width == 4
    ensures DecodeString(s, width).v.Some? ==>
              && |DecodeString(s, width).v.value| < Pow256(width)
              && (width == 2 ==> |DecodeString(s, width).v.value| <= STRING_MAX)
  {
    Pow256Values();
    var n := ReadFull(s, width);
    if n.v.Some? { FromBEBound(n.v.value); }
  }

  ghost predicate MapOk(m: map<bytes, Value>) { forall k <- m :: KeyOk(k) && ValueOk(m[k]) }

  lemma {:induction false} DecodedOk(s: bytes)
    ensures Decode(s).v.Some? ==> ValueOk(Decode(s).v.value)
    decreases |s|, 0
  {
    var m := ReadBytes(s, 1);
    if m.v.Some? { BodyOk(m.v.value[0], m.rest); }
  }

  lemma {:induction false} BodyOk(marker: u8, t: bytes)
    ensures DecodeBody(marker, t).v.Some? ==> ValueOk(DecodeBody(marker, t).v.value)
    decreases |t|, 2
  {
    hide DecodeProps, DecodeElems, DecodeString;
    Pow256Values();
    if marker == 0x03 {
      PropsOk(t, map[]);
    } else if marker == 0x08 {
      PropsOk(ReadFull(t, 4).rest, map[]);
    } else if marker == 0x0a {
      var n := ReadFull(t, 4);
      if n.v.Some? {
        FromBEBound(n.v.value);
        ElemsOk(n.rest, FromBE(n.v.value));
      }
    } else if marker == 0x10 {
      StringBound(t, 2);
      PropsOk(DecodeString(t, 2).rest, map[]);
    } else {
      StringBound(t, 2);
      StringBound(t, 4);
    }
  }

  lemma {:induction false} PropsOk(s: bytes, m: map<bytes, Value>)
    requires MapOk(m)
    ensures DecodeProps(s, m).v.Some? ==> MapOk(DecodeProps(s, m).v.value)
    decreases |s|, 1
  {
    hide Decode, DecodeString;
    StringBound(s, 2);
    var k := DecodeString(s, 2);
    if k.v.Some? && k.v.value != [] {
      DecodedOk(k.rest);
      var v := Decode(k.rest);
      if v.v.Some? { PropsOk(v.rest, m[k.v.value := v.v.value]); }
    }
  }

  lemma {:induction false} ElemsOk(s: bytes, n: nat)
    ensures DecodeElems(s, n).v.Some? ==> forall x <- DecodeElems(s, n).v.value :: ValueOk(x)
    decreases |s|, 1, n
  {
    hide Decode;
    if n > 0 {
      DecodedOk(s);
      var v := Decode(s);
      if v.v.Some? { ElemsOk(v.rest, n - 1); }
    }
  }

  // ---------- ordered and unordered values agree on what fits ----------

  lemma {:induction false} PlainOkIff(o: Item)
    requires Distinct(o)
    ensures ItemOk(o) <==> ValueOk(Plain(o))
    decreases o, 0
  {
    match o {
      case ObjectItem(props) => PropsOkIff(props, map[]);
      case ArrayItem(items) => AllOkIff(items);
      case _ =>
    }
  }

  predicate NoRepeats(props: seq<Prop>) { forall i, j :: 0 <= i < j < |props| ==> props[i].key != props[j].key }

  lemma {:induction false} PropsOkIff(props: seq<Prop>, m: map<bytes, Value>)
    requires NoRepeats(props) && forall p <- props :: Distinct(p.item)
    requires forall p <- props :: p.key !in m
    ensures MapOk(PlainProps(props, m)) <==> MapOk(m) && forall p <- props :: KeyOk(p.key) && ItemOk(p.item)
    decreases props, 1
  {
    if props != [] {
      var p, m1 := props[0], m[props[0].key := Plain(props[0].item)];
      PlainOkIff(p.item);
      MapOkAdd(m, p.key, Plain(p.item));
      forall q | q in props[1..] ensures q.key !in m1 {
        var i :| 0 <= i < |props| - 1 && props[1..][i] == q;
        assert props[i + 1] == q && props[0].key != props[i + 1].key;
      }
      assert NoRepeats(props[1..]);
      PropsOkIff(props[1..], m1);
      assert forall q :: q in props <==> q == p || q in props[1..];
    }
  }

  lemma MapOkAdd(m: map<bytes, Value>, k: bytes, v: Value)
    requires k !in m
    ensures MapOk(m[k := v]) <==> MapOk(m) && KeyOk(k) && ValueOk(v)
  {
    var m1 := m[k := v];
    assert k in m1 && m1[k] == v;
    if MapOk(m1) {
      forall j | j in m ensures KeyOk(j) && ValueOk(m[j]) {
        assert j in m1 && m1[j] == m[j];
      }
    }
  }

  lemma {:induction false} AllOkIff(items: seq<Item>)
    requires forall x <- items :: Distinct(x)
    ensures (forall x <- items :: ItemOk(x)) <==> forall v <- PlainAll(items) :: ValueOk(v)
    decreases items, 1
  {
    if items != [] {
      PlainOkIff(items[0]);
      AllOkIff(items[1..]);
      assert forall x :: x in items <==> x == items[0] || x in items[1..];
      var vs := PlainAll(items);
      assert vs[0] == Plain(items[0]) && vs[1..] == PlainAll(items[1..]);
      assert forall v :: v in vs <==> v == vs[0] || v in vs[1..];
    }
  }

  /**
   * The codec's law, exactly: decoding what was encoded returns the value and leaves the rest, if
   * and only if every key has 1 to 65535 bytes, lengths fit their fields, and the encoding does
   * not end in an empty string right at the end of the input.
   */
  lemma RoundTripIff(o: Item, rest: bytes)
    requires Distinct(o)
    ensures Decode(Encode(o) + rest) == Step(Some(Plain(o)), rest) <==> ItemOk(o) && (rest != [] || !EndsEmpty(o))
  {
    hide Decode, Encode;
    if ItemOk(o) {
      DecodeEncode(o, rest);
    } else {
      PlainOkIff(o);
      DecodedOk(Encode(o) + rest);
    }
  }

  // ---------- what is left is the end of the input ----------

  ghost predicate Suffix(rest: bytes, s: bytes) { |rest| <= |s| && s[|s| - |rest|..] == rest }

  lemma SuffixTrans(a: bytes, b: bytes, c: bytes)
    requires Suffix(a, b) && Suffix(b, c)
    ensures Suffix(a, c)
  {
    assert c[|c| - |a|..] == c[|c| - |b|..][|b| - |a|..];
  }

  lemma ReadSuffix(s: bytes, n: nat)
    ensures Suffix(ReadFull(s, n).rest, s) && Suffix(ReadBytes(s, n).rest, s)
  {
  }

  lemma StringSuffix(s: bytes, width: nat)
    ensures Suffix(DecodeString(s, width).rest, s)
  {
    hide Suffix;
    ReadSuffix(s, width);
    var n := ReadFull(s, width);
    if n.v.Some? {
      ReadSuffix(n.rest, FromBE(n.v.value));
      SuffixTrans(ReadBytes(n.rest, FromBE(n.v.value)).rest, n.rest, s);
    }
  }

  lemma {:induction false} DecodeSuffix(s: bytes)
    ensures Suffix(Decode(s).rest, s)
    decreases |s|, 0
  {
    hide Suffix, DecodeBody;
    ReadSuffix(s, 1);
    var m := ReadBytes(s, 1);
    if m.v.Some? {
      BodySuffix(m.v.value[0], m.rest);
      SuffixTrans(Decode(s).rest, m.rest, s);
    }
  }

  lemma {:induction false} BodySuffix(marker: u8, t: bytes)
    ensures Suffix(DecodeBody(marker, t).rest, t)
    decreases |t|, 2
  {
    hide Suffix, DecodeProps, DecodeElems, DecodeString;
    if marker == 0x03 {
      PropsSuffix(t, map[]);
    } else if marker == 0x08 {
      ReadSuffix(t, 4);
      var n := ReadFull(t, 4);
      PropsSuffix(n.rest, map[]);
      SuffixTrans(DecodeProps(n.rest, map[]).rest, n.rest, t);
    } else if marker == 0x0a {
      ReadSuffix(t, 4);
      var n := ReadFull(t, 4);
      if n.v.Some? {
        ElemsSuffix(n.rest, FromBE(n.v.value));
        SuffixTrans(DecodeElems(n.rest, FromBE(n.v.value)).rest, n.rest, t);
      }
    } else if marker == 0x10 {
      StringSuffix(t, 2);
      var name := DecodeString(t, 2);
      PropsSuffix(name.rest, map[]);
      SuffixTrans(DecodeProps(name.rest, map[]).rest, name.rest, t);
    } else {
      FlatSuffix(marker, t);
    }
  }

  lemma NumberSuffix(t: bytes)
    ensures Suffix(DecodeBody(0x00, t).rest, t) && Suffix(DecodeBody(0x0b, t).rest, t)
  {
    hide Suffix, ReadFull, ReadBytes, DecodeProps, DecodeElems, DecodeString;
    ReadSuffix(t, 8);
    var d := ReadFull(t, 8);
    ReadSuffix(d.rest, 2);
    SuffixTrans(ReadBytes(d.rest, 2).rest, d.rest, t);
  }

  /** Markers whose values hold no other values. */
  lemma FlatSuffix(marker: u8, t: bytes)
    requires marker != 0x03 && marker != 0x08 && marker != 0x0a && marker != 0x10
    ensures Suffix(DecodeBody(marker, t).rest, t)
  {
    hide DecodeString;
    if marker == 0x00 || marker == 0x0b {
      NumberSuffix(t);
    } else if marker == 0x02 {
      StringSuffix(t, 2);
    } else if marker == 0x0c || marker == 0x0f {
      StringSuffix(t, 4);
    }
  }

  lemma {:induction false} PropsSuffix(s: bytes, m: map<bytes, Value>)
    ensures Suffix(DecodeProps(s, m).rest, s)
    decreases |s|, 1
  {
    hide Suffix, Decode, DecodeString;
    StringSuffix(s, 2);
    var k := DecodeString(s, 2);
    if k.v.Some? {
      if k.v.value == [] {
        ReadSuffix(k.rest, 1);
        SuffixTrans(ReadBytes(k.rest, 1).rest, k.rest, s);
      } else {
        DecodeSuffix(k.rest);
        var v := Decode(k.rest);
        SuffixTrans(v.rest, k.rest, s);
        if v.v.Some? {
          PropsSuffix(v.rest, m[k.v.value := v.v.value]);
          SuffixTrans(DecodeProps(s, m).rest, v.rest, s);
        }
      }
    }
  }

  lemma {:induction false} ElemsSuffix(s: bytes, n: nat)
    ensures Suffix(DecodeElems(s, n).rest, s)
    decreases |s|, 1, n
  {
    hide Decode;
    if n > 0 {
      hide Suffix;
      DecodeSuffix(s);
      var v := Decode(s);
      if v.v.Some? {
        ElemsSuffix(v.rest, n - 1);
        SuffixTrans(DecodeElems(s, n).rest, v.rest, s);
      }
    }
  }

  // ---------- batches ----------

  /**
   * A batch of encoded values decodes to those values, with one exception: an empty string that
   * ends the input takes the value it belongs to with it.
   */
  lemma {:induction false} BatchRoundTrip(items: seq<Item>)
    requires forall x <- items :: ItemOk(x)
    ensures var lost := items != [] && EndsEmpty(items[|items| - 1]);
            DecodeBatch(EncodeAll(items)) == (PlainAll(if lost then items[..|items| - 1] else items), [])
    decreases |items|
  {
    hide Decode, Encode, Plain, ItemOk, EndsEmpty;
    if items == [] {
      EmptyInput();
    } else {
      var more := EncodeAll(items[1..]);
      DecodeEncode(items[0], more);
      NonEmptyAll(items[1..]);
      if |items| == 1 {
        assert more == [];
        EmptyInput();
        assert PlainAll(items) == [Plain(items[0])] && items[..0] == [];
      } else {
        BatchRoundTrip(items[1..]);
        assert items[1..][|items| - 2] == items[|items| - 1];
        assert items[1..][..|items| - 2] == items[..|items| - 1][1..];
      }
    }
  }

  lemma EmptyInput()
    ensures Decode([]) == Step(None, [])
  {
  }

  lemma NonEmptyAll(items: seq<Item>)
    ensures items != [] ==> EncodeAll(items) != []
  {
    hide Encode;
  }
}
