/** The AMF 0 encoder and decoder as they run: appending to a writer, consuming a reader. */
module Amf0Codec {
  import opened Bytes
  import opened Options
  import opened Buffers
  import opened Amf0Spec
  import opened Amf0Theorems

  /** The encoder refuses typed objects, wherever they occur. */
  predicate Encodable(v: Value)
  {
    match v
    case Object(m) => forall k <- m :: Encodable(m[k])
    case Array(elems) => forall x <- elems :: Encodable(x)
    case Typed(_, _) => false
    case _ => true
  }

  lemma {:induction false} EncodePropsSnoc(ps: seq<Prop>, p: Prop)
    ensures EncodeProps(ps + [p]) == EncodeProps(ps) + EncString(p.key) + Encode(p.item)
  {
    hide Encode, EncString;
    if ps == [] {
      assert EncodeProps([p][1..]) == [];
      assert [] + [p] == [p];
    } else {
      EncodePropsSnoc(ps[1..], p);
      assert (ps + [p])[1..] == ps[1..] + [p];
    }
  }

  lemma {:induction false} PlainPropsSnoc(ps: seq<Prop>, p: Prop, m: map<bytes, Value>)
    ensures PlainProps(ps + [p], m) == PlainProps(ps, m)[p.key := Plain(p.item)]
    decreases |ps|
  {
    hide Plain;
    if ps == [] {
      assert [] + [p] == [p] && [p][1..] == [];
    } else {
      PlainPropsSnoc(ps[1..], p, m[ps[0].key := Plain(ps[0].item)]);
      assert (ps + [p])[1..] == ps[1..] + [p];
    }
  }

  lemma {:induction false} AllSnoc(xs: seq<Item>, x: Item)
    ensures EncodeAll(xs + [x]) == EncodeAll(xs) + Encode(x)
    ensures PlainAll(xs + [x]) == PlainAll(xs) + [Plain(x)]
  {
    hide Encode, Plain;
    if xs == [] {
      assert [] + [x] == [x] && [x][1..] == [];
    } else {
      AllSnoc(xs[1..], x);
      assert (xs + [x])[1..] == xs[1..] + [x];
    }
  }

  // ---------- encoder ----------

  method EncodeString(w: Buffer, s: bytes) returns (n: nat)
    modifies w
    ensures w.content == old(w.content) + EncString(s) && n == |EncString(s)|
  {
    w.Write(BE(|s|, 2));
    w.Write(s);
    n := 2 + |s|;
  }

  /**
   * Encodes any value. On success what was written is the encoding of the value with its
   * properties in some order, and n counts it.
   */
  method EncodeAmf0(w: Buffer, v: Value) returns (n: nat, ok: bool, ghost o: Item)
    modifies w
    ensures ok == Encodable(v)
    ensures ok ==> Plain(o) == v && Distinct(o) && w.content == old(w.content) + Encode(o) && n == |Encode(o)|
    decreases v, 1
  {
    n, ok, o := 0, true, NullItem;
    match v {
      case Number(bits) =>
        o := NumberItem(bits);
        w.Write([0x00]);
        w.Write(bits);
        n := 1 + |bits|;
      case Boolean(b) =>
        o := BooleanItem(b);
        w.Write([0x01]);
        w.Write([if b then 1 else 0]);
        n := 2;
      case Str(s) =>
        o := StrItem(s);
        if |s| <= STRING_MAX {
          w.Write([0x02]);
          n := EncodeString(w, s);
          n := n + 1;
        } else {
          w.Write([0x0c]);
          w.Write(BE(|s|, 4));
          w.Write(s);
          n := 5 + |s|;
        }
      case Null =>
        w.Write([0x05]);
        n := 1;
      case Object(m) =>
        n, ok, o := EncodeObject(w, v);
      case Array(elems) =>
        n, ok, o := EncodeStrictArray(w, v);
      case Typed(_, _) =>
        ok := false;
    }
  }

  /** Properties in whatever order the map yields them, then an empty key and the end marker. */
  method EncodeObject(w: Buffer, v: Value) returns (n: nat, ok: bool, ghost o: Item)
    requires v.Object?
    modifies w
    ensures ok == Encodable(v)
    ensures ok ==> Plain(o) == v && Distinct(o) && w.content == old(w.content) + Encode(o) && n == |Encode(o)|
    decreases v, 0
  {
    hide Encode, Plain, Distinct, EncString, Encodable;
    var m := v.m;
    w.Write([0x03]);
    n, ok := 1, true;
    var left := m.Keys;
    ghost var props := [];
    ghost var start := w.content;
    while left != {}
      invariant left <= m.Keys
      invariant forall k :: k in m.Keys - left ==> Encodable(m[k])
      invariant w.content == start + EncodeProps(props) && n == 1 + |EncodeProps(props)|
      invariant NoRepeats(props) && forall p <- props :: Distinct(p.item) && p.key in m.Keys - left
      invariant PlainProps(props, map[]) == map k | k in m.Keys - left :: m[k]
      decreases left
    {
      var k :| k in left;
      var i := EncodeString(w, k);
      var j, good, item := EncodeAmf0(w, m[k]);
      if !good {
        EncodableParts(v);
        return n, false, NullItem;
      }
      n := n + i + j;
      EncodePropsSnoc(props, Prop(k, item));
      PlainPropsSnoc(props, Prop(k, item), map[]);
      props := props + [Prop(k, item)];
      left := left - {k};
    }
    var i := EncodeString(w, []);
    w.Write([0x09]);
    n := n + i + 1;
    o := ObjectItem(props);
    assert m == map k | k in m.Keys - left :: m[k];
    EncodableParts(v);
    ObjectDone(props);
    assert start + EncodeProps(props) + EncString([]) + [0x09] ==
        start + (EncodeProps(props) + (EncString([]) + [0x09]));
  }

  lemma EncodableParts(v: Value)
    ensures v.Object? ==> (Encodable(v) <==> forall k <- v.m :: Encodable(v.m[k]))
    ensures v.Array? ==> (Encodable(v) <==> forall x <- v.elems :: Encodable(x))
  {
  }

  lemma ObjectDone(props: seq<Prop>)
    requires NoRepeats(props) && forall p <- props :: Distinct(p.item)
    ensures var o := ObjectItem(props);
            && Plain(o) == Object(PlainProps(props, map[])) && Distinct(o)
            && Encode(o) == [0x03] + (EncodeProps(props) + (EncString([]) + [0x09]))
            && |EncString([])| == 2
  {
    assert EncString([]) == [0, 0] by { assert BE(0, 1) == [0]; }
    ConcatAssoc([0x03], EncodeProps(props), [0, 0, 9]);
  }

  lemma ArrayDone(items: seq<Item>)
    requires forall x <- items :: Distinct(x)
    ensures var o := ArrayItem(items);
            && Plain(o) == Array(PlainAll(items)) && Distinct(o)
            && Encode(o) == [0x0a] + BE(|items|, 4) + EncodeAll(items)
  {
  }

  method EncodeStrictArray(w: Buffer, v: Value) returns (n: nat, ok: bool, ghost o: Item)
    requires v.Array?
    modifies w
    ensures ok == Encodable(v)
    ensures ok ==> Plain(o) == v && Distinct(o) && w.content == old(w.content) + Encode(o) && n == |Encode(o)|
    decreases v, 0
  {
    hide Encode, Plain, Distinct, Encodable, BE;
    var elems := v.elems;
    w.Write([0x0a]);
    w.Write(BE(|elems|, 4));
    n, ok := 5, true;
    ghost var items := [];
    ghost var start := w.content;
    for i := 0 to |elems|
      invariant forall k :: 0 <= k < i ==> Encodable(elems[k])
      invariant w.content == start + EncodeAll(items) && n == 5 + |EncodeAll(items)|
      invariant PlainAll(items) == elems[..i] && forall x <- items :: Distinct(x)
    {
      var j, good, item := EncodeAmf0(w, elems[i]);
      if !good {
        EncodableParts(v);
        return n, false, NullItem;
      }
      n := n + j;
      AllSnoc(items, item);
      items := items + [item];
    }
    o := ArrayItem(items);
    EncodableParts(v);
    ArrayDone(items);
    assert elems[..|elems|] == elems;
  }

  /** Values one behind the other; the count it returns is always zero. */
  method EncodeBatch(w: Buffer, vs: seq<Value>) returns (n: nat, ok: bool, ghost items: seq<Item>)
    modifies w
    ensures ok == (forall v <- vs :: Encodable(v)) && n == 0
    ensures ok ==> PlainAll(items) == vs && w.content == old(w.content) + EncodeAll(items)
  {
    hide Encode, Plain, Encodable;
    n, ok, items := 0, true, [];
    for i := 0 to |vs|
      invariant (forall v <- vs[..i] :: Encodable(v)) && PlainAll(items) == vs[..i]
      invariant w.content == old(w.content) + EncodeAll(items)
    {
      var j, good, o := EncodeAmf0(w, vs[i]);
      if !good {
        assert vs[i] in vs;
        return 0, false, items;
      }
      AllSnoc(items, o);
      ConcatAssoc(old(w.content), EncodeAll(items), Encode(o));
      items := items + [o];
    }
    assert vs[..|vs|] == vs;
  }

  // ---------- decoder ----------

  class Reader {
    var rest: bytes

    constructor (input: bytes)
      ensures rest == input
    {
      rest := input;
    }

    /** binary.Read: exactly n bytes. */
    method Full(n: nat) returns (b: Option<bytes>)
      modifies this
      ensures Step(b, rest) == ReadFull(old(rest), n)
    {
      if |rest| < n {
        rest := [];
        return None;
      }
      b := Some(rest[..n]);
      rest := rest[n..];
    }

    /** One Read call; end of input even when nothing is asked for. */
    method Bytes(n: nat) returns (b: Option<bytes>)
      modifies this
      ensures Step(b, rest) == ReadBytes(old(rest), n)
    {
      if rest == [] { return None; }
      b := Full(n);
    }

    method Text(width: nat) returns (s: Option<bytes>)
      modifies this
      ensures Step(s, rest) == DecodeString(old(rest), width)
    {
      var n := Full(width);
      if n.None? { return None; }
      s := Bytes(FromBE(n.value));
    }
  }

  method DecodeAmf0(r: Reader) returns (v: Option<Value>)
    modifies r
    ensures Step(v, r.rest) == Decode(old(r.rest))
    decreases |r.rest|, 0
  {
    hide DecodeBody;
    var marker := r.Bytes(1);
    if marker.None? { return None; }
    v := DecodeAmf0Body(r, marker.value[0]);
  }

  method DecodeAmf0Body(r: Reader, marker: u8) returns (v: Option<Value>)
    modifies r
    ensures Step(v, r.rest) == DecodeBody(marker, old(r.rest))
    decreases |r.rest|, 2
  {
    hide DecodeProps, DecodeElems, DecodeString, ReadFull, ReadBytes;
    v := None;
    if marker == 0x00 {
      var b := r.Full(8);
      if b.Some? { v := Some(Number(b.value)); }
    } else if marker == 0x01 {
      var b := r.Bytes(1);
      if b.Some? && b.value[0] <= 1 { v := Some(Boolean(b.value[0] == 1)); }
    } else if marker == 0x02 {
      var s := r.Text(2);
      if s.Some? { v := Some(Str(s.value)); }
    } else if marker == 0x03 {
      var m := DecodeObject(r);
      if m.Some? { v := Some(Object(m.value)); }
    } else if marker == 0x05 || marker == 0x06 || marker == 0x0d {
      v := Some(Null);
    } else if marker == 0x08 {
      // The declared length is not used, and an error reading it shows in what follows.
      var n := r.Full(4);
      var m := DecodeObject(r);
      if m.Some? { v := Some(Object(m.value)); }
    } else if marker == 0x0a {
      var n := r.Full(4);
      if n.None? { return; }
      var es := DecodeStrictArray(r, FromBE(n.value));
      if es.Some? { v := Some(Array(es.value)); }
    } else if marker == 0x0b {
      var d := r.Full(8);
      if d.None? { return; }
      var zone := r.Bytes(2);
      if zone.Some? { v := Some(Number(d.value)); }
    } else if marker == 0x0c || marker == 0x0f {
      var s := r.Text(4);
      if s.Some? { v := Some(Str(s.value)); }
    } else if marker == 0x10 {
      var name := r.Text(2);
      if name.None? { return; }
      var m := DecodeObject(r);
      if m.Some? { v := Some(Typed(name.value, m.value)); }
    }
  }

  method DecodeObject(r: Reader) returns (m: Option<map<bytes, Value>>)
    modifies r
    ensures Step(m, r.rest) == DecodeProps(old(r.rest), map[])
    decreases |r.rest|, 1
  {
    hide Decode, DecodeString;
    var result: map<bytes, Value> := map[];
    while true
      invariant |r.rest| <= |old(r.rest)|
      invariant DecodeProps(r.rest, result) == DecodeProps(old(r.rest), map[])
      decreases |r.rest|
    {
      var key := r.Text(2);
      if key.None? { return None; }
      if key.value == [] {
        var e := r.Bytes(1);
        if e.None? || e.value[0] != 0x09 { return None; }
        return Some(result);
      }
      var v := DecodeAmf0(r);
      if v.None? { return None; }
      result := result[key.value := v.value];
    }
  }

  method DecodeStrictArray(r: Reader, n: nat) returns (es: Option<seq<Value>>)
    modifies r
    ensures Step(es, r.rest) == DecodeElems(old(r.rest), n)
    decreases |r.rest|, 1
  {
    hide Decode;
    var result := [];
    NothingBehind(DecodeElems(r.rest, n).v);
    for i := 0 to n
      invariant |r.rest| <= |old(r.rest)|
      invariant DecodeElems(old(r.rest), n) == Prepend(result, DecodeElems(r.rest, n - i))
    {
      var v := DecodeAmf0(r);
      if v.None? { return None; }
      BehindTwo(result, [v.value], DecodeElems(r.rest, n - i - 1).v);
      result := result + [v.value];
    }
    es := Some(result);
    assert result + [] == result;
  }

  /** Elements already decoded in front of a later step. */
  function Prepend(front: seq<Value>, r: Step<seq<Value>>): Step<seq<Value>>
  {
    Step(Behind(front, r.v), r.rest)
  }

  /** Decodes until the first error. */
  method DecodeBatch(r: Reader) returns (vs: seq<Value>)
    modifies r
    ensures (vs, r.rest) == Amf0Spec.DecodeBatch(old(r.rest))
  {
    hide Decode;
    vs := [];
    while true
      invariant Amf0Spec.DecodeBatch(old(r.rest)).0 == vs + Amf0Spec.DecodeBatch(r.rest).0
      invariant Amf0Spec.DecodeBatch(old(r.rest)).1 == Amf0Spec.DecodeBatch(r.rest).1
      decreases |r.rest|
    {
      var v := DecodeAmf0(r);
      if v.None? {
        assert vs + [] == vs;
        break;
      }
      ConcatAssoc(vs, [v.value], Amf0Spec.DecodeBatch(r.rest).0);
      vs := vs + [v.value];
    }
  }
}
