/** Round trips through the AMF 3 codec, from any reference tables, and exactly when they hold. */
module Amf3Theorems {
  import opened Bytes
  import opened Amf3Spec

  // ---------- 29-bit integers ----------

  lemma U29Reads(v: nat, rest: bytes)
    requires v < U29
    ensures DecU29(EncU29(v) + rest) == Got((v, rest))
  {
    var e := EncU29(v);
    assert (e + rest)[|e|..] == rest;
    forall i | 0 <= i < |e| ensures (e + rest)[i] == e[i] { }
    if v <= 0x7f {
    } else if v <= 0x3fff {
      Limbs2(v);
    } else if v <= 0x1f_ffff {
      Limbs3(v);
    } else {
      Limbs4(v);
    }
  }

  lemma Limbs2(v: nat)
    requires v < 0x4000
    ensures (v / 0x80 + 0x80) % 0x80 * 0x80 + v % 0x80 % 0x80 == v
  {
  }

  lemma Limbs3(v: nat)
    requires v < 0x20_0000
    ensures ((v / 0x4000 + 0x80) % 0x80 * 0x80 + (v / 0x80 % 0x80 + 0x80) % 0x80) * 0x80 + v % 0x80 % 0x80 == v
  {
    assert v / 0x4000 == v / 0x80 / 0x80;
    Limbs2(v / 0x80);
  }

  lemma Limbs4(v: nat)
    requires v < U29
    ensures (((v / 0x40_0000 + 0x80) % 0x80 * 0x80 + (v / 0x8000 % 0x80 + 0x80) % 0x80) * 0x80
             + (v / 0x100 % 0x80 + 0x80) % 0x80) * 0x100 + v % 0x100 == v
  {
    var w := v / 0x100;
    assert v / 0x8000 == w / 0x80 && v / 0x40_0000 == w / 0x4000;
    assert w % 0x80 % 0x80 == (w % 0x80 + 0x80) % 0x80;
    Limbs3(w);
  }

  /** An integer survives exactly below 2^28; above, it comes back negative. */
  lemma IntegerIff(n: nat, rest: bytes, d: Tables)
    requires n < U29
    ensures Decode(Encode(IntegerItem(n)) + rest, d) == Got(Done(Integer(n), rest, d)) <==> n < LENGTH_MAX
  {
    U29Reads(n, rest);
    var e := Encode(IntegerItem(n)) + rest;
    assert e[1..] == EncU29(n) + rest;
  }

  // ---------- strings ----------

  function Remember(d: Tables, s: bytes): Tables
  {
    if s == [] then d else d.(strings := d.strings + [s])
  }

  lemma Utf8Reads(s: bytes, rest: bytes, d: Tables)
    requires |s| < LENGTH_MAX
    ensures DecString(EncUtf8(s) + rest, d) == if s + rest == [] then Failed else Got(Done(s, rest, Remember(d, s)))
  {
    var t := s + rest;
    ConcatAssoc(EncU29(|s| * 2 + 1), s, rest);
    U29Reads(|s| * 2 + 1, t);
    assert (|s| * 2 + 1) / 2 == |s|;
    assert t != [] ==> t[..|s|] == s && t[|s|..] == rest;
  }

  function Keys(props: seq<Prop>): (ks: seq<bytes>)
    ensures |ks| == |props|
  {
    if props == [] then [] else [props[0].key] + Keys(props[1..])
  }

  lemma {:induction false} KeysRead(props: seq<Prop>, rest: bytes, d: Tables) returns (d1: Tables)
    requires forall p <- props :: |p.key| < LENGTH_MAX
    requires rest != []
    ensures DecStrings(EncodeKeys(props) + rest, d, |props|) == Got(Done(Keys(props), rest, d1))
    decreases |props|
  {
    hide DecString, EncUtf8;
    if props == [] {
      d1 := d;
      assert EncodeKeys(props) + rest == rest;
    } else {
      var k, more := props[0].key, EncodeKeys(props[1..]) + rest;
      ConcatAssoc(EncUtf8(k), EncodeKeys(props[1..]), rest);
      Utf8Reads(k, more, d);
      d1 := KeysRead(props[1..], rest, Remember(d, k));
    }
  }

  // ---------- values ----------

  /** The encoding's last bytes are those of an empty string. */
  predicate EndsEmpty(o: Item)
  {
    match o
    case StrItem(s) => s == []
    case ArrayItem(items) => items == [] || EndsEmpty(items[|items| - 1])
    case ObjectItem(_, name, props) => if props == [] then name == [] else EndsEmpty(props[|props| - 1].item)
    case _ => false
  }

  /** What decoding gives for a value behind which `rest` follows. */
  ghost predicate Reads(r: Outcome<Done<Value>>, o: Item, rest: bytes)
  {
    if rest == [] && EndsEmpty(o) then r == Failed
    else r.Got? && r.value.v == Plain(o, false) && r.value.rest == rest
  }

  lemma Marked(marker: u8, t: bytes, d: Tables)
    ensures Decode([marker] + t, d) == DecodeBody(marker, t, d)
  {
    assert ([marker] + t)[1..] == t;
  }

  lemma ArrayForm(items: seq<Item>, rest: bytes)
    requires Fits(ArrayItem(items))
    ensures Encode(ArrayItem(items)) + rest ==
            [0x09] + (EncU29(|items| * 2 + 1) + (EncUtf8([]) + (EncodeAll(items) + rest)))
  {
    ArrayBytes(items, EncU29(|items| * 2 + 1), EncUtf8([]), EncodeAll(items), rest);
  }

  lemma ArrayBytes(items: seq<Item>, a: bytes, b: bytes, c: bytes, rest: bytes)
    requires Fits(ArrayItem(items)) && a == EncU29(|items| * 2 + 1) && b == EncUtf8([]) && c == EncodeAll(items)
    ensures Encode(ArrayItem(items)) + rest == [0x09] + (a + (b + (c + rest)))
  {
    hide EncU29, EncUtf8, EncodeAll, Fits;
    Regroup([0x09], a, b, c, rest);
  }

  lemma ObjectForm(typed: bool, name: bytes, props: seq<Prop>, rest: bytes)
    requires Fits(ObjectItem(typed, name, props))
    ensures Encode(ObjectItem(typed, name, props)) + rest ==
            [0x0a] + (EncU29(|props| * 16 + 3) + (EncUtf8(name) + (EncodeKeys(props) + (EncodeValues(props) + rest))))
  {
    ObjectBytes(typed, name, props, EncU29(|props| * 16 + 3), EncUtf8(name), EncodeKeys(props), EncodeValues(props),
        rest);
  }

  lemma ObjectBytes(typed: bool, name: bytes, props: seq<Prop>, u: bytes, n: bytes, k: bytes, v: bytes, rest: bytes)
    requires Fits(ObjectItem(typed, name, props)) && u == EncU29(|props| * 16 + 3) && n == EncUtf8(name)
    requires k == EncodeKeys(props) && v == EncodeValues(props)
    ensures Encode(ObjectItem(typed, name, props)) + rest == [0x0a] + (u + (n + (k + (v + rest))))
  {
    hide EncU29, EncUtf8, EncodeKeys, EncodeValues, Fits;
    ConcatAssoc([0x0a] + u + n + k, v, rest);
    Regroup([0x0a], u, n, k, v + rest);
  }

  lemma Regroup(a: bytes, b: bytes, c: bytes, e: bytes, f: bytes)
    ensures a + b + c + e + f == a + (b + (c + (e + f)))
  {
  }

  lemma {:induction false} DecodeEncode(o: Item, rest: bytes, d: Tables)
    requires Fits(o)
    ensures Reads(Decode(Encode(o) + rest, d), o, rest)
    decreases o, 2
  {
    hide Decode, DecodeObject, DecodeArray, DecString, DecU29, EncU29, EncUtf8;
    match o {
      case NullItem => Marked(1, rest, d);
      case BooleanItem(b) => Marked(if b then 3 else 2, rest, d);
      case IntegerItem(n) =>
        ConcatAssoc([0x04], EncU29(n), rest);
        Marked(4, EncU29(n) + rest, d);
        U29Reads(n, rest);
      case DoubleItem(bits) =>
        ConcatAssoc([0x05], bits, rest);
        Marked(5, bits + rest, d);
        assert (bits + rest)[..8] == bits && (bits + rest)[8..] == rest;
      case StrItem(s) =>
        ConcatAssoc([0x06], EncUtf8(s), rest);
        Marked(6, EncUtf8(s) + rest, d);
        Utf8Reads(s, rest, d);
      case ArrayItem(items) =>
        var t := EncU29(|items| * 2 + 1) + (EncUtf8([]) + (EncodeAll(items) + rest));
        ArrayForm(items, rest);
        Marked(9, t, d);
        ArrayReads(items, rest, d);
      case ObjectItem(typed, name, props) =>
        var t := EncU29(|props| * 16 + 3) + (EncUtf8(name) + (EncodeKeys(props) + (EncodeValues(props) + rest)));
        ObjectForm(typed, name, props, rest);
        Marked(10, t, d);
        ObjectReads(typed, name, props, rest, d);
    }
  }

  lemma {:induction false} ArrayReads(items: seq<Item>, rest: bytes, d: Tables)
    requires Fits(ArrayItem(items))
    ensures var t := EncU29(|items| * 2 + 1) + (EncUtf8([]) + (EncodeAll(items) + rest));
            Reads(DecodeArray(t, d), ArrayItem(items), rest)
    decreases items, 1
  {
    hide Decode, DecString, DecU29, Encode, EncU29, EncUtf8;
    var t1 := EncodeAll(items) + rest;
    U29Reads(|items| * 2 + 1, EncUtf8([]) + t1);
    assert (|items| * 2 + 1) / 2 == |items| && (|items| * 2 + 1) % 2 == 1;
    Utf8Reads([], t1, d);
    assert [] + t1 == t1;
    if t1 != [] {
      ElemsRead(items, rest, d);
    } else {
      NonEmptyAll(items);
    }
  }

  lemma NonEmptyAll(items: seq<Item>)
    requires forall x <- items :: Fits(x)
    ensures items != [] ==> EncodeAll(items) != []
  {
    hide Encode;
  }

  lemma {:induction false} ElemsRead(items: seq<Item>, rest: bytes, d: Tables)
    requires forall x <- items :: Fits(x)
    ensures var r := DecodeElems(EncodeAll(items) + rest, d, |items|);
            if rest == [] && items != [] && EndsEmpty(items[|items| - 1]) then r == Failed
            else r.Got? && r.value.v == PlainAll(items, false) && r.value.rest == rest
    decreases items, 0
  {
    hide Decode, Encode, Plain, EndsEmpty;
    if items == [] {
      assert EncodeAll(items) + rest == rest;
    } else {
      var more := EncodeAll(items[1..]) + rest;
      ConcatAssoc(Encode(items[0]), EncodeAll(items[1..]), rest);
      DecodeEncode(items[0], more, d);
      var r := Decode(Encode(items[0]) + more, d);
      NonEmptyAll(items[1..]);
      if |items| > 1 { assert items[1..][|items| - 2] == items[|items| - 1]; }
      if r.Got? { ElemsRead(items[1..], rest, r.value.d); }
    }
  }

  lemma NonEmptyValues(props: seq<Prop>)
    requires forall p <- props :: Fits(p.item)
    ensures props != [] ==> EncodeValues(props) != []
  {
    hide Encode;
  }

  lemma TraitBits(n: nat)
    ensures var u := n * 16 + 3; u % 2 == 1 && u / 2 % 2 == 1 && u / 4 % 2 == 0 && u / 8 % 2 == 0 && u / 16 == n
  {
  }

  lemma {:induction false} ObjectReads(typed: bool, name: bytes, props: seq<Prop>, rest: bytes, d: Tables)
    requires Fits(ObjectItem(typed, name, props))
    ensures var t := EncU29(|props| * 16 + 3) + (EncUtf8(name) + (EncodeKeys(props) + (EncodeValues(props) + rest)));
            Reads(DecodeObject(t, d), ObjectItem(typed, name, props), rest)
    decreases props, 1
  {
    hide Decode, DecString, DecU29, Encode, EncU29, EncUtf8, DecTrait;
    var u := |props| * 16 + 3;
    var t2 := EncodeValues(props) + rest;
    var t1 := EncUtf8(name) + (EncodeKeys(props) + t2);
    U29Reads(u, t1);
    TraitBits(|props|);
    NonEmptyValues(props);
    TraitReads(name, props, t2, d);
    var tr := DecTrait(u, t1, d);
    if tr.Got? {
      var d1 := tr.value.d.(objects := tr.value.d.objects + [Null]);
      FieldsRead(props, rest, d1, map[]);
    }
  }

  /** The traits read back: class name, no flags, and the property names. */
  lemma TraitReads(name: bytes, props: seq<Prop>, t2: bytes, d: Tables)
    requires |name| < LENGTH_MAX && forall p <- props :: |p.key| < LENGTH_MAX
    requires props != [] ==> t2 != []
    ensures var r := DecTrait(|props| * 16 + 3, EncUtf8(name) + (EncodeKeys(props) + t2), d);
            if props == [] && name == [] && t2 == [] then r == Failed
            else r.Got? && r.value.v == Trait(name, false, false, Keys(props)) && r.value.rest == t2
  {
    hide DecString, EncUtf8, DecStrings, EncodeKeys, Keys, DecTrait;
    var u, t1 := |props| * 16 + 3, EncodeKeys(props) + t2;
    TraitBits(|props|);
    Utf8Reads(name, t1, d);
    KeysFollow(props, t2);
    NotAllEmpty(name, EncodeKeys(props), t2);
    TraitSteps(u, EncUtf8(name) + t1, d);
    if name + t1 != [] {
      var d1 := KeysEnd(props, t2, Remember(d, name));
    }
  }

  /** Spelled-out traits without flags: a name, then the property names. */
  lemma TraitSteps(u: nat, t: bytes, d: Tables)
    requires u / 2 % 2 == 1 && u / 4 % 2 == 0 && u / 8 % 2 == 0
    ensures var c := DecString(t, d);
            match c
            case Failed => DecTrait(u, t, d) == Failed
            case Panicked => DecTrait(u, t, d) == Panicked
            case Got(k) =>
              var ks := DecStrings(k.rest, k.d, u / 16);
              ks.Got? ==>
                var r := DecTrait(u, t, d);
                r.Got? && r.value.v == Trait(k.v, false, false, ks.value.v) && r.value.rest == ks.value.rest
  {
    hide DecString, DecStrings;
  }

  lemma NotAllEmpty(a: bytes, b: bytes, c: bytes)
    ensures a + (b + c) == [] <==> a == [] && b == [] && c == []
  {
    assert |a + (b + c)| == |a| + |b| + |c|;
  }

  lemma KeysFollow(props: seq<Prop>, t2: bytes)
    requires forall p <- props :: |p.key| < LENGTH_MAX
    ensures props == [] ==> EncodeKeys(props) == []
    ensures props != [] ==> EncodeKeys(props) != []
  {
  }

  lemma KeysEnd(props: seq<Prop>, t2: bytes, d: Tables) returns (d1: Tables)
    requires forall p <- props :: |p.key| < LENGTH_MAX
    requires props != [] ==> t2 != []
    ensures DecStrings(EncodeKeys(props) + t2, d, |props|) == Got(Done(Keys(props), t2, d1))
  {
    hide DecString, EncUtf8;
    if props == [] {
      assert EncodeKeys(props) + t2 == t2;
      d1 := d;
    } else {
      d1 := KeysRead(props, t2, d);
    }
  }

  lemma {:induction false} FieldsRead(props: seq<Prop>, rest: bytes, d: Tables, m: map<bytes, Value>)
    requires forall p <- props :: Fits(p.item)
    ensures var r := DecodeFields(EncodeValues(props) + rest, d, Keys(props), m);
            if rest == [] && props != [] && EndsEmpty(props[|props| - 1].item) then r == Failed
            else r.Got? && r.value.v == PlainProps(props, m, false) && r.value.rest == rest
    decreases props, 0
  {
    hide Decode, Encode, Plain, EndsEmpty;
    if props == [] {
      assert EncodeValues(props) + rest == rest;
    } else {
      var p, more := props[0], EncodeValues(props[1..]) + rest;
      ConcatAssoc(Encode(p.item), EncodeValues(props[1..]), rest);
      DecodeEncode(p.item, more, d);
      var r := Decode(Encode(p.item) + more, d);
      NonEmptyValues(props[1..]);
      if |props| > 1 { assert props[1..][|props| - 2] == props[|props| - 1]; }
      if r.Got? { FieldsRead(props[1..], rest, r.value.d, m[p.key := Plain(p.item, false)]); }
    }
  }

  // ---------- exactly when the value survives ----------

  /** Integers below 2^28 and no class names: what reading back does not change. */
  predicate Faithful(o: Item)
  {
    match o
    case IntegerItem(n) => n < LENGTH_MAX
    case ArrayItem(items) => forall x <- items :: Faithful(x)
    case ObjectItem(typed, _, props) => !typed && forall p <- props :: Faithful(p.item)
    case _ => true
  }

  predicate NoRepeats(props: seq<Prop>) { forall i, j :: 0 <= i < j < |props| ==> props[i].key != props[j].key }

  /** Property lists that come from a map repeat no key. */
  predicate Distinct(o: Item)
  {
    match o
    case ObjectItem(_, _, props) => NoRepeats(props) && forall p <- props :: Distinct(p.item)
    case ArrayItem(items) => forall x <- items :: Distinct(x)
    case _ => true
  }

  lemma {:induction false} FaithfulIff(o: Item)
    requires Distinct(o)
    ensures Plain(o, false) == Plain(o, true) <==> Faithful(o)
    decreases o, 1
  {
    match o {
      case ArrayItem(items) => AllFaithfulIff(items);
      case ObjectItem(_, _, props) => PropsFaithfulIff(props, map[], map[]);
      case _ =>
    }
  }

  lemma {:induction false} AllFaithfulIff(items: seq<Item>)
    requires forall x <- items :: Distinct(x)
    ensures PlainAll(items, false) == PlainAll(items, true) <==> forall x <- items :: Faithful(x)
    decreases items, 0
  {
    hide Plain, Faithful, Distinct;
    if items != [] {
      FaithfulIff(items[0]);
      AllFaithfulIff(items[1..]);
      var a, b := PlainAll(items, false), PlainAll(items, true);
      assert a[1..] == PlainAll(items[1..], false) && b[1..] == PlainAll(items[1..], true);
      assert a == b <==> a[0] == b[0] && a[1..] == b[1..] by {
        if a[0] == b[0] && a[1..] == b[1..] { assert a == [a[0]] + a[1..] && b == [b[0]] + b[1..]; }
      }
      assert forall x :: x in items <==> x == items[0] || x in items[1..];
    }
  }

  lemma {:induction false} PropsFaithfulIff(props: seq<Prop>, m: map<bytes, Value>, n: map<bytes, Value>)
    requires NoRepeats(props) && forall p <- props :: Distinct(p.item)
    requires forall p <- props :: p.key !in m && p.key !in n
    ensures PlainProps(props, m, false) == PlainProps(props, n, true) <==>
            m == n && forall p <- props :: Faithful(p.item)
    decreases props, 0
  {
    hide Plain, Faithful, Distinct;
    if props != [] {
      var p := props[0];
      var x, y := Plain(p.item, false), Plain(p.item, true);
      var m1, n1 := m[p.key := x], n[p.key := y];
      FaithfulIff(p.item);
      SameUpdate(m, n, p.key, x, y);
      forall q | q in props[1..] ensures q.key !in m1 && q.key !in n1 {
        var i :| 0 <= i < |props| - 1 && props[1..][i] == q;
        assert props[i + 1] == q && props[0].key != props[i + 1].key;
      }
      PropsFaithfulIff(props[1..], m1, n1);
      assert forall q :: q in props <==> q == p || q in props[1..];
    }
  }

  lemma SameUpdate(m: map<bytes, Value>, n: map<bytes, Value>, k: bytes, x: Value, y: Value)
    requires k !in m && k !in n
    ensures m[k := x] == n[k := y] <==> m == n && x == y
  {
    if m[k := x] == n[k := y] {
      assert m[k := x][k] == x;
      assert m == m[k := x] - {k} && n == n[k := y] - {k};
    }
  }

  /** The codec's law, exactly, from any reference tables. */
  lemma RoundTripIff(o: Item, rest: bytes, d: Tables)
    requires Fits(o) && Distinct(o)
    ensures var r := Decode(Encode(o) + rest, d);
            (r.Got? && r.value.v == Plain(o, true) && r.value.rest == rest)
            <==> Faithful(o) && (rest != [] || !EndsEmpty(o))
  {
    hide Decode, Encode, Plain, EndsEmpty;
    DecodeEncode(o, rest, d);
    FaithfulIff(o);
  }
}
