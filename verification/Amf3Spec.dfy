/**
 * AMF 3 (specification, section 1.3.1 for the 29-bit integers): what the encoder writes, and what
 * the decoder makes of any bytes with any reference tables.
 */
module Amf3Spec {
  import opened Bytes

  datatype Value =
    | Null
    | Boolean(b: bool)
    | Integer(n: int)
    | Double(bits: bytes)
    | Str(s: bytes)
    | Array(elems: seq<Value>)
    | Object(m: map<bytes, Value>)
    | Typed(name: bytes, fields: map<bytes, Value>)

  /** A value with its objects' properties in the order in which they are written. */
  datatype Item =
    | NullItem
    | BooleanItem(b: bool)
    | IntegerItem(n: nat)
    | DoubleItem(bits: bytes)
    | StrItem(s: bytes)
    | ArrayItem(items: seq<Item>)
    | ObjectItem(typed: bool, name: bytes, props: seq<Prop>)

  datatype Prop = Prop(key: bytes, item: Item)

  const U29: nat := 0x2000_0000        // 2^29
  const LENGTH_MAX: nat := 0x1000_0000 // 2^28
  const PROPS_MAX: nat := 0x200_0000   // 2^25

  // ---------- meaning ----------

  /** The value an item stands for, with integers and types as written (`exact`) or as read back. */
  function Plain(o: Item, exact: bool): Value
  {
    match o
    case NullItem => Null
    case BooleanItem(b) => Boolean(b)
    case IntegerItem(n) => Integer(if exact then n else Signed(n))
    case DoubleItem(bits) => Double(bits)
    case StrItem(s) => Str(s)
    case ArrayItem(items) => Array(PlainAll(items, exact))
    case ObjectItem(typed, name, props) =>
      var m := PlainProps(props, map[], exact);
      if typed && exact then Typed(name, m) else Object(m)
  }

  function PlainProps(props: seq<Prop>, m: map<bytes, Value>, exact: bool): map<bytes, Value>
  {
    if props == [] then m else PlainProps(props[1..], m[props[0].key := Plain(props[0].item, exact)], exact)
  }

  function PlainAll(items: seq<Item>, exact: bool): (vs: seq<Value>)
    ensures |vs| == |items|
  {
    if items == [] then [] else [Plain(items[0], exact)] + PlainAll(items[1..], exact)
  }

  /** How the decoder reads a 29-bit integer: the upper half is negative. */
  function Signed(n: nat): int { if n > 0xfff_ffff then n - U29 else n }

  // ---------- encoding ----------

  /** Seven bits to a byte with a continuation bit; the fourth byte carries eight. */
  function EncU29(v: nat): (r: bytes)
    requires v < U29
    ensures r != []
  {
    if v <= 0x7f then [v]
    else if v <= 0x3fff then [v / 0x80 + 0x80, v % 0x80]
    else if v <= 0x1f_ffff then [v / 0x4000 + 0x80, v / 0x80 % 0x80 + 0x80, v % 0x80]
    else [v / 0x40_0000 + 0x80, v / 0x8000 % 0x80 + 0x80, v / 0x100 % 0x80 + 0x80, v % 0x100]
  }

  function EncUtf8(s: bytes): bytes
    requires |s| < LENGTH_MAX
  {
    EncU29(|s| * 2 + 1) + s
  }

  /** Lengths fit a 29-bit header and integers 29 bits; otherwise the encoder reports an error. */
  predicate Fits(o: Item)
  {
    match o
    case IntegerItem(n) => n < U29
    case DoubleItem(bits) => |bits| == 8
    case StrItem(s) => |s| < LENGTH_MAX
    case ArrayItem(items) => |items| < LENGTH_MAX && forall x <- items :: Fits(x)
    case ObjectItem(_, name, props) =>
      |name| < LENGTH_MAX && |props| < PROPS_MAX && forall p <- props :: |p.key| < LENGTH_MAX && Fits(p.item)
    case _ => true
  }

  function Encode(o: Item): (r: bytes)
    requires Fits(o)
    ensures r != []
  {
    match o
    case NullItem => [0x01]
    case BooleanItem(b) => [if b then 0x03 else 0x02]
    case IntegerItem(n) => [0x04] + EncU29(n)
    case DoubleItem(bits) => [0x05] + bits
    case StrItem(s) => [0x06] + EncUtf8(s)
    case ArrayItem(items) => [0x09] + EncU29(|items| * 2 + 1) + EncUtf8([]) + EncodeAll(items)
    case ObjectItem(_, name, props) =>
      [0x0a] + EncU29(|props| * 16 + 3) + EncUtf8(name) + EncodeKeys(props) + EncodeValues(props)
  }

  function EncodeAll(items: seq<Item>): bytes
    requires forall x <- items :: Fits(x)
  {
    if items == [] then [] else Encode(items[0]) + EncodeAll(items[1..])
  }

  function EncodeKeys(props: seq<Prop>): bytes
    requires forall p <- props :: |p.key| < LENGTH_MAX
  {
    if props == [] then [] else EncUtf8(props[0].key) + EncodeKeys(props[1..])
  }

  function EncodeValues(props: seq<Prop>): bytes
    requires forall p <- props :: Fits(p.item)
  {
    if props == [] then [] else Encode(props[0].item) + EncodeValues(props[1..])
  }

  // ---------- decoding ----------

  datatype Trait = Trait(name: bytes, externalizable: bool, dynamic: bool, properties: seq<bytes>)

  /** The decoder's reference tables. */
  datatype Tables = Tables(strings: seq<bytes>, objects: seq<Value>, traits: seq<Trait>)

  datatype Done<T> = Done(v: T, rest: bytes, d: Tables)

  /** An error, an index past the end of a reference table, or a result. */
  datatype Outcome<T> = Failed | Panicked | Got(value: T)
  {
    predicate IsFailure() { !Got? }

    function PropagateFailure<U>(): Outcome<U>
      requires IsFailure()
    {
      if Failed? then Failed else Panicked
    }

    function Extract(): T
      requires Got?
    {
      value
    }
  }

  function DecU29(s: bytes): (r: Outcome<(nat, bytes)>)
    ensures r.Got? ==> |r.value.1| < |s|
    ensures !r.Panicked?
  {
    if s == [] then Failed
    else
      var b0: nat := s[0];
      if b0 < 0x80 then Got((b0, s[1..]))
      else if |s| < 2 then Failed
      else
        var b1: nat := s[1];
        var r1 := b0 % 0x80 * 0x80 + b1 % 0x80;
        if b1 < 0x80 then Got((r1, s[2..]))
        else if |s| < 3 then Failed
        else
          var b2: nat := s[2];
          var r2 := r1 * 0x80 + b2 % 0x80;
          if b2 < 0x80 then Got((r2, s[3..]))
          else if |s| < 4 then Failed
          else var b3: nat := s[3]; Got((r2 * 0x100 + b3, s[4..]))
  }

  /** One read of n bytes: fails at the end of the input, and pads a short one with zeros. */
  function ReadSome(s: bytes, n: nat): (r: Outcome<(bytes, bytes)>)
    ensures r.Got? ==> |r.value.1| <= |s| && |r.value.0| == n
  {
    if s == [] then Failed
    else if |s| < n then Got((s + seq(n - |s|, _ => 0), []))
    else Got((s[..n], s[n..]))
  }

  /** The entry a reference stands for. */
  function Entry<T>(table: seq<T>, k: nat): Outcome<T> { if k < |table| then Got(table[k]) else Panicked }

  function DecString(s: bytes, d: Tables): (r: Outcome<Done<bytes>>)
    ensures r.Got? ==> |r.value.rest| < |s|
  {
    var (u, t) :- DecU29(s);
    if u % 2 == 0 then
      var b :- Entry(d.strings, u / 2);
      Got(Done(b, t, d))
    else
      var (b, t1) :- ReadSome(t, u / 2);
      Got(Done(b, t1, if b == [] then d else d.(strings := d.strings + [b])))
  }

  /** A number of strings in a row. */
  function DecStrings(s: bytes, d: Tables, n: nat): (r: Outcome<Done<seq<bytes>>>)
    ensures r.Got? ==> |r.value.rest| <= |s| && |r.value.v| == n
    decreases n
  {
    if n == 0 then Got(Done([], s, d))
    else
      var k :- DecString(s, d);
      var ks :- DecStrings(k.rest, k.d, n - 1);
      Got(ks.(v := [k.v] + ks.v))
  }

  /** Dates, XML, byte arrays and externalizable objects are not modelled: they fail here. */
  function Decode(s: bytes, d: Tables): (r: Outcome<Done<Value>>)
    ensures r.Got? ==> |r.value.rest| < |s|
    decreases |s|, 0
  {
    if s == [] then Failed else DecodeBody(s[0], s[1..], d)
  }

  function DecodeBody(marker: u8, t: bytes, d: Tables): (r: Outcome<Done<Value>>)
    ensures r.Got? ==> |r.value.rest| <= |t|
    decreases |t|, 3
  {
    if marker == 0x00 || marker == 0x01 then Got(Done(Null, t, d))
    else if marker == 0x02 || marker == 0x03 then Got(Done(Boolean(marker == 0x03), t, d))
    else if marker == 0x04 then
      var (u, t1) :- DecU29(t);
      Got(Done(Integer(Signed(u)), t1, d))
    else if marker == 0x05 then
      if |t| < 8 then Failed else Got(Done(Double(t[..8]), t[8..], d))
    else if marker == 0x06 then
      var r :- DecString(t, d);
      Got(Done(Str(r.v), r.rest, r.d))
    else if marker == 0x09 then DecodeArray(t, d)
    else if marker == 0x0a then DecodeObject(t, d)
    else Failed
  }

  function DecodeArray(t: bytes, d: Tables): (r: Outcome<Done<Value>>)
    ensures r.Got? ==> |r.value.rest| < |t|
    decreases |t|, 2
  {
    var (u, t1) :- DecU29(t);
    if u % 2 == 0 then
      var o :- Entry(d.objects, u / 4);
      if o.Array? then Got(Done(o, t1, d)) else Failed
    else
      var k :- DecString(t1, d);
      if k.v != [] then Failed
      else
        var es :- DecodeElems(k.rest, k.d, u / 2);
        Got(Done(Array(es.v), es.rest, es.d.(objects := es.d.objects + [Array(es.v)])))
  }

  function DecodeElems(s: bytes, d: Tables, n: nat): (r: Outcome<Done<seq<Value>>>)
    ensures r.Got? ==> |r.value.rest| <= |s|
    decreases |s|, 1, n
  {
    if n == 0 then Got(Done([], s, d))
    else
      var v :- Decode(s, d);
      var es :- DecodeElems(v.rest, v.d, n - 1);
      Got(es.(v := [v.v] + es.v))
  }

  /** The traits of an object: from the table, or spelled out and then added to it. */
  function DecTrait(u: nat, t: bytes, d: Tables): (r: Outcome<Done<Trait>>)
    ensures r.Got? ==> |r.value.rest| <= |t|
  {
    if u / 2 % 2 == 0 then
      var trait_ :- Entry(d.traits, u / 4);
      Got(Done(trait_, t, d))
    else
      var c :- DecString(t, d);
      var ks :- DecStrings(c.rest, c.d, u / 16);
      var trait_ := Trait(c.v, u / 4 % 2 == 1, u / 8 % 2 == 1, ks.v);
      Got(Done(trait_, ks.rest, ks.d.(traits := ks.d.traits + [trait_])))
  }

  /** The object is put into the table as null, before its properties are read. */
  function DecodeObject(t: bytes, d: Tables): (r: Outcome<Done<Value>>)
    ensures r.Got? ==> |r.value.rest| < |t|
    decreases |t|, 2
  {
    var (u, t1) :- DecU29(t);
    if u % 2 == 0 then
      var o :- Entry(d.objects, u / 4);
      Got(Done(o, t1, d))
    else
      var tr :- DecTrait(u, t1, d);
      if tr.v.externalizable then Failed
      else
        var f :- DecodeFields(tr.rest, tr.d.(objects := tr.d.objects + [Null]), tr.v.properties, map[]);
        if !tr.v.dynamic then Got(Done(Object(f.v), f.rest, f.d))
        else
          var g :- DecodeDynamic(f.rest, f.d, f.v);
          Got(Done(Object(g.v), g.rest, g.d))
  }

  function DecodeFields(s: bytes, d: Tables, keys: seq<bytes>, m: map<bytes, Value>)
    : (r: Outcome<Done<map<bytes, Value>>>)
    ensures r.Got? ==> |r.value.rest| <= |s|
    decreases |s|, 1, |keys|
  {
    if keys == [] then Got(Done(m, s, d))
    else
      var v :- Decode(s, d);
      DecodeFields(v.rest, v.d, keys[1..], m[keys[0] := v.v])
  }

  function DecodeDynamic(s: bytes, d: Tables, m: map<bytes, Value>): (r: Outcome<Done<map<bytes, Value>>>)
    ensures r.Got? ==> |r.value.rest| <= |s|
    decreases |s|, 1, 0
  {
    var k :- DecString(s, d);
    if k.v == [] then Got(Done(m, k.rest, k.d))
    else
      var v :- Decode(k.rest, k.d);
      DecodeDynamic(v.rest, v.d, m[k.v := v.v])
  }
}
