/**
 * AMF 0 values, the bytes the encoder writes for them and what the decoder makes of any bytes
 * (AMF 0 specification, section 2).
 */
module Amf0Spec {
  import opened Bytes
  import opened Options

  /** A decoded or to-be-encoded value. Numbers are eight opaque bytes; undefined reads as null. */
  datatype Value =
    | Number(bits: bytes)
    | Boolean(b: bool)
    | Str(s: bytes)
    | Null
    | Object(m: map<bytes, Value>)
    | Array(elems: seq<Value>)
    | Typed(name: bytes, fields: map<bytes, Value>)

  /** A value with its objects' properties in the order the encoder meets them. */
  datatype Item =
    | NumberItem(bits: bytes)
    | BooleanItem(b: bool)
    | StrItem(s: bytes)
    | NullItem
    | ObjectItem(props: seq<Prop>)
    | ArrayItem(items: seq<Item>)

  datatype Prop = Prop(key: bytes, item: Item)

  // ---------- what an ordered value means ----------

  function Plain(o: Item): Value
  {
    match o
    case NumberItem(bits) => Number(bits)
    case BooleanItem(b) => Boolean(b)
    case StrItem(s) => Str(s)
    case NullItem => Null
    case ObjectItem(props) => Object(PlainProps(props, map[]))
    case ArrayItem(items) => Array(PlainAll(items))
  }

  function PlainProps(props: seq<Prop>, m: map<bytes, Value>): map<bytes, Value>
  {
    if props == [] then m else PlainProps(props[1..], m[props[0].key := Plain(props[0].item)])
  }

  function PlainAll(items: seq<Item>): (vs: seq<Value>)
    ensures |vs| == |items|
  {
    if items == [] then [] else [Plain(items[0])] + PlainAll(items[1..])
  }

  // ---------- encoding ----------

  const STRING_MAX: nat := 65535

  /** Length in two bytes, then the bytes; a longer string's length is cut to its low 16 bits. */
  function EncString(s: bytes): bytes { BE(|s|, 2) + s }

  function Encode(o: Item): (r: bytes)
    ensures r != []
  {
    match o
    case NumberItem(bits) => [0x00] + bits
    case BooleanItem(b) => [0x01, if b then 1 else 0]
    case StrItem(s) => if |s| <= STRING_MAX then [0x02] + EncString(s) else [0x0c] + BE(|s|, 4) + s
    case NullItem => [0x05]
    case ObjectItem(props) => [0x03] + EncodeProps(props) + [0, 0, 9]
    case ArrayItem(items) => [0x0a] + BE(|items|, 4) + EncodeAll(items)
  }

  function EncodeProps(props: seq<Prop>): bytes
  {
    if props == [] then [] else EncString(props[0].key) + Encode(props[0].item) + EncodeProps(props[1..])
  }

  function EncodeAll(items: seq<Item>): bytes
  {
    if items == [] then [] else Encode(items[0]) + EncodeAll(items[1..])
  }

  // ---------- decoding ----------

  /** A reading step: a result or an error, and the input that is left. */
  datatype Step<T> = Step(v: Option<T>, rest: bytes)

  /** Exactly n bytes; a short input is used up. */
  function ReadFull(s: bytes, n: nat): (r: Step<bytes>)
    ensures r.v.Some? ==> |r.v.value| == n && |r.rest| == |s| - n
    ensures |r.rest| <= |s|
  {
    if |s| < n then Step(None, []) else Step(Some(s[..n]), s[n..])
  }

  /** One read of n bytes: at the end of the input it fails even for n == 0. */
  function ReadBytes(s: bytes, n: nat): (r: Step<bytes>)
    ensures r.v.Some? ==> |r.v.value| == n && |r.rest| == |s| - n
    ensures |r.rest| <= |s|
  {
    if s == [] then Step(None, []) else ReadFull(s, n)
  }

  function DecodeString(s: bytes, width: nat): (r: Step<bytes>)
    ensures r.v.Some? ==> |r.rest| <= |s| - width
    ensures |r.rest| <= |s|
  {
    var n := ReadFull(s, width);
    if n.v.None? then Step(None, n.rest) else ReadBytes(n.rest, FromBE(n.v.value))
  }

  function Wrap<T, U>(r: Step<T>, f: T -> U): Step<U>
  {
    Step(if r.v.Some? then Some(f(r.v.value)) else None, r.rest)
  }

  function Decode(s: bytes): (r: Step<Value>)
    ensures |r.rest| <= |s|
    ensures r.v.Some? ==> |r.rest| < |s|
    decreases |s|, 0
  {
    var m := ReadBytes(s, 1);
    if m.v.None? then Step(None, m.rest) else DecodeBody(m.v.value[0], m.rest)
  }

  /** The value behind a marker; the markers without a case here are refused. */
  function DecodeBody(marker: u8, t: bytes): (r: Step<Value>)
    ensures |r.rest| <= |t|
    decreases |t|, 2
  {
    if marker == 0x00 then Wrap(ReadFull(t, 8), b => Number(b))
    else if marker == 0x01 then
      var b := ReadBytes(t, 1);
      if b.v.None? || b.v.value[0] > 1 then Step(None, b.rest) else Step(Some(Boolean(b.v.value[0] == 1)), b.rest)
    else if marker == 0x02 then Wrap(DecodeString(t, 2), b => Str(b))
    else if marker == 0x03 then Wrap(DecodeProps(t, map[]), p => Object(p))
    else if marker == 0x05 || marker == 0x06 || marker == 0x0d then Step(Some(Null), t)
    else if marker == 0x08 then Wrap(DecodeProps(ReadFull(t, 4).rest, map[]), p => Object(p))
    else if marker == 0x0a then
      var n := ReadFull(t, 4);
      if n.v.None? then Step(None, n.rest) else Wrap(DecodeElems(n.rest, FromBE(n.v.value)), es => Array(es))
    else if marker == 0x0b then
      var d := ReadFull(t, 8);
      if d.v.None? then Step(None, d.rest) else Wrap(ReadBytes(d.rest, 2), _ => Number(d.v.value))
    else if marker == 0x0c || marker == 0x0f then Wrap(DecodeString(t, 4), b => Str(b))
    else if marker == 0x10 then
      var name := DecodeString(t, 2);
      if name.v.None? then Step(None, name.rest)
      else Wrap(DecodeProps(name.rest, map[]), p => Typed(name.v.value, p))
    else Step(None, t)
  }

  /** Key and value pairs up to an empty key, which the end marker must follow. */
  function DecodeProps(s: bytes, m: map<bytes, Value>): (r: Step<map<bytes, Value>>)
    ensures |r.rest| <= |s|
    ensures r.v.Some? ==> |r.rest| < |s|
    decreases |s|, 1
  {
    var k := DecodeString(s, 2);
    if k.v.None? then Step(None, k.rest)
    else if k.v.value == [] then
      var e := ReadBytes(k.rest, 1);
      if e.v.None? || e.v.value[0] != 0x09 then Step(None, e.rest) else Step(Some(m), e.rest)
    else
      var v := Decode(k.rest);
      if v.v.None? then Step(None, v.rest) else DecodeProps(v.rest, m[k.v.value := v.v.value])
  }

  function DecodeElems(s: bytes, n: nat): (r: Step<seq<Value>>)
    ensures |r.rest| <= |s|
    ensures r.v.Some? ==> |r.v.value| == n
    decreases |s|, 1, n
  {
    if n == 0 then Step(Some([]), s)
    else
      var v := Decode(s);
      if v.v.None? then Step(None, v.rest)
      else Wrap(DecodeElems(v.rest, n - 1), es => [v.v.value] + es)
  }

  /** Values until the first error, and the input left then. */
  function DecodeBatch(s: bytes): (r: (seq<Value>, bytes))
    decreases |s|
  {
    var v := Decode(s);
    if v.v.None? then ([], v.rest)
    else var (vs, rest) := DecodeBatch(v.rest); ([v.v.value] + vs, rest)
  }
}
