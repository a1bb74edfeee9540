/** The AMF 3 encoder and decoder as they run. */
module Amf3Codec {
  import opened Bytes
  import opened Options
  import opened Buffers
  import opened Amf3Spec
  import opened Amf3Theorems
  import Amf0Codec

  type Reader = Amf0Codec.Reader

  // ---------- sorted keys ----------

  /** Byte order of strings. */
  predicate Less(a: bytes, b: bytes)
  {
    b != [] && (a == [] || a[0] < b[0] || (a[0] == b[0] && Less(a[1..], b[1..])))
  }

  lemma {:induction false} LessTotal(a: bytes, b: bytes)
    ensures a == b || Less(a, b) || Less(b, a)
    ensures !(Less(a, b) && Less(b, a)) && !Less(a, a)
    decreases |a| + |b|
  {
    if a != [] && b != [] {
      LessTotal(a[1..], b[1..]);
      if a[0] == b[0] && a[1..] == b[1..] { assert a == [a[0]] + a[1..] && b == [b[0]] + b[1..]; }
    }
    if a != [] { LessIrreflexive(a); }
  }

  lemma {:induction false} LessIrreflexive(a: bytes)
    ensures !Less(a, a)
  {
    if a != [] { LessIrreflexive(a[1..]); }
  }

  lemma {:induction false} LessTrans(a: bytes, b: bytes, c: bytes)
    requires Less(a, b) && Less(b, c)
    ensures Less(a, c)
  {
    if a != [] && a[0] == b[0] && b[0] == c[0] { LessTrans(a[1..], b[1..], c[1..]); }
  }

  lemma Smallest(s: set<bytes>) returns (k: bytes)
    requires s != {}
    ensures k in s && forall j <- s :: j == k || Less(k, j)
  {
    k :| k in s;
    if s != {k} {
      var r := s - {k};
      var k1 := Smallest(r);
      LessTotal(k, k1);
      if Less(k1, k) {
        k := k1;
      } else {
        forall j | j in s && j != k ensures Less(k, j) {
          if j != k1 { LessTrans(k, k1, j); }
        }
      }
    }
  }

  predicate Sorted(ks: seq<bytes>) { forall i, j :: 0 <= i < j < |ks| ==> Less(ks[i], ks[j]) }

  /** All keys once, in byte order. */
  method SortedKeys(m: map<bytes, Value>) returns (ks: seq<bytes>)
    ensures Sorted(ks) && |ks| == |m| && forall k :: k in ks <==> k in m
  {
    ks := [];
    var left := m.Keys;
    while left != {}
      invariant left <= m.Keys && |ks| + |left| == |m|
      invariant forall k :: k in ks <==> k in m.Keys - left
      invariant Sorted(ks) && forall k, j :: k in ks && j in left ==> Less(k, j)
      decreases left
    {
      ghost var min := Smallest(left);
      var k :| k in left && forall j :: j in left ==> j == k || Less(k, j);
      ks := ks + [k];
      left := left - {k};
    }
  }

  /** There is only one sorted list of a set of keys: the encoding of an object is determined by it. */
  lemma {:induction false} SortedUnique(a: seq<bytes>, b: seq<bytes>)
    requires Sorted(a) && Sorted(b) && forall k :: k in a <==> k in b
    ensures a == b
    decreases |a|
  {
    hide Less;
    NoMembers(a);
    NoMembers(b);
    if a != [] {
      FirstIsLeast(b, a[0]);
      FirstIsLeast(a, b[0]);
      LessTotal(a[0], b[0]);
      forall k ensures k in a[1..] <==> k in b[1..] {
        TailMember(a, k);
        TailMember(b, k);
      }
      SortedUnique(a[1..], b[1..]);
      assert a == [a[0]] + a[1..] && b == [b[0]] + b[1..];
    }
  }

  lemma NoMembers(a: seq<bytes>)
    ensures a == [] <==> forall k :: k !in a
  {
    if a != [] { assert a[0] in a; }
  }

  lemma FirstIsLeast(a: seq<bytes>, k: bytes)
    requires Sorted(a) && k in a
    ensures k == a[0] || Less(a[0], k)
  {
    var i :| 0 <= i < |a| && a[i] == k;
  }

  lemma TailMember(a: seq<bytes>, k: bytes)
    requires Sorted(a) && a != []
    ensures k in a[1..] <==> k in a && k != a[0]
  {
    if k in a[1..] {
      var i :| 0 <= i < |a| - 1 && a[1..][i] == k;
      assert Less(a[0], a[i + 1]);
      LessIrreflexive(k);
    }
  }

  // ---------- encoder ----------

  /** What the router sends: an integer outside 0..2^29-1 goes as the double `dbl` gives for it. */
  function AsSent(v: Value, dbl: int -> bytes): Value
  {
    match v
    case Integer(n) => if 0 <= n < U29 then v else Double(dbl(n))
    case Array(es) => Array(seq(|es|, i requires 0 <= i < |es| => AsSent(es[i], dbl)))
    case Object(m) => Object(map k | k in m :: AsSent(m[k], dbl))
    case Typed(name, m) => Typed(name, map k | k in m :: AsSent(m[k], dbl))
    case _ => v
  }

  /** Every length fits its header. */
  predicate Encodable(v: Value)
  {
    match v
    case Str(s) => |s| < LENGTH_MAX
    case Array(es) => |es| < LENGTH_MAX && forall x <- es :: Encodable(x)
    case Object(m) => |m| < PROPS_MAX && forall k <- m :: |k| < LENGTH_MAX && Encodable(m[k])
    case Typed(name, m) =>
      |name| < LENGTH_MAX && |m| < PROPS_MAX && forall k <- m :: |k| < LENGTH_MAX && Encodable(m[k])
    case _ => true
  }

  /** No length reaches the 2^31 at which its doubling leaves 32 bits. */
  predicate Sized(v: Value)
  {
    match v
    case Str(s) => |s| < 0x8000_0000
    case Double(bits) => |bits| == 8
    case Array(es) => |es| < 0x8000_0000 && forall x <- es :: Sized(x)
    case Object(m) => |m| < 0x1000_0000 && forall k <- m :: |k| < 0x8000_0000 && Sized(m[k])
    case Typed(name, m) =>
      |name| < 0x8000_0000 && |m| < 0x1000_0000 && forall k <- m :: |k| < 0x8000_0000 && Sized(m[k])
    case _ => true
  }

  method EncodeU29(w: Buffer, v: nat) returns (n: nat, ok: bool)
    modifies w
    ensures ok == (v < U29)
    ensures ok ==> w.content == old(w.content) + EncU29(v) && n == |EncU29(v)|
  {
    n, ok := 0, true;
    if v <= 0x7f {
      w.Write([v]);
      n := 1;
    } else if v <= 0x3fff {
      w.Write([v / 0x80 + 0x80, v % 0x80]);
      n := 2;
    } else if v <= 0x1f_ffff {
      w.Write([v / 0x4000 + 0x80, v / 0x80 % 0x80 + 0x80, v % 0x80]);
      n := 3;
    } else if v <= 0x1fff_ffff {
      w.Write([v / 0x40_0000 + 0x80, v / 0x8000 % 0x80 + 0x80, v / 0x100 % 0x80 + 0x80, v % 0x100]);
      n := 4;
    } else {
      ok := false;
    }
  }

  method EncodeUtf8(w: Buffer, s: bytes) returns (n: nat, ok: bool)
    requires |s| < 0x8000_0000
    modifies w
    ensures ok == (|s| < LENGTH_MAX)
    ensures ok ==> w.content == old(w.content) + EncUtf8(s) && n == |EncUtf8(s)|
  {
    n, ok := EncodeU29(w, |s| * 2 + 1);
    if ok {
      w.Write(s);
      n := n + |s|;
    }
  }

  /** The one form of an item that the encoder writes: keys in byte order, no name without a type. */
  predicate Canonical(o: Item)
  {
    match o
    case ArrayItem(items) => forall x <- items :: Canonical(x)
    case ObjectItem(typed, name, props) =>
      (typed || name == []) && Sorted(Keys(props)) && forall p <- props :: Canonical(p.item)
    case _ => true
  }

  /** What a successful encoding wrote. */
  ghost predicate Wrote(o: Item, v: Value, dbl: int -> bytes, before: bytes, after: bytes, n: nat)
  {
    && Fits(o) && Distinct(o) && Canonical(o) && Plain(o, true) == AsSent(v, dbl)
    && after == before + Encode(o) && n == |Encode(o)|
  }

  lemma {:induction false} ValuesSnoc(ps: seq<Prop>, p: Prop)
    requires forall q <- ps + [p] :: Fits(q.item)
    requires p in ps + [p] && forall q <- ps :: q in ps + [p]
    ensures EncodeValues(ps + [p]) == EncodeValues(ps) + Encode(p.item)
    decreases |ps|
  {
    hide Encode, Fits;
    if ps == [] {
      assert [] + [p] == [p] && [p][1..] == [];
    } else {
      assert (ps + [p])[1..] == ps[1..] + [p];
      ValuesSnoc(ps[1..], p);
    }
  }

  lemma {:induction false} PropsSnoc(ps: seq<Prop>, p: Prop, m: map<bytes, Value>)
    ensures PlainProps(ps + [p], m, true) == PlainProps(ps, m, true)[p.key := Plain(p.item, true)]
    decreases |ps|
  {
    hide Plain;
    if ps == [] {
      assert [] + [p] == [p] && [p][1..] == [];
    } else {
      PropsSnoc(ps[1..], p, m[ps[0].key := Plain(ps[0].item, true)]);
      assert (ps + [p])[1..] == ps[1..] + [p];
    }
  }

  lemma {:induction false} AllSnoc(xs: seq<Item>, x: Item)
    requires forall q <- xs + [x] :: Fits(q)
    requires x in xs + [x] && forall q <- xs :: q in xs + [x]
    ensures EncodeAll(xs + [x]) == EncodeAll(xs) + Encode(x)
    ensures PlainAll(xs + [x], true) == PlainAll(xs, true) + [Plain(x, true)]
    decreases |xs|
  {
    hide Encode, Plain, Fits;
    if xs == [] {
      assert [] + [x] == [x] && [x][1..] == [];
    } else {
      assert (xs + [x])[1..] == xs[1..] + [x];
      AllSnoc(xs[1..], x);
      ConcatAssoc(Encode(xs[0]), EncodeAll(xs[1..]), Encode(x));
      ConcatAssoc([Plain(xs[0], true)], PlainAll(xs[1..], true), [Plain(x, true)]);
    }
  }

  function EncKeys(ks: seq<bytes>): bytes
    requires forall k <- ks :: |k| < LENGTH_MAX
  {
    if ks == [] then [] else EncUtf8(ks[0]) + EncKeys(ks[1..])
  }

  lemma {:induction false} KeysAre(ps: seq<Prop>)
    requires forall k <- Keys(ps) :: |k| < LENGTH_MAX
    ensures forall p <- ps :: |p.key| < LENGTH_MAX
    ensures EncodeKeys(ps) == EncKeys(Keys(ps))
  {
    hide EncUtf8;
    if ps != [] {
      assert Keys(ps)[1..] == Keys(ps[1..]) && Keys(ps)[0] == ps[0].key;
      KeysAre(ps[1..]);
    }
  }

  lemma {:induction false} KeysSnoc(ps: seq<Prop>, p: Prop)
    ensures Keys(ps + [p]) == Keys(ps) + [p.key]
  {
    if ps == [] {
      assert [] + [p] == [p] && [p][1..] == [];
    } else {
      KeysSnoc(ps[1..], p);
      assert (ps + [p])[1..] == ps[1..] + [p];
    }
  }

  lemma {:induction false} EncKeysSnoc(ks: seq<bytes>, k: bytes)
    requires forall j <- ks + [k] :: |j| < LENGTH_MAX
    requires k in ks + [k] && forall j <- ks :: j in ks + [k]
    ensures EncKeys(ks + [k]) == EncKeys(ks) + EncUtf8(k)
    decreases |ks|
  {
    hide EncUtf8;
    if ks == [] {
      assert [] + [k] == [k] && [k][1..] == [];
    } else {
      assert (ks + [k])[1..] == ks[1..] + [k];
      EncKeysSnoc(ks[1..], k);
    }
  }

  /** Writes the property names of the traits. */
  method EncodeNames(w: Buffer, ks: seq<bytes>) returns (n: nat, ok: bool)
    requires forall k <- ks :: |k| < 0x8000_0000
    modifies w
    ensures ok <==> forall k <- ks :: |k| < LENGTH_MAX
    ensures ok ==> w.content == old(w.content) + EncKeys(ks) && n == |EncKeys(ks)|
  {
    hide EncUtf8;
    n, ok := 0, true;
    for i := 0 to |ks|
      invariant forall k <- ks[..i] :: |k| < LENGTH_MAX
      invariant w.content == old(w.content) + EncKeys(ks[..i]) && n == |EncKeys(ks[..i])|
    {
      var m, good := EncodeUtf8(w, ks[i]);
      if !good { return n, false; }
      n := n + m;
      assert ks[..i + 1] == ks[..i] + [ks[i]];
      EncKeysSnoc(ks[..i], ks[i]);
    }
    assert ks[..|ks|] == ks;
  }

  predicate Scalar(v: Value) { !v.Array? && !v.Object? && !v.Typed? }

  /** The item a scalar is written as. */
  function ScalarItem(v: Value, dbl: int -> bytes): Item
    requires Scalar(v)
  {
    match v
    case Null => NullItem
    case Boolean(b) => BooleanItem(b)
    case Integer(n) => if 0 <= n < U29 then IntegerItem(n) else DoubleItem(dbl(n))
    case Double(bits) => DoubleItem(bits)
    case Str(s) => StrItem(s)
  }

  lemma ScalarDone(v: Value, dbl: int -> bytes)
    requires Scalar(v) && Sized(v) && forall i :: |dbl(i)| == 8
    ensures var o := ScalarItem(v, dbl);
            && Fits(o) == Encodable(v) && Distinct(o) && Canonical(o) && Plain(o, true) == AsSent(v, dbl)
            && (Fits(o) ==> Encode(o) == match o
                                         case NullItem => [0x01]
                                         case BooleanItem(b) => [if b then 0x03 else 0x02]
                                         case IntegerItem(n) => [0x04] + EncU29(n)
                                         case DoubleItem(bits) => [0x05] + bits
                                         case StrItem(s) => [0x06] + EncUtf8(s))
  {
    hide EncU29, EncUtf8;
  }

  /** Encodes any value: on success, exactly the encoding of one item that stands for what is sent. */
  method EncodeAmf3(w: Buffer, v: Value, dbl: int -> bytes) returns (n: nat, ok: bool, ghost o: Item)
    requires Sized(v) && forall i :: |dbl(i)| == 8
    modifies w
    ensures ok == Encodable(v)
    ensures ok ==> Wrote(o, v, dbl, old(w.content), w.content, n)
    decreases v, 1
  {
    hide EncU29, EncUtf8, Encode, Plain, AsSent, Distinct, Canonical, Fits, Encodable;
    if Scalar(v) {
      o := ScalarItem(v, dbl);
      ScalarDone(v, dbl);
      n, ok := EncodeScalar(w, v, dbl);
    } else if v.Array? {
      n, ok, o := EncodeArray(w, v, dbl);
    } else {
      n, ok, o := EncodeObject(w, v, dbl);
    }
  }

  method EncodeScalar(w: Buffer, v: Value, dbl: int -> bytes) returns (n: nat, ok: bool)
    requires Scalar(v) && Sized(v) && forall i :: |dbl(i)| == 8
    modifies w
    ensures var o := ScalarItem(v, dbl);
            && ok == Fits(o) && (ok ==> w.content == old(w.content) + Encode(o) && n == |Encode(o)|)
  {
    hide EncU29, EncUtf8;
    n, ok := 0, true;
    match v {
      case Null =>
        w.Write([0x01]);
        n := 1;
      case Boolean(b) =>
        w.Write([if b then 0x03 else 0x02]);
        n := 1;
      case Integer(i) =>
        if 0 <= i < U29 {
          w.Write([0x04]);
          n, ok := EncodeU29(w, i);
          n := n + 1;
        } else {
          w.Write([0x05]);
          w.Write(dbl(i));
          n := 9;
        }
      case Double(bits) =>
        w.Write([0x05]);
        w.Write(bits);
        n := 9;
      case Str(s) =>
        w.Write([0x06]);
        n, ok := EncodeUtf8(w, s);
        n := n + 1;
    }
  }

  method EncodeArray(w: Buffer, v: Value, dbl: int -> bytes) returns (n: nat, ok: bool, ghost o: Item)
    requires v.Array? && Sized(v) && forall i :: |dbl(i)| == 8
    modifies w
    ensures ok == Encodable(v)
    ensures ok ==> Wrote(o, v, dbl, old(w.content), w.content, n)
    decreases v, 0
  {
    hide EncU29, EncUtf8, Encode, EncodeAll, Plain, PlainAll, AsSent, Distinct, Canonical, Fits, Encodable;
    o := NullItem;
    var es := v.elems;
    ArrayParts(v, dbl);
    w.Write([0x09]);
    var m, good := EncodeU29(w, |es| * 2 + 1);
    if !good { return m, false, o; }
    var k;
    k, ok := EncodeUtf8(w, []);
    n := 1 + m + k;
    ghost var start, count := w.content, n;
    ghost var items := [];
    for i := 0 to |es|
      invariant |items| == i && forall x <- items :: Fits(x) && Distinct(x) && Canonical(x)
      invariant forall j :: 0 <= j < i ==> Encodable(es[j])
      invariant PlainAll(items, true) == seq(i, j requires 0 <= j < i => AsSent(es[j], dbl))
      invariant w.content == start + EncodeAll(items) && n == count + |EncodeAll(items)|
    {
      var j, fine, item := EncodeAmf3(w, es[i], dbl);
      if !fine { return n, false, o; }
      n := n + j;
      AllSnoc(items, item);
      items := items + [item];
    }
    o := ArrayItem(items);
    ArrayDone(items, v, dbl);
    ok := true;
  }

  lemma ArrayParts(v: Value, dbl: int -> bytes)
    requires v.Array?
    ensures Encodable(v) <==> |v.elems| < LENGTH_MAX && forall j :: 0 <= j < |v.elems| ==> Encodable(v.elems[j])
    ensures PlainAll([], true) == [] && EncodeAll([]) == []
  {
  }

  lemma ArrayDone(items: seq<Item>, v: Value, dbl: int -> bytes)
    requires v.Array? && |items| == |v.elems| < LENGTH_MAX
    requires forall x <- items :: Fits(x) && Distinct(x) && Canonical(x)
    requires PlainAll(items, true) == seq(|items|, j requires 0 <= j < |items| => AsSent(v.elems[j], dbl))
    ensures var o := ArrayItem(items);
            && Fits(o) && Distinct(o) && Canonical(o) && Plain(o, true) == AsSent(v, dbl)
            && Encode(o) == [0x09] + EncU29(|items| * 2 + 1) + EncUtf8([]) + EncodeAll(items)
  {
    ArrayMeans(items, v, dbl);
    ArrayFits(items);
    hide Plain, AsSent, PlainAll, Fits, Distinct, Canonical, Encode, EncodeAll, EncU29, EncUtf8;
  }

  lemma ArrayFits(items: seq<Item>)
    requires |items| < LENGTH_MAX && forall x <- items :: Fits(x) && Distinct(x) && Canonical(x)
    ensures var o := ArrayItem(items);
            && Fits(o) && Distinct(o) && Canonical(o)
            && Encode(o) == [0x09] + EncU29(|items| * 2 + 1) + EncUtf8([]) + EncodeAll(items)
  {
    hide EncodeAll, EncU29, EncUtf8;
  }

  lemma ArrayMeans(items: seq<Item>, v: Value, dbl: int -> bytes)
    requires v.Array? && |items| == |v.elems|
    requires PlainAll(items, true) == seq(|items|, j requires 0 <= j < |items| => AsSent(v.elems[j], dbl))
    ensures Plain(ArrayItem(items), true) == AsSent(v, dbl)
  {
    hide PlainAll;
    assert Plain(ArrayItem(items), true) == Value.Array(PlainAll(items, true));
  }

  function FieldsOf(v: Value): map<bytes, Value>
    requires v.Object? || v.Typed?
  {
    if v.Object? then v.m else v.fields
  }

  function NameOf(v: Value): bytes { if v.Typed? then v.name else [] }

  /** Properties encoded so far: keys and values of the first ones. */
  ghost predicate FieldsSoFar(props: seq<Prop>, fields: map<bytes, Value>, ks: seq<bytes>, dbl: int -> bytes)
  {
    && Keys(props) == ks
    && (forall p <- props :: |p.key| < LENGTH_MAX && Fits(p.item) && Distinct(p.item) && Canonical(p.item))
    && (forall k <- ks :: |k| < LENGTH_MAX && k in fields && Encodable(fields[k]))
    && PlainProps(props, map[], true) == map k | k in fields && k in ks :: AsSent(fields[k], dbl)
  }

  lemma FieldsSnoc(props: seq<Prop>, p: Prop, fields: map<bytes, Value>, ks: seq<bytes>, dbl: int -> bytes)
    requires FieldsSoFar(props, fields, ks, dbl) && p.key in fields
    requires |p.key| < LENGTH_MAX && Fits(p.item) && Distinct(p.item) && Canonical(p.item) && Encodable(fields[p.key])
    requires Plain(p.item, true) == AsSent(fields[p.key], dbl)
    ensures FieldsSoFar(props + [p], fields, ks + [p.key], dbl)
  {
    hide Fits, Distinct, Canonical, Encodable, AsSent, Plain, PlainProps, Keys;
    PropsSnoc(props, p, map[]);
    KeysSnoc(props, p);
  }

  /** The values of the listed properties, one after the other. */
  method EncodeFields(w: Buffer, ghost v: Value, fields: map<bytes, Value>, ks: seq<bytes>, dbl: int -> bytes)
    returns (n: nat, ok: bool, ghost props: seq<Prop>)
    requires forall k <- ks :: k in fields && |k| < LENGTH_MAX && Sized(fields[k]) && fields[k] < v
    requires forall i :: |dbl(i)| == 8
    modifies w
    ensures ok <==> forall k <- ks :: Encodable(fields[k])
    ensures ok ==> FieldsSoFar(props, fields, ks, dbl) && forall p <- props :: Fits(p.item)
    ensures ok ==> w.content == old(w.content) + EncodeValues(props) && n == |EncodeValues(props)|
    decreases v, 0, 0
  {
    hide Encode, Plain, AsSent, Distinct, Canonical, Fits, Encodable, Sized, FieldsSoFar, EncodeValues;
    n, ok, props := 0, true, [];
    NoFields(fields, dbl);
    for i := 0 to |ks|
      invariant FieldsSoFar(props, fields, ks[..i], dbl)
      invariant (forall p <- props :: Fits(p.item)) && forall k <- ks[..i] :: Encodable(fields[k])
      invariant w.content == old(w.content) + EncodeValues(props) && n == |EncodeValues(props)|
    {
      var j, fine, item := EncodeAmf3(w, fields[ks[i]], dbl);
      if !fine { return n, false, props; }
      n := n + j;
      ghost var p := Prop(ks[i], item);
      FieldsSnoc(props, p, fields, ks[..i], dbl);
      ValuesGrow(props, p, fields, ks[..i], dbl);
      ConcatAssoc(old(w.content), EncodeValues(props), Encode(item));
      assert ks[..i + 1] == ks[..i] + [ks[i]];
      props := props + [p];
    }
    assert ks[..|ks|] == ks;
  }

  lemma NoFields(fields: map<bytes, Value>, dbl: int -> bytes)
    ensures FieldsSoFar([], fields, [], dbl) && EncodeValues([]) == []
  {
  }

  lemma ValuesGrow(props: seq<Prop>, p: Prop, fields: map<bytes, Value>, ks: seq<bytes>, dbl: int -> bytes)
    requires FieldsSoFar(props, fields, ks, dbl) && |p.key| < LENGTH_MAX && Fits(p.item)
    ensures forall q <- props + [p] :: Fits(q.item)
    ensures EncodeValues(props + [p]) == EncodeValues(props) + Encode(p.item)
  {
    hide Encode, Fits, Distinct, Canonical, Encodable, PlainProps;
    ValuesSnoc(props, p);
  }

  method EncodeObject(w: Buffer, v: Value, dbl: int -> bytes) returns (n: nat, ok: bool, ghost o: Item)
    requires (v.Object? || v.Typed?) && Sized(v) && forall i :: |dbl(i)| == 8
    modifies w
    ensures ok == Encodable(v)
    ensures ok ==> Wrote(o, v, dbl, old(w.content), w.content, n)
    decreases v, 0, 1
  {
    hide EncU29, EncUtf8, Encode, EncKeys, EncodeValues, Plain, AsSent, Distinct;
    hide Canonical, Fits, Encodable, Sized, FieldsSoFar, Less, Sorted, TraitImage;
    o := ObjectItem(false, [], []);
    ObjectParts(v);
    var fields := FieldsOf(v);
    var ks := SortedKeys(fields);
    n, ok := EncodeTraits(w, NameOf(v), ks);
    if !ok { return n, false, o; }
    ghost var props;
    var m;
    m, ok, props := EncodeFields(w, v, fields, ks, dbl);
    if !ok { return n, false, o; }
    n := n + m;
    o := ObjectItem(v.Typed?, NameOf(v), props);
    ObjectDone(props, v, ks, dbl);
    ConcatAssoc(old(w.content), TraitImage(|ks|, NameOf(v), EncKeys(ks)), EncodeValues(props));
  }

  /** Marker and traits: sealed, not externalizable, the names in sorted order. */
  method EncodeTraits(w: Buffer, name: bytes, ks: seq<bytes>) returns (n: nat, ok: bool)
    requires |name| < 0x8000_0000 && |ks| < 0x1000_0000 && forall k <- ks :: |k| < 0x8000_0000
    modifies w
    ensures ok <==> |name| < LENGTH_MAX && |ks| < PROPS_MAX && forall k <- ks :: |k| < LENGTH_MAX
    ensures ok ==> w.content == old(w.content) + TraitImage(|ks|, name, EncKeys(ks))
    ensures ok ==> n == |TraitImage(|ks|, name, EncKeys(ks))|
  {
    hide EncU29, EncUtf8, EncKeys, TraitImage;
    w.Write([0x0a]);
    n := 1;
    var m, good := EncodeU29(w, |ks| * 16 + 3);
    if !good { return m, false; }
    n := n + m;
    m, good := EncodeUtf8(w, name);
    if !good { return m, false; }
    n := n + m;
    m, ok := EncodeNames(w, ks);
    if !ok { return m, false; }
    n := n + m;
    ImageInOrder(old(w.content), |ks|, name, EncKeys(ks));
  }

  lemma ImageInOrder(s: bytes, n: nat, name: bytes, keys: bytes)
    requires n < PROPS_MAX && |name| < LENGTH_MAX
    ensures s + [0x0a] + EncU29(n * 16 + 3) + EncUtf8(name) + keys == s + TraitImage(n, name, keys)
    ensures |TraitImage(n, name, keys)| == 1 + |EncU29(n * 16 + 3)| + |EncUtf8(name)| + |keys|
  {
    hide EncU29, EncUtf8;
  }

  lemma ObjectParts(v: Value)
    requires v.Object? || v.Typed?
    ensures Sized(v) ==> |NameOf(v)| < 0x8000_0000 && |FieldsOf(v)| < 0x1000_0000
    ensures Sized(v) ==> forall k <- FieldsOf(v) :: |k| < 0x8000_0000 && Sized(FieldsOf(v)[k])
    ensures Encodable(v) <==> |NameOf(v)| < LENGTH_MAX && |FieldsOf(v)| < PROPS_MAX &&
                              forall k <- FieldsOf(v) :: |k| < LENGTH_MAX && Encodable(FieldsOf(v)[k])
    ensures forall k <- FieldsOf(v) :: FieldsOf(v)[k] < v
  {
  }

  lemma ObjectDone(props: seq<Prop>, v: Value, ks: seq<bytes>, dbl: int -> bytes)
    requires (v.Object? || v.Typed?) && |NameOf(v)| < LENGTH_MAX && |ks| < PROPS_MAX
    requires FieldsSoFar(props, FieldsOf(v), ks, dbl)
    requires Sorted(ks) && forall k :: k in ks <==> k in FieldsOf(v)
    ensures Keys(props) == ks && forall k <- ks :: |k| < LENGTH_MAX
    ensures forall p <- props :: Fits(p.item)
    ensures var o := ObjectItem(v.Typed?, NameOf(v), props);
            && Fits(o) && Distinct(o) && Canonical(o) && Plain(o, true) == AsSent(v, dbl)
            && Encode(o) == TraitImage(|ks|, NameOf(v), EncKeys(ks)) + EncodeValues(props)
  {
    hide Less, Encode, EncodeKeys, EncKeys, EncodeValues, Fits, Plain, PlainProps, AsSent, Distinct, Canonical,
        Encodable, TraitImage;
    var typed, name := v.Typed?, NameOf(v);
    ObjectFits(typed, name, props);
    SortedDistinct(props);
    KeysAre(props);
    ObjectSent(v, dbl);
    ObjectMeans(typed, name, props);
    assert (map k | k in FieldsOf(v) && k in ks :: AsSent(FieldsOf(v)[k], dbl)) == FieldsSent(v, dbl);
    ObjectWritten(typed, name, props);
  }

  lemma ObjectFits(typed: bool, name: bytes, props: seq<Prop>)
    requires |name| < LENGTH_MAX && |props| < PROPS_MAX
    requires forall p <- props :: |p.key| < LENGTH_MAX && Fits(p.item)
    ensures Fits(ObjectItem(typed, name, props))
  {
  }

  lemma ObjectMeans(typed: bool, name: bytes, props: seq<Prop>)
    ensures var o := ObjectItem(typed, name, props);
            var m := PlainProps(props, map[], true);
            && Plain(o, true) == (if typed then Typed(name, m) else Object(m))
            && (Distinct(o) <==> NoRepeats(props) && forall p <- props :: Distinct(p.item))
            && (Canonical(o) <==>
                 (typed || name == []) && Sorted(Keys(props)) && forall p <- props :: Canonical(p.item))
  {
  }

  lemma SortedDistinct(props: seq<Prop>)
    requires Sorted(Keys(props))
    ensures NoRepeats(props)
  {
    forall i, j | 0 <= i < j < |props| ensures props[i].key != props[j].key {
      KeyAt(props, i);
      KeyAt(props, j);
      LessIrreflexive(props[i].key);
    }
  }

  function FieldsSent(v: Value, dbl: int -> bytes): map<bytes, Value>
    requires v.Object? || v.Typed?
  {
    map k | k in FieldsOf(v) :: AsSent(FieldsOf(v)[k], dbl)
  }

  lemma ObjectSent(v: Value, dbl: int -> bytes)
    requires v.Object? || v.Typed?
    ensures AsSent(v, dbl) == if v.Typed? then Typed(NameOf(v), FieldsSent(v, dbl)) else Object(FieldsSent(v, dbl))
  {
  }

  /** The bytes of an object in front of its values: marker, and traits with n names. */
  function TraitImage(n: nat, name: bytes, keys: bytes): bytes
    requires n < PROPS_MAX && |name| < LENGTH_MAX
  {
    [0x0a] + EncU29(n * 16 + 3) + EncUtf8(name) + keys
  }

  lemma ObjectWritten(typed: bool, name: bytes, props: seq<Prop>)
    requires Fits(ObjectItem(typed, name, props))
    ensures Encode(ObjectItem(typed, name, props)) == TraitImage(|props|, name, EncodeKeys(props)) + EncodeValues(props)
  {
    hide EncU29, EncUtf8, EncodeKeys, EncodeValues, Fits;
  }

  lemma {:induction false} KeyAt(props: seq<Prop>, i: nat)
    requires i < |props|
    ensures Keys(props)[i] == props[i].key
  {
    if i > 0 { KeyAt(props[1..], i - 1); }
  }

  // ---------- one encoding ----------

  lemma {:induction false} PropsLookup(props: seq<Prop>, m: map<bytes, Value>)
    requires NoRepeats(props)
    ensures var r := PlainProps(props, m, true);
            && r.Keys == m.Keys + (set k | k in Keys(props))
            && (forall k <- m :: k !in Keys(props) ==> r[k] == m[k])
            && forall p <- props :: p.key in r && r[p.key] == Plain(p.item, true)
    decreases |props|
  {
    hide Plain;
    if props != [] {
      var p, more := props[0], props[1..];
      PropsLookup(more, m[p.key := Plain(p.item, true)]);
      KeyNotAgain(props);
      assert forall q :: q in props <==> q == p || q in more;
    }
  }

  lemma KeyNotAgain(props: seq<Prop>)
    requires NoRepeats(props) && props != []
    ensures props[0].key !in Keys(props[1..])
  {
    forall i | 0 <= i < |props| - 1 ensures Keys(props[1..])[i] != props[0].key {
      KeyAt(props[1..], i);
      assert props[0].key != props[i + 1].key;
    }
  }

  /** Two canonical items that stand for one value are one item. */
  lemma {:induction false} CanonicalUnique(a: Item, b: Item)
    requires Canonical(a) && Canonical(b) && Plain(a, true) == Plain(b, true)
    ensures a == b
    decreases a, 1
  {
    match a {
      case ArrayItem(items) => AllUnique(items, b.items);
      case ObjectItem(_, _, props) => PropsUnique(props, b.props);
      case _ =>
    }
  }

  lemma {:induction false} AllUnique(a: seq<Item>, b: seq<Item>)
    requires (forall x <- a :: Canonical(x)) && (forall x <- b :: Canonical(x))
    requires PlainAll(a, true) == PlainAll(b, true)
    ensures a == b
    decreases a, 0
  {
    hide Plain, Canonical;
    assert |PlainAll(a, true)| == |PlainAll(b, true)|;
    if a != [] {
      var p, q := PlainAll(a, true), PlainAll(b, true);
      assert p[0] == q[0] && p[1..] == q[1..];
      assert p[1..] == PlainAll(a[1..], true) && q[1..] == PlainAll(b[1..], true);
      CanonicalUnique(a[0], b[0]);
      AllUnique(a[1..], b[1..]);
      assert a == [a[0]] + a[1..] && b == [b[0]] + b[1..];
    }
  }

  lemma SameSet(a: seq<bytes>, b: seq<bytes>)
    requires {} + (set k | k in a) == {} + set k | k in b
    ensures forall k :: k in a <==> k in b
  {
    forall k ensures k in a <==> k in b {
      assert k in a <==> k in {} + set j | j in a;
      assert k in b <==> k in {} + set j | j in b;
    }
  }

  lemma {:induction false} PropsUnique(a: seq<Prop>, b: seq<Prop>)
    requires (forall p <- a :: Canonical(p.item)) && forall p <- b :: Canonical(p.item)
    requires Sorted(Keys(a)) && Sorted(Keys(b)) && PlainProps(a, map[], true) == PlainProps(b, map[], true)
    ensures a == b
    decreases a, 0
  {
    hide Plain, Canonical, Less, PlainProps, Sorted, Keys, NoRepeats;
    SortedDistinct(a);
    SortedDistinct(b);
    PropsLookup(a, map[]);
    PropsLookup(b, map[]);
    SameSet(Keys(a), Keys(b));
    SortedUnique(Keys(a), Keys(b));
    forall i | 0 <= i < |a| ensures a[i] == b[i] {
      KeyAt(a, i);
      KeyAt(b, i);
      assert a[i] in a && b[i] in b;
      CanonicalUnique(a[i].item, b[i].item);
    }
  }

  /** A value has one encoding, whatever order its maps are walked in. */
  lemma EncodingUnique(v: Value, dbl: int -> bytes, a: Item, before: bytes, after: bytes, n: nat,
                       b: Item, before': bytes, after': bytes, n': nat)
    requires Wrote(a, v, dbl, before, after, n) && Wrote(b, v, dbl, before', after', n')
    ensures n == n' && after[|before|..] == after'[|before'|..]
  {
    hide Encode, Plain, Canonical, AsSent, Fits, Distinct;
    CanonicalUnique(a, b);
    assert after[|before|..] == Encode(a) && after'[|before'|..] == Encode(b);
  }

  // ---------- decoder ----------

  /** The 29-bit integer, seven bits at a time, after i bytes that gave `high`. */
  function U29From(i: nat, high: nat, s: bytes): Outcome<(nat, bytes)>
    requires i <= 3
    decreases 3 - i
  {
    if s == [] then Failed
    else
      var b: nat := s[0];
      if i == 3 then Got((high * 0x100 + b, s[1..]))
      else if b < 0x80 then Got((high * 0x80 + b % 0x80, s[1..]))
      else U29From(i + 1, high * 0x80 + b % 0x80, s[1..])
  }

  lemma U29Loop(s: bytes)
    ensures U29From(0, 0, s) == DecU29(s)
  {
    if |s| > 0 && s[0] >= 0x80 {
      var h1: nat := s[0] % 0x80;
      assert U29From(0, 0, s) == U29From(1, h1, s[1..]);
      if |s| > 1 && s[1] >= 0x80 {
        var h2: nat := h1 * 0x80 + s[1] % 0x80;
        assert s[1..][1..] == s[2..];
        assert U29From(1, h1, s[1..]) == U29From(2, h2, s[2..]);
        if |s| > 2 && s[2] >= 0x80 {
          var h3: nat := h2 * 0x80 + s[2] % 0x80;
          assert s[2..][1..] == s[3..];
          assert U29From(2, h2, s[2..]) == U29From(3, h3, s[3..]);
          if |s| > 3 { assert s[3..][1..] == s[4..]; }
        } else if |s| > 2 {
          assert s[2..][1..] == s[3..];
        }
      } else if |s| > 1 {
        assert s[1..][1..] == s[2..];
      }
    }
  }

  /** The decoder with its reference tables, reading from a reader it does not own. */
  class Decoder {
    var stringRefs: seq<bytes>
    var objectRefs: seq<Value>
    var traitRefs: seq<Trait>

    constructor ()
      ensures Refs() == Tables([], [], [])
    {
      stringRefs, objectRefs, traitRefs := [], [], [];
    }

    function Refs(): Tables
      reads this
    {
      Tables(stringRefs, objectRefs, traitRefs)
    }

    /** What a step of this decoder gave: nothing, or a value with the rest of the input and the tables. */
    ghost function Left<T>(v: Outcome<T>, r: Reader): Outcome<Done<T>>
      reads this, r
    {
      match v
      case Failed => Failed
      case Panicked => Panicked
      case Got(x) => Got(Done(x, r.rest, Refs()))
    }

    method DecodeU29(r: Reader) returns (u: Outcome<nat>)
      modifies r
      ensures !u.Panicked? && DecU29(old(r.rest)) == if u.Failed? then Failed else Got((u.value, r.rest))
    {
      U29Loop(r.rest);
      var result: nat := 0;
      for i := 0 to 3
        invariant U29From(i, result, r.rest) == DecU29(old(r.rest))
      {
        var b := r.Bytes(1);
        if b.None? { return Failed; }
        var x: nat := b.value[0];
        result := result * 0x80 + x % 0x80;
        if x < 0x80 { return Got(result); }
      }
      var b := r.Bytes(1);
      if b.None? { return Failed; }
      u := Got(result * 0x100 + b.value[0]);
    }

    /** One Read of n bytes. */
    method ReadSome(r: Reader, n: nat) returns (b: Outcome<bytes>)
      modifies r
      ensures !b.Panicked? && Amf3Spec.ReadSome(old(r.rest), n) == if b.Failed? then Failed else Got((b.value, r.rest))
    {
      if r.rest == [] { return Failed; }
      if |r.rest| < n {
        b := Got(r.rest + seq(n - |r.rest|, _ => 0));
        r.rest := [];
      } else {
        b := Got(r.rest[..n]);
        r.rest := r.rest[n..];
      }
    }

    method DecodeAmf3String(r: Reader) returns (s: Outcome<bytes>)
      modifies this, r
      ensures Left(s, r) == DecString(old(r.rest), old(Refs()))
    {
      hide DecU29, Amf3Spec.ReadSome;
      var u :- DecodeU29(r);
      var refVal := u / 2;
      if u % 2 == 0 {
        s := if refVal < |stringRefs| then Got(stringRefs[refVal]) else Panicked;
        return;
      }
      s := ReadSome(r, refVal);
      if s.Got? && s.value != [] { stringRefs := stringRefs + [s.value]; }
    }

    method DecodeAmf3(r: Reader) returns (v: Outcome<Value>)
      modifies this, r
      ensures Left(v, r) == Decode(old(r.rest), old(Refs()))
      decreases |r.rest|, 0
    {
      hide DecodeBody, DecU29, DecString;
      var marker := r.Bytes(1);
      if marker.None? { return Failed; }
      v := DecodeMarked(r, marker.value[0]);
    }

    method DecodeMarked(r: Reader, marker: u8) returns (v: Outcome<Value>)
      modifies this, r
      ensures Left(v, r) == DecodeBody(marker, old(r.rest), old(Refs()))
      decreases |r.rest|, 3
    {
      hide Decode, DecodeArray, DecodeObject, DecU29, DecString;
      v := Failed;
      if marker == 0x00 || marker == 0x01 {
        v := Got(Null);
      } else if marker == 0x02 || marker == 0x03 {
        v := Got(Boolean(marker == 0x03));
      } else if marker == 0x04 {
        var u :- DecodeU29(r);
        var n: int := u;
        if u > 0xfff_ffff { n := n - 0x2000_0000; }
        v := Got(Integer(n));
      } else if marker == 0x05 {
        var b := r.Full(8);
        if b.Some? { v := Got(Double(b.value)); }
      } else if marker == 0x06 {
        var s :- DecodeAmf3String(r);
        v := Got(Str(s));
      } else if marker == 0x09 {
        v := DecodeAmf3Array(r);
      } else if marker == 0x0a {
        v := DecodeAmf3Object(r);
      }
    }

    method DecodeAmf3Array(r: Reader) returns (v: Outcome<Value>)
      modifies this, r
      ensures Left(v, r) == DecodeArray(old(r.rest), old(Refs()))
      decreases |r.rest|, 2
    {
      hide Decode, DecodeElems, DecU29, DecString;
      var u :- DecodeU29(r);
      var refVal := u / 2;
      if u % 2 == 0 {
        if refVal / 2 >= |objectRefs| { return Panicked; }
        v := if objectRefs[refVal / 2].Array? then Got(objectRefs[refVal / 2]) else Failed;
        return;
      }
      var key :- DecodeAmf3String(r);
      if key != [] { return Failed; }
      var es :- DecodeElements(r, refVal);
      v := Got(Array(es));
      objectRefs := objectRefs + [v.value];
    }

    method DecodeElements(r: Reader, n: nat) returns (es: Outcome<seq<Value>>)
      modifies this, r
      ensures Left(es, r) == DecodeElems(old(r.rest), old(Refs()), n)
      decreases |r.rest|, 1
    {
      hide Decode;
      var result := [];
      NothingBefore(DecodeElems(r.rest, Refs(), n));
      for i := 0 to n
        invariant |r.rest| <= |old(r.rest)|
        invariant DecodeElems(old(r.rest), old(Refs()), n) == Prepend(result, DecodeElems(r.rest, Refs(), n - i))
      {
        ghost var s, d := r.rest, Refs();
        var v :- DecodeAmf3(r);
        PrependTwo(result, [v], DecodeElems(r.rest, Refs(), n - i - 1));
        result := result + [v];
      }
      es := Got(result);
      assert result + [] == result;
    }

    method DecodeAmf3Strings(r: Reader, n: nat) returns (ks: Outcome<seq<bytes>>)
      modifies this, r
      ensures Left(ks, r) == DecStrings(old(r.rest), old(Refs()), n)
    {
      hide DecString;
      var result := [];
      NothingBefore(DecStrings(r.rest, Refs(), n));
      for i := 0 to n
        invariant DecStrings(old(r.rest), old(Refs()), n) == Prepend(result, DecStrings(r.rest, Refs(), n - i))
      {
        var k :- DecodeAmf3String(r);
        PrependTwo(result, [k], DecStrings(r.rest, Refs(), n - i - 1));
        result := result + [k];
      }
      ks := Got(result);
      assert result + [] == result;
    }

    /** Traits by reference, or spelled out and remembered. */
    method DecodeTrait(r: Reader, u: nat) returns (t: Outcome<Trait>)
      modifies this, r
      ensures Left(t, r) == DecTrait(u, old(r.rest), old(Refs()))
    {
      hide DecString, DecStrings;
      var refVal := u / 2;
      if refVal % 2 == 0 {
        t := if refVal / 2 < |traitRefs| then Got(traitRefs[refVal / 2]) else Panicked;
        return;
      }
      var cls :- DecodeAmf3String(r);
      var keys :- DecodeAmf3Strings(r, refVal / 8);
      var trait_ := Trait(cls, refVal / 2 % 2 == 1, refVal / 4 % 2 == 1, keys);
      traitRefs := traitRefs + [trait_];
      t := Got(trait_);
    }

    method DecodeAmf3Object(r: Reader) returns (v: Outcome<Value>)
      modifies this, r
      ensures Left(v, r) == DecodeObject(old(r.rest), old(Refs()))
      decreases |r.rest|, 2
    {
      hide Decode, DecodeFields, DecodeDynamic, DecU29, DecTrait;
      var u :- DecodeU29(r);
      if u % 2 == 0 {
        v := if u / 4 < |objectRefs| then Got(objectRefs[u / 4]) else Panicked;
        return;
      }
      var t :- DecodeTrait(r, u);
      objectRefs := objectRefs + [Null];
      if t.externalizable { return Failed; }
      var m :- DecodeSealed(r, t.properties);
      if t.dynamic { m :- DecodeRest(r, m); }
      v := Got(Object(m));
    }

    method DecodeSealed(r: Reader, keys: seq<bytes>) returns (m: Outcome<map<bytes, Value>>)
      modifies this, r
      ensures Left(m, r) == DecodeFields(old(r.rest), old(Refs()), keys, map[])
      decreases |r.rest|, 1
    {
      hide Decode;
      var obj: map<bytes, Value> := map[];
      assert keys[0..] == keys;
      for i := 0 to |keys|
        invariant |r.rest| <= |old(r.rest)|
        invariant DecodeFields(old(r.rest), old(Refs()), keys, map[]) == DecodeFields(r.rest, Refs(), keys[i..], obj)
      {
        assert keys[i..][0] == keys[i] && keys[i..][1..] == keys[i + 1..];
        var v :- DecodeAmf3(r);
        obj := obj[keys[i] := v];
      }
      m := Got(obj);
    }

    method DecodeRest(r: Reader, sealed: map<bytes, Value>) returns (m: Outcome<map<bytes, Value>>)
      modifies this, r
      ensures Left(m, r) == DecodeDynamic(old(r.rest), old(Refs()), sealed)
      decreases |r.rest|, 1
    {
      hide Decode, DecString;
      var obj := sealed;
      while true
        invariant |r.rest| <= |old(r.rest)|
        invariant DecodeDynamic(old(r.rest), old(Refs()), sealed) == DecodeDynamic(r.rest, Refs(), obj)
        decreases |r.rest|
      {
        var key :- DecodeAmf3String(r);
        if key == [] { return Got(obj); }
        var v :- DecodeAmf3(r);
        obj := obj[key := v];
      }
    }
  }

  /** Elements already decoded in front of a later step. */
  function Prepend<T>(front: seq<T>, r: Outcome<Done<seq<T>>>): Outcome<Done<seq<T>>>
  {
    if r.IsFailure() then r else Got(r.value.(v := front + r.value.v))
  }

  lemma NothingBefore<T>(r: Outcome<Done<seq<T>>>)
    ensures Prepend([], r) == r
  {
    if r.Got? { assert [] + r.value.v == r.value.v; }
  }

  lemma PrependTwo<T>(a: seq<T>, b: seq<T>, r: Outcome<Done<seq<T>>>)
    ensures Prepend(a, Prepend(b, r)) == Prepend(a + b, r)
  {
    if r.Got? { ConcatAssoc(a, b, r.value.v); }
  }
}
