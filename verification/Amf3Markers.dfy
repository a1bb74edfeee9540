/**
 * What AMF 3 values read as, whoever wrote them, with values nested to any depth: the 29-bit integers limb by limb,
 * objects with their flags, and what the reference tables remember (AMF 3 specification, sections 1.3.1 and 3).
 */
module Amf3Markers {
  import opened Bytes
  import opened Amf3Spec
  import opened Amf3Theorems
  import opened Amf3References

  // ---------- 29-bit integers ----------

  /** Seven bits to a byte, most significant first, the top bit saying that another follows; eight in the fourth. */
  lemma LimbsRead(a: nat, b: nat, c: nat, e: u8, rest: bytes)
    requires a < 0x80 && b < 0x80 && c < 0x80
    ensures DecU29([a] + rest) == Got((a, rest))
    ensures DecU29([a + 0x80, b] + rest) == Got((a * 0x80 + b, rest))
    ensures DecU29([a + 0x80, b + 0x80, c] + rest) == Got((a * 0x4000 + b * 0x80 + c, rest))
    ensures DecU29([a + 0x80, b + 0x80, c + 0x80, e] + rest) ==
            Got((a * 0x40_0000 + b * 0x8000 + c * 0x100 + e, rest))
  {
    LimbBits(a);
    LimbBits(b);
    LimbBits(c);
    assert ([a] + rest)[1..] == rest;
    assert ([a + 0x80, b] + rest)[2..] == rest;
    assert ([a + 0x80, b + 0x80, c] + rest)[3..] == rest;
    assert ([a + 0x80, b + 0x80, c + 0x80, e] + rest)[4..] == rest;
  }

  lemma LimbBits(x: nat)
    requires x < 0x80
    ensures x % 0x80 == x && (x + 0x80) % 0x80 == x
  {
  }

  // ---------- values ----------

  /** In front of anything, and whatever is in the tables, the bytes read as the value and nothing else is taken. */
  ghost predicate ReadsAs(b: bytes, v: Value)
  {
    forall rest: bytes, d: Tables | rest != [] :: Takes(Decode(b + rest, d), v, rest)
  }

  predicate Takes<T(==)>(r: Outcome<Done<T>>, v: T, rest: bytes) { r.Got? && r.value.v == v && r.value.rest == rest }

  /** Undefined and null, false and true. */
  lemma SimpleReads(m: u8)
    requires m <= 0x03
    ensures ReadsAs([m], if m <= 0x01 then Null else Boolean(m == 0x03))
  {
    forall rest: bytes, d: Tables | rest != []
      ensures Takes(Decode([m] + rest, d), if m <= 0x01 then Null else Boolean(m == 0x03), rest)
    {
      Marked(m, rest, d);
    }
  }

  lemma DoubleReads(bits: bytes)
    requires |bits| == 8
    ensures ReadsAs([0x05] + bits, Double(bits))
  {
    forall rest: bytes, d: Tables | rest != [] ensures Takes(Decode([0x05] + bits + rest, d), Double(bits), rest) {
      assert [0x05] + bits + rest == [0x05] + (bits + rest);
      Marked(5, bits + rest, d);
      assert (bits + rest)[..8] == bits && (bits + rest)[8..] == rest;
    }
  }

  /** An integer is signed: from 2^28 on, 2^29 is taken off. */
  lemma IntegerReads(u: bytes, n: nat)
    requires forall rest: bytes :: DecU29(u + rest) == Got((n, rest))
    ensures ReadsAs([0x04] + u, Integer(if n < 0x1000_0000 then n else n - 0x2000_0000))
  {
    hide DecU29;
    var v := Integer(if n < 0x1000_0000 then n else n - 0x2000_0000);
    forall rest: bytes, d: Tables | rest != [] ensures Takes(Decode([0x04] + u + rest, d), v, rest) {
      assert [0x04] + u + rest == [0x04] + (u + rest);
      Marked(4, u + rest, d);
    }
  }

  lemma StringReads(s: bytes)
    requires |s| < LENGTH_MAX
    ensures ReadsAs([0x06] + EncUtf8(s), Str(s))
  {
    hide EncUtf8, DecString;
    forall rest: bytes, d: Tables | rest != [] ensures Takes(Decode([0x06] + EncUtf8(s) + rest, d), Str(s), rest) {
      assert [0x06] + EncUtf8(s) + rest == [0x06] + (EncUtf8(s) + rest);
      Marked(6, EncUtf8(s) + rest, d);
      Utf8Reads(s, rest, d);
    }
  }

  /** A string that is not empty is remembered under the next number: a reference to that gives it again. */
  lemma StringAgain(s: bytes, rest: bytes, d: Tables)
    requires 0 < |s| < LENGTH_MAX && |d.strings| * 2 < U29
    ensures var more := [0x06] + (EncU29(|d.strings| * 2) + rest);
            var r := Decode([0x06] + (EncUtf8(s) + more), d);
            Takes(r, Str(s), more) && Decode(more, r.value.d) == Got(Done(Str(s), rest, r.value.d))
  {
    hide Decode, EncUtf8, EncU29, DecString;
    var more := [0x06] + (EncU29(|d.strings| * 2) + rest);
    Marked(6, EncUtf8(s) + more, d);
    Utf8Reads(s, more, d);
    StringReferenceIff(|d.strings|, rest, Remember(d, s));
  }

  /** A member as a writer sent it: its name, the bytes of its value, and the value they read as. */
  datatype Piece = Piece(key: bytes, b: bytes, v: Value)

  ghost predicate PieceOk(p: Piece) { |p.key| < LENGTH_MAX && ReadsAs(p.b, p.v) }

  function Names(ps: seq<Piece>): (ks: seq<bytes>)
    ensures |ks| == |ps|
  {
    if ps == [] then [] else [ps[0].key] + Names(ps[1..])
  }

  function NameBytes(ps: seq<Piece>): bytes
    requires forall p <- ps :: |p.key| < LENGTH_MAX
  {
    if ps == [] then [] else EncUtf8(ps[0].key) + NameBytes(ps[1..])
  }

  function ValueBytes(ps: seq<Piece>): bytes { if ps == [] then [] else ps[0].b + ValueBytes(ps[1..]) }

  /** Name and value in turn. */
  function PairBytes(ps: seq<Piece>): bytes
    requires forall p <- ps :: |p.key| < LENGTH_MAX
  {
    if ps == [] then [] else EncUtf8(ps[0].key) + ps[0].b + PairBytes(ps[1..])
  }

  /** Later members take the place of earlier ones of the same name. */
  function PieceMap(ps: seq<Piece>, m: map<bytes, Value>): map<bytes, Value>
  {
    if ps == [] then m else PieceMap(ps[1..], m[ps[0].key := ps[0].v])
  }

  function PieceValues(ps: seq<Piece>): (vs: seq<Value>)
    ensures |vs| == |ps|
  {
    if ps == [] then [] else [ps[0].v] + PieceValues(ps[1..])
  }

  lemma OnePiece(p: Piece, rest: bytes, d: Tables)
    requires PieceOk(p) && rest != []
    ensures Takes(Decode(p.b + rest, d), p.v, rest)
  {
  }

  // ---------- arrays ----------

  lemma {:induction false} PiecesRead(ps: seq<Piece>, rest: bytes, d: Tables)
    requires rest != [] && forall p <- ps :: PieceOk(p)
    ensures Takes(DecodeElems(ValueBytes(ps) + rest, d, |ps|), PieceValues(ps), rest)
    decreases |ps|
  {
    hide Decode, PieceOk;
    if ps == [] {
      assert ValueBytes(ps) + rest == rest;
    } else {
      var p, more := ps[0], ValueBytes(ps[1..]) + rest;
      assert PieceOk(p);
      ConcatAssoc(p.b, ValueBytes(ps[1..]), rest);
      OnePiece(p, more, d);
      PiecesRead(ps[1..], rest, Decode(p.b + more, d).value.d);
    }
  }

  /** A dense array: its length, an empty name, and its elements; it then is the last of the objects remembered. */
  lemma ArrayReads(ps: seq<Piece>, rest: bytes, d: Tables)
    requires |ps| < LENGTH_MAX && rest != [] && forall p <- ps :: PieceOk(p)
    ensures var r := Decode([0x09] + (EncU29(|ps| * 2 + 1) + ([0x01] + (ValueBytes(ps) + rest))), d);
            && Takes(r, Array(PieceValues(ps)), rest)
            && r.value.d.objects != [] && r.value.d.objects[|r.value.d.objects| - 1] == Array(PieceValues(ps))
  {
    hide Decode, DecString, DecU29, EncU29, PieceOk, DecodeElems;
    var more := ValueBytes(ps) + rest;
    Marked(9, EncU29(|ps| * 2 + 1) + ([0x01] + more), d);
    U29Reads(|ps| * 2 + 1, [0x01] + more);
    assert (|ps| * 2 + 1) / 2 == |ps| && (|ps| * 2 + 1) % 2 == 1;
    EmptyName(more, d);
    PiecesRead(ps, rest, d);
  }

  lemma EmptyName(more: bytes, d: Tables)
    requires more != []
    ensures DecString([0x01] + more, d) == Got(Done([], more, d))
  {
    assert EncUtf8([]) + more == [0x01] + more && [] + more == more;
    Utf8Reads([], more, d);
  }

  // ---------- objects ----------

  lemma {:induction false} SealedRead(ps: seq<Piece>, rest: bytes, d: Tables, m: map<bytes, Value>)
    requires rest != [] && forall p <- ps :: PieceOk(p)
    ensures Takes(DecodeFields(ValueBytes(ps) + rest, d, Names(ps), m), PieceMap(ps, m), rest)
    decreases |ps|
  {
    hide Decode, PieceOk;
    if ps == [] {
      assert ValueBytes(ps) + rest == rest;
    } else {
      var p, more := ps[0], ValueBytes(ps[1..]) + rest;
      assert PieceOk(p);
      ConcatAssoc(p.b, ValueBytes(ps[1..]), rest);
      OnePiece(p, more, d);
      SealedRead(ps[1..], rest, Decode(p.b + more, d).value.d, m[p.key := p.v]);
    }
  }

  /** Pairs up to the empty name. */
  lemma {:induction false} DynamicRead(ps: seq<Piece>, rest: bytes, d: Tables, m: map<bytes, Value>)
    requires rest != [] && forall p <- ps :: PieceOk(p) && p.key != [] && |p.key| < LENGTH_MAX
    ensures Takes(DecodeDynamic(PairBytes(ps) + ([0x01] + rest), d, m), PieceMap(ps, m), rest)
    decreases |ps|
  {
    hide Decode, PieceOk, DecString, EncUtf8;
    if ps == [] {
      assert PairBytes(ps) + ([0x01] + rest) == [0x01] + rest;
      EmptyName(rest, d);
    } else {
      var p, more := ps[0], PairBytes(ps[1..]) + ([0x01] + rest);
      assert PieceOk(p) && |p.key| < LENGTH_MAX;
      FourJoined(EncUtf8(p.key), p.b, PairBytes(ps[1..]), [0x01] + rest);
      var e := OnePair(p, more, d, m);
      hide DecodeDynamic;
      DynamicRead(ps[1..], rest, e, m[p.key := p.v]);
    }
  }

  lemma FourJoined(a: bytes, b: bytes, c: bytes, e: bytes)
    ensures a + b + c + e == a + (b + (c + e))
  {
  }

  lemma OnePair(p: Piece, more: bytes, d: Tables, m: map<bytes, Value>) returns (e: Tables)
    requires PieceOk(p) && p.key != [] && more != []
    ensures DecodeDynamic(EncUtf8(p.key) + (p.b + more), d, m) == DecodeDynamic(more, e, m[p.key := p.v])
  {
    hide Decode, DecString, EncUtf8;
    Utf8Reads(p.key, p.b + more, d);
    NotAllEmpty(p.key, p.b, more);
    OnePiece(p, more, Remember(d, p.key));
    e := Decode(p.b + more, Remember(d, p.key)).value.d;
  }

  /** The strings are remembered one by one, but for the empty one. */
  function RememberAll(d: Tables, ks: seq<bytes>): (e: Tables)
    ensures e.traits == d.traits && e.objects == d.objects && d.strings <= e.strings
    decreases |ks|
  {
    if ks == [] then d else RememberAll(Remember(d, ks[0]), ks[1..])
  }

  lemma {:induction false} NamesRead(ps: seq<Piece>, rest: bytes, d: Tables)
    requires rest != [] && forall p <- ps :: |p.key| < LENGTH_MAX
    ensures DecStrings(NameBytes(ps) + rest, d, |ps|) == Got(Done(Names(ps), rest, RememberAll(d, Names(ps))))
    decreases |ps|
  {
    hide DecString, EncUtf8;
    if ps == [] {
      assert NameBytes(ps) + rest == rest;
    } else {
      var k, more := ps[0].key, NameBytes(ps[1..]) + rest;
      assert ps[0] in ps;
      ConcatAssoc(EncUtf8(k), NameBytes(ps[1..]), rest);
      Utf8Reads(k, more, d);
      NotAllEmpty(k, NameBytes(ps[1..]), rest);
      NamesRead(ps[1..], rest, Remember(d, k));
    }
  }

  /** What is remembered of a class when it was spelled out. */
  function WithTrait(d: Tables, tr: Trait): Tables
  {
    var e := RememberAll(Remember(d, tr.name), tr.properties);
    e.(traits := e.traits + [tr])
  }

  /** The head of an object: one for no reference, one for no reference to traits, then dynamic, then how many. */
  function HeadOf(dynamic: bool, n: nat): nat { 1 + 2 + (if dynamic then 8 else 0) + n * 16 }

  lemma HeadBits(dynamic: bool, n: nat)
    ensures var u := HeadOf(dynamic, n);
            u % 2 == 1 && u / 2 % 2 == 1 && u / 4 % 2 == 0 && u / 8 % 2 == (if dynamic then 1 else 0) && u / 16 == n
  {
    var u, low := HeadOf(dynamic, n), if dynamic then 1 else 0;
    ModUnique(u, 2, n * 8 + low * 4 + 1, 1);
    ModUnique(u / 2, 2, n * 4 + low * 2, 1);
    ModUnique(u, 4, n * 4 + low * 2, 3);
    ModUnique(u / 4, 2, n * 2 + low, 0);
    ModUnique(u, 8, n * 2 + low, 3);
    ModUnique(u / 8, 2, n, low);
    ModUnique(u, 16, n, low * 8 + 3);
  }

  lemma TraitsRead(cls: bytes, dynamic: bool, ps: seq<Piece>, rest: bytes, d: Tables)
    requires |cls| < LENGTH_MAX && rest != [] && forall p <- ps :: |p.key| < LENGTH_MAX
    ensures var tr := Trait(cls, false, dynamic, Names(ps));
            DecTrait(HeadOf(dynamic, |ps|), EncUtf8(cls) + (NameBytes(ps) + rest), d) ==
            Got(Done(tr, rest, WithTrait(d, tr)))
  {
    hide DecString, EncUtf8, DecStrings, HeadOf, RememberAll;
    HeadBits(dynamic, |ps|);
    Utf8Reads(cls, NameBytes(ps) + rest, d);
    NotAllEmpty(cls, NameBytes(ps), rest);
    NamesRead(ps, rest, Remember(d, cls));
  }

  /** Values for the names of the class, and pairs behind them if it is dynamic. */
  function MemberBytes(fixed: seq<Piece>, dynamic: bool, free: seq<Piece>): bytes
    requires forall p <- free :: |p.key| < LENGTH_MAX
  {
    ValueBytes(fixed) + if dynamic then PairBytes(free) + [0x01] else []
  }

  ghost predicate MembersOk(fixed: seq<Piece>, dynamic: bool, free: seq<Piece>)
  {
    && (forall p <- fixed :: PieceOk(p)) && (forall p <- free :: PieceOk(p) && p.key != [] && |p.key| < LENGTH_MAX)
    && (!dynamic ==> free == [])
  }

  /** The members of an object, by name. */
  function MembersOf(fixed: seq<Piece>, free: seq<Piece>): Value
  {
    Object(PieceMap(free, PieceMap(fixed, map[])))
  }

  lemma MembersRead(tr: Trait, fixed: seq<Piece>, free: seq<Piece>, rest: bytes, d: Tables)
    requires MembersOk(fixed, tr.dynamic, free) && tr.properties == Names(fixed) && rest != []
    ensures var f := DecodeFields(MemberBytes(fixed, tr.dynamic, free) + rest, d, tr.properties, map[]);
            && f.Got? && Extends(d, f.value.d)
            && (!tr.dynamic ==> Takes(f, PieceMap(free, PieceMap(fixed, map[])), rest))
            && (tr.dynamic ==>
                var g := DecodeDynamic(f.value.rest, f.value.d, f.value.v);
                Takes(g, PieceMap(free, PieceMap(fixed, map[])), rest) && Extends(d, g.value.d))
  {
    hide DecodeFields, DecodeDynamic, PieceOk, PieceMap, Extends;
    var end := if tr.dynamic then PairBytes(free) + [0x01] else [];
    ConcatAssoc(ValueBytes(fixed), end, rest);
    NotAllEmpty(end, [], rest);
    SealedRead(fixed, end + rest, d, map[]);
    FieldsGrow(end + rest, d, tr.properties, map[]);
    FieldsGrow(MemberBytes(fixed, tr.dynamic, free) + rest, d, tr.properties, map[]);
    var f := DecodeFields(MemberBytes(fixed, tr.dynamic, free) + rest, d, tr.properties, map[]);
    if tr.dynamic {
      ConcatAssoc(PairBytes(free), [0x01], rest);
      DynamicRead(free, rest, f.value.d, f.value.v);
      DynamicGrows(f.value.rest, f.value.d, f.value.v);
      ExtendsTrans(d, f.value.d, DecodeDynamic(f.value.rest, f.value.d, f.value.v).value.d);
    } else {
      assert [] + rest == rest && PieceMap([], PieceMap(fixed, map[])) == PieceMap(fixed, map[]) by { NoMore(fixed); }
    }
  }

  lemma NoMore(fixed: seq<Piece>)
    ensures PieceMap([], PieceMap(fixed, map[])) == PieceMap(fixed, map[])
  {
  }

  /**
   * An object spelled out, sealed or dynamic: the members named by its class with the values that follow, and then
   * the pairs up to an empty name. Its class is remembered under the next number.
   */
  lemma SpelledReads(cls: bytes, fixed: seq<Piece>, dynamic: bool, free: seq<Piece>, rest: bytes, d: Tables)
    requires |cls| < LENGTH_MAX && |fixed| < PROPS_MAX && MembersOk(fixed, dynamic, free) && rest != []
    requires forall p <- fixed :: |p.key| < LENGTH_MAX
    ensures var t := EncUtf8(cls) + (NameBytes(fixed) + (MemberBytes(fixed, dynamic, free) + rest));
            var r := Decode([0x0a] + (EncU29(HeadOf(dynamic, |fixed|)) + t), d);
            && Takes(r, MembersOf(fixed, free), rest)
            && d.traits + [Trait(cls, false, dynamic, Names(fixed))] <= r.value.d.traits
  {
    hide Decode, DecTrait, DecodeFields, DecodeDynamic, DecU29, EncU29, EncUtf8, MemberBytes, PieceMap;
    var u, more := HeadOf(dynamic, |fixed|), MemberBytes(fixed, dynamic, free) + rest;
    var t := EncUtf8(cls) + (NameBytes(fixed) + more);
    Marked(0x0a, EncU29(u) + t, d);
    U29Reads(u, t);
    HeadBits(dynamic, |fixed|);
    NotAllEmpty(MemberBytes(fixed, dynamic, free), [], rest);
    TraitsRead(cls, dynamic, fixed, more, d);
    var tr := Trait(cls, false, dynamic, Names(fixed));
    MembersRead(tr, fixed, free, rest, Entered(WithTrait(d, tr)));
  }

  /** An object of a class remembered: its number in the place of the class, and the same members. */
  lemma ReferredReads(k: nat, fixed: seq<Piece>, free: seq<Piece>, rest: bytes, d: Tables)
    requires k * 4 + 1 < U29 && k < |d.traits| && !d.traits[k].externalizable && rest != []
    requires d.traits[k].properties == Names(fixed) && MembersOk(fixed, d.traits[k].dynamic, free)
    ensures var t := MemberBytes(fixed, d.traits[k].dynamic, free) + rest;
            Takes(Decode([0x0a] + (EncU29(k * 4 + 1) + t), d), MembersOf(fixed, free), rest)
  {
    hide Decode, DecodeFields, DecodeDynamic, DecU29, EncU29, MemberBytes, PieceMap, Names;
    var t := MemberBytes(fixed, d.traits[k].dynamic, free) + rest;
    Marked(0x0a, EncU29(k * 4 + 1) + t, d);
    U29Reads(k * 4 + 1, t);
    ReferenceBits(k);
    MembersRead(d.traits[k], fixed, free, rest, Entered(d));
  }

  lemma ReferenceBits(k: nat)
    ensures (k * 4 + 1) / 2 % 2 == 0 && (k * 4 + 1) / 4 == k && (k * 4 + 1) % 2 == 1
  {
    ModUnique(k * 4 + 1, 2, k * 2, 1);
    ModUnique(k * 2, 2, k, 0);
    ModUnique(k * 4 + 1, 4, k, 1);
  }

  /** A number no class has is an index past the table. */
  lemma UnknownClass(k: nat, t: bytes, d: Tables)
    requires k * 4 + 1 < U29 && k >= |d.traits|
    ensures Decode([0x0a] + (EncU29(k * 4 + 1) + t), d).Panicked?
  {
    hide Decode, DecodeFields, DecodeDynamic, DecU29, EncU29;
    Marked(0x0a, EncU29(k * 4 + 1) + t, d);
    U29Reads(k * 4 + 1, t);
    ReferenceBits(k);
  }

  // ---------- bytes written out ----------

  /** What the encoder writes, spelled out. */
  lemma KnownBytes(k: u8)
    ensures Encode(NullItem) == [0x01] && Encode(BooleanItem(false)) == [0x02] && Encode(BooleanItem(true)) == [0x03]
    ensures Encode(IntegerItem(0x81)) == [0x04, 0x81, 0x01] && Encode(StrItem([k])) == [0x06, 0x03, k]
    ensures Encode(ArrayItem([NullItem])) == [0x09, 0x03, 0x01, 0x01]
    ensures Encode(ObjectItem(false, [], [Prop([k], NullItem)])) == [0x0a, 0x13, 0x01, 0x03, k, 0x01]
  {
    KnownArray();
    KnownObject(k);
    hide EncodeAll, EncodeKeys, EncodeValues;
  }

  lemma KnownArray()
    ensures Encode(ArrayItem([NullItem])) == [0x09, 0x03, 0x01, 0x01]
  {
    assert EncodeAll([NullItem]) == Encode(NullItem) + EncodeAll([]) == [0x01];
    assert EncUtf8([]) == [0x01];
    hide EncodeAll, EncUtf8;
  }

  lemma KnownObject(k: u8)
    ensures Encode(ObjectItem(false, [], [Prop([k], NullItem)])) == [0x0a, 0x13, 0x01, 0x03, k, 0x01]
  {
    var ps := [Prop([k], NullItem)];
    assert ps[1..] == [];
    assert EncUtf8([]) == [0x01] && EncUtf8([k]) == [0x03, k];
    assert EncodeKeys(ps) == EncUtf8([k]) + EncodeKeys([]) == [0x03, k];
    assert EncodeValues(ps) == Encode(NullItem) + EncodeValues([]) == [0x01];
    hide EncodeKeys, EncodeValues, EncUtf8;
  }
}
