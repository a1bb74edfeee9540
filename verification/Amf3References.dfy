/** References in AMF 3: which entry one reads, when it panics, and what is in the tables it reads from. */
module Amf3References {
  import opened Bytes
  import opened Amf3Spec
  import opened Amf3Theorems

  /** A string reference reads the entry it stands for, and an index past the table panics. */
  lemma StringReferenceIff(k: nat, rest: bytes, d: Tables)
    requires k * 2 < U29
    ensures var r := Decode([0x06] + (EncU29(k * 2) + rest), d);
            && (r.Panicked? <==> k >= |d.strings|)
            && (k < |d.strings| ==> r == Got(Done(Str(d.strings[k]), rest, d)))
  {
    hide EncU29, DecU29;
    Marked(0x06, EncU29(k * 2) + rest, d);
    U29Reads(k * 2, rest);
  }

  /**
   * An object reference to entry k reads entry k / 2, the index being halved once too often: it panics
   * exactly where that is past the table, and is right exactly where the two entries coincide.
   */
  lemma ObjectReferenceIff(k: nat, rest: bytes, d: Tables)
    requires k * 2 < U29
    ensures var r := Decode([0x0a] + (EncU29(k * 2) + rest), d);
            && (r.Panicked? <==> k / 2 >= |d.objects|)
            && (k / 2 < |d.objects| ==> r == Got(Done(d.objects[k / 2], rest, d)))
            && (k < |d.objects| ==> (r == Got(Done(d.objects[k], rest, d)) <==> d.objects[k / 2] == d.objects[k]))
  {
    hide EncU29, DecU29;
    Marked(0x0a, EncU29(k * 2) + rest, d);
    U29Reads(k * 2, rest);
    assert k * 2 / 4 == k / 2;
  }

  /** The same for an array reference, which also fails where entry k / 2 is no array. */
  lemma ArrayReferenceIff(k: nat, rest: bytes, d: Tables)
    requires k * 2 < U29
    ensures var r := Decode([0x09] + (EncU29(k * 2) + rest), d);
            && (r.Panicked? <==> k / 2 >= |d.objects|)
            && (k / 2 < |d.objects| ==>
                  r == if d.objects[k / 2].Array? then Got(Done(d.objects[k / 2], rest, d)) else Failed)
            && (k < |d.objects| ==>
                  (r == Got(Done(d.objects[k], rest, d)) <==> d.objects[k / 2] == d.objects[k] && d.objects[k].Array?))
  {
    hide EncU29, DecU29;
    Marked(0x09, EncU29(k * 2) + rest, d);
    U29Reads(k * 2, rest);
    assert k * 2 / 4 == k / 2;
  }

  /** With two arrays in the table, a reference to the second gives the first; so does one with a single entry. */
  lemma WrongEntry(a: Value, b: Value, rest: bytes)
    requires a.Array? && b.Array?
    ensures Decode([0x09, 0x02] + rest, Tables([], [a, b], [])) == Got(Done(a, rest, Tables([], [a, b], [])))
    ensures Decode([0x09, 0x02] + rest, Tables([], [a], [])) == Got(Done(a, rest, Tables([], [a], [])))
  {
    assert [0x09, 0x02] + rest == [0x09] + (EncU29(2) + rest);
    ArrayReferenceIff(1, rest, Tables([], [a, b], []));
    ArrayReferenceIff(1, rest, Tables([], [a], []));
  }

  // ---------- the tables ----------

  /** Decoding only adds to the tables. */
  predicate Grows<T>(d: Tables, r: Outcome<Done<T>>)
  {
    r.Got? ==> Extends(d, r.value.d)
  }

  predicate Extends(d: Tables, e: Tables)
  {
    d.strings <= e.strings && d.objects <= e.objects && d.traits <= e.traits
  }

  lemma ExtendsTrans(a: Tables, b: Tables, c: Tables)
    requires Extends(a, b) && Extends(b, c)
    ensures Extends(a, c)
  {
  }

  lemma StringGrows(s: bytes, d: Tables)
    ensures Grows(d, DecString(s, d))
  {
    hide DecU29, ReadSome;
  }

  lemma {:induction false} StringsGrow(s: bytes, d: Tables, n: nat)
    ensures Grows(d, DecStrings(s, d, n))
    decreases n
  {
    hide DecString, Extends;
    Same(d);
    if n > 0 {
      StringGrows(s, d);
      var k := DecString(s, d);
      if k.Got? {
        StringsGrow(k.value.rest, k.value.d, n - 1);
        var ks := DecStrings(k.value.rest, k.value.d, n - 1);
        if ks.Got? { ExtendsTrans(d, k.value.d, ks.value.d); }
      }
    }
  }

  lemma Same(d: Tables)
    ensures Extends(d, d)
  {
  }

  lemma {:induction false} DecodeGrows(s: bytes, d: Tables)
    ensures Grows(d, Decode(s, d))
    decreases |s|, 0
  {
    hide DecodeBody;
    if s != [] { BodyGrows(s[0], s[1..], d); }
  }

  lemma {:induction false} BodyGrows(marker: u8, t: bytes, d: Tables)
    ensures Grows(d, DecodeBody(marker, t, d))
    decreases |t|, 3
  {
    hide DecodeArray, DecodeObject, DecString, DecU29;
    StringGrows(t, d);
    if marker == 0x09 {
      ArrayGrows(t, d);
    } else if marker == 0x0a {
      ObjectGrows(t, d);
    }
  }

  lemma {:induction false} ArrayGrows(t: bytes, d: Tables)
    ensures Grows(d, DecodeArray(t, d))
    decreases |t|, 2
  {
    hide DecodeElems, DecString, DecU29;
    var u := DecU29(t);
    if u.Got? && u.value.0 % 2 == 1 {
      StringGrows(u.value.1, d);
      var k := DecString(u.value.1, d);
      if k.Got? {
        ElemsGrow(k.value.rest, k.value.d, u.value.0 / 2);
      }
    }
  }

  lemma {:induction false} ElemsGrow(s: bytes, d: Tables, n: nat)
    ensures Grows(d, DecodeElems(s, d, n))
    decreases |s|, 1, n
  {
    hide Decode, Extends;
    Same(d);
    if n > 0 {
      DecodeGrows(s, d);
      var v := Decode(s, d);
      if v.Got? {
        ElemsGrow(v.value.rest, v.value.d, n - 1);
        var es := DecodeElems(v.value.rest, v.value.d, n - 1);
        if es.Got? { ExtendsTrans(d, v.value.d, es.value.d); }
      }
    }
  }

  lemma TraitGrows(u: nat, t: bytes, d: Tables)
    ensures Grows(d, DecTrait(u, t, d))
  {
    hide DecString, DecStrings;
    StringGrows(t, d);
    var c := DecString(t, d);
    if c.Got? { StringsGrow(c.value.rest, c.value.d, u / 16); }
  }

  lemma {:induction false} ObjectGrows(t: bytes, d: Tables)
    ensures Grows(d, DecodeObject(t, d))
    decreases |t|, 2
  {
    hide DecTrait, DecodeFields, DecodeDynamic, DecU29;
    var u := DecU29(t);
    if u.Got? && u.value.0 % 2 == 1 { SpelledGrows(u.value.0, u.value.1, d); }
  }

  /** What a spelled-out object leaves: the tables with its traits and a null for itself, and then more. */
  lemma {:induction false} SpelledGrows(u: nat, t: bytes, d: Tables)
    ensures var tr := DecTrait(u, t, d);
            tr.Got? ==>
              var d1 := Entered(tr.value.d);
              var f := DecodeFields(tr.value.rest, d1, tr.value.v.properties, map[]);
              && Extends(d, d1) && Entered(d).objects <= d1.objects
              && (f.Got? ==> Extends(d1, f.value.d) && Grows(d1, DecodeDynamic(f.value.rest, f.value.d, f.value.v)))
    decreases |t|, 2
  {
    hide DecTrait, DecodeFields, DecodeDynamic, DecU29;
    TraitGrows(u, t, d);
    TraitKeepsObjects(u, t, d);
    var tr := DecTrait(u, t, d);
    if tr.Got? {
      var d1 := Entered(tr.value.d);
      FieldsGrow(tr.value.rest, d1, tr.value.v.properties, map[]);
      var f := DecodeFields(tr.value.rest, d1, tr.value.v.properties, map[]);
      if f.Got? {
        DynamicGrows(f.value.rest, f.value.d, f.value.v);
        var g := DecodeDynamic(f.value.rest, f.value.d, f.value.v);
        if g.Got? { ExtendsTrans(d1, f.value.d, g.value.d); }
      }
    }
  }

  /** An object enters the table as null. */
  function Entered(d: Tables): Tables { d.(objects := d.objects + [Null]) }

  lemma TraitKeepsObjects(u: nat, t: bytes, d: Tables)
    ensures var tr := DecTrait(u, t, d); tr.Got? ==> tr.value.d.objects == d.objects
  {
    hide DecString, DecStrings;
    StringKeepsObjects(t, d);
    var c := DecString(t, d);
    if c.Got? { StringsKeepObjects(c.value.rest, c.value.d, u / 16); }
  }

  lemma StringKeepsObjects(s: bytes, d: Tables)
    ensures var r := DecString(s, d); r.Got? ==> r.value.d.objects == d.objects
  {
    hide DecU29, ReadSome;
  }

  lemma {:induction false} StringsKeepObjects(s: bytes, d: Tables, n: nat)
    ensures var r := DecStrings(s, d, n); r.Got? ==> r.value.d.objects == d.objects
    decreases n
  {
    hide DecString;
    if n > 0 {
      StringKeepsObjects(s, d);
      var k := DecString(s, d);
      if k.Got? { StringsKeepObjects(k.value.rest, k.value.d, n - 1); }
    }
  }

  lemma {:induction false} FieldsGrow(s: bytes, d: Tables, keys: seq<bytes>, m: map<bytes, Value>)
    ensures Grows(d, DecodeFields(s, d, keys, m))
    decreases |s|, 1, |keys|
  {
    hide Decode, Extends;
    Same(d);
    if keys != [] {
      DecodeGrows(s, d);
      var v := Decode(s, d);
      if v.Got? {
        FieldsGrow(v.value.rest, v.value.d, keys[1..], m[keys[0] := v.value.v]);
        var r := DecodeFields(v.value.rest, v.value.d, keys[1..], m[keys[0] := v.value.v]);
        if r.Got? { ExtendsTrans(d, v.value.d, r.value.d); }
      }
    }
  }

  lemma {:induction false} DynamicGrows(s: bytes, d: Tables, m: map<bytes, Value>)
    ensures Grows(d, DecodeDynamic(s, d, m))
    decreases |s|, 1, 0
  {
    hide Decode, DecString, Extends;
    StringGrows(s, d);
    var k := DecString(s, d);
    if k.Got? && k.value.v != [] {
      DecodeGrows(k.value.rest, k.value.d);
      var v := Decode(k.value.rest, k.value.d);
      if v.Got? {
        ExtendsTrans(d, k.value.d, v.value.d);
        DynamicGrows(v.value.rest, v.value.d, m[k.value.v := v.value.v]);
        var r := DecodeDynamic(v.value.rest, v.value.d, m[k.value.v := v.value.v]);
        if r.Got? { ExtendsTrans(d, v.value.d, r.value.d); }
      }
    }
  }

  /** The entry of an object that was spelled out is null and stays so: no reference gives the object back. */
  lemma OwnEntryNull(t: bytes, d: Tables)
    requires DecU29(t).Got? && DecU29(t).value.0 % 2 == 1 && DecodeObject(t, d).Got?
    ensures var e := DecodeObject(t, d).value.d;
            Extends(d, e) && |d.objects| < |e.objects| && e.objects[|d.objects|] == Null
  {
    hide DecTrait, DecodeFields, DecodeDynamic, DecU29;
    SpelledGrows(DecU29(t).value.0, DecU29(t).value.1, d);
    ObjectGrows(t, d);
    assert Entered(d).objects[|d.objects|] == Null;
  }
}
