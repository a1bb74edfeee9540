/** FLV files (Adobe FLV 10.1, Annex E.3 and E.4.1): tags framed by a size in front and one behind. */
module Flv {
  import opened Bytes
  import opened Options
  import opened Buffers
  import opened Timestamps
  import Av
  import Amf0Spec
  import Amf0Theorems

  datatype FlvTag = FlvTag(typeId: u8, timestamp: u32, streamId: nat, data: bytes)

  const FLV_HEADER: bytes := [0x46, 0x4c, 0x56, 0x01, 0x05, 0x00, 0x00, 0x00, 0x09]
  const HEADER_LEN: nat := 11
  const SIZE_MAX: nat := 0x100_0000

  /** Type, data size, low and high bits of the time, a stream id of zero. */
  function TagHead(t: FlvTag): (h: bytes)
    ensures |h| == HEADER_LEN
  {
    [t.typeId] + BE(|t.data|, 3) + BE(t.timestamp % 0x100_0000, 3) + [t.timestamp / 0x100_0000] + [0, 0, 0]
  }

  function TagBytes(t: FlvTag): bytes
  {
    TagHead(t) + t.data + BE(|t.data| + HEADER_LEN, 4)
  }

  function TagsBytes(ts: seq<FlvTag>): bytes
  {
    if ts == [] then [] else TagsBytes(ts[..|ts| - 1]) + TagBytes(ts[|ts| - 1])
  }

  function File(ts: seq<FlvTag>): bytes { FLV_HEADER + [0, 0, 0, 0] + TagsBytes(ts) }

  // ---------- reading ----------

  function ReadTag(h: bytes, data: bytes): FlvTag
    requires |h| == HEADER_LEN
  {
    var high: nat := h[7];
    FlvTag(h[0], high * 0x100_0000 + FromBE3(h[4..7]), FromBE(h[8..11]), data)
  }

  function FromBE3(b: bytes): (n: nat)
    requires |b| == 3
    ensures n < 0x100_0000
  {
    FromBEBound(b);
    Pow256Values();
    FromBE(b)
  }

  /** Forward, by the data size. */
  function ParseForward(s: bytes): Option<seq<FlvTag>>
    decreases |s|
  {
    if s == [] then Some([])
    else if |s| < HEADER_LEN then None
    else
      var end := HEADER_LEN + FromBE3(s[1..4]);
      if |s| < end + 4 then None
      else
        match ParseForward(s[end + 4..])
        case None => None
        case Some(more) => Some([ReadTag(s[..HEADER_LEN], s[HEADER_LEN..end])] + more)
  }

  /** Backward, by the size of the previous tag. */
  function ParseBackward(s: bytes): Option<seq<FlvTag>>
    decreases |s|
  {
    if s == [] then Some([])
    else if |s| < 4 then None
    else
      var n := FromBE(s[|s| - 4..]);
      if n < HEADER_LEN || |s| < n + 4 then None
      else
        var tag := s[|s| - 4 - n..|s| - 4];
        match ParseBackward(s[..|s| - 4 - n])
        case None => None
        case Some(before) => Some(before + [ReadTag(tag[..HEADER_LEN], tag[HEADER_LEN..])])
  }

  lemma HeadReads(t: FlvTag)
    requires t.streamId == 0
    ensures ReadTag(TagHead(t), t.data) == t && FromBE3(TagHead(t)[1..4]) == |t.data| % SIZE_MAX
  {
    hide BE, FromBE;
    var h, low := TagHead(t), t.timestamp % 0x100_0000;
    Pow256Values();
    BERoundTrip(|t.data|, 3);
    BEExact(low, 3);
    assert h[1..4] == BE(|t.data|, 3) && h[4..7] == BE(low, 3) && h[8..11] == [0, 0, 0];
    assert FromBE([0, 0, 0]) == 0 by { ZeroBE(); }
  }

  /** A tag field by field (Adobe FLV 10.1, section E.4.1), and the size behind it. */
  lemma TagLaid(t: FlvTag)
    requires t.streamId == 0
    ensures var b, n := TagBytes(t), |t.data|;
            && |b| == n + 15 && b[0] == t.typeId && FromBE(b[1..4]) == n % 0x100_0000
            && FromBE(b[4..7]) + b[7] as nat * 0x100_0000 == t.timestamp && b[8..11] == [0, 0, 0]
            && b[11..11 + n] == t.data && FromBE(b[11 + n..]) == (n + 11) % 0x1_0000_0000
  {
    hide BE, FromBE;
    var b, low := TagBytes(t), t.timestamp % 0x100_0000;
    Pow256Values();
    BERoundTrip(|t.data|, 3);
    BEExact(low, 3);
    BERoundTrip(|t.data| + 11, 4);
    assert b[1..4] == BE(|t.data|, 3) && b[4..7] == BE(low, 3);
    assert b[11 + |t.data|..] == BE(|t.data| + 11, 4);
  }

  lemma TagParts(t: FlvTag, more: bytes)
    requires t.streamId == 0
    ensures var s, end := TagBytes(t) + more, HEADER_LEN + |t.data|;
            && |s| == end + 4 + |more| && s[..HEADER_LEN] == TagHead(t) && s[1..4] == TagHead(t)[1..4]
            && s[HEADER_LEN..end] == t.data && s[end + 4..] == more
  {
    hide TagHead, BE;
    var s := TagBytes(t) + more;
    assert s == TagHead(t) + t.data + BE(|t.data| + HEADER_LEN, 4) + more;
    assert s[..HEADER_LEN] == TagHead(t);
    assert s[1..4] == s[..HEADER_LEN][1..4];
  }

  lemma {:induction false} TagsFirst(t: FlvTag, ts: seq<FlvTag>)
    ensures TagsBytes([t] + ts) == TagBytes(t) + TagsBytes(ts)
    decreases |ts|
  {
    hide TagBytes;
    if ts == [] {
      assert [t] + ts == [t] && [t][..0] == [];
      assert TagsBytes([t]) == [] + TagBytes(t);
    } else {
      var k := |ts| - 1;
      TagsFirst(t, ts[..k]);
      assert ([t] + ts)[..|ts|] == [t] + ts[..k];
      ConcatAssoc(TagBytes(t), TagsBytes(ts[..k]), TagBytes(ts[k]));
    }
  }

  /** One tag in front: read whole if its size fits, otherwise not what it was. */
  lemma ForwardStep(t: FlvTag, more: bytes)
    requires t.streamId == 0
    ensures |t.data| < SIZE_MAX ==>
              ParseForward(TagBytes(t) + more) ==
              match ParseForward(more) case None => None case Some(ts) => Some([t] + ts)
    ensures |t.data| >= SIZE_MAX ==>
              var r := ParseForward(TagBytes(t) + more); r.Some? ==> r.value != [] && r.value[0] != t
  {
    hide TagHead, TagBytes, ReadTag, FromBE3;
    var s := TagBytes(t) + more;
    TagParts(t, more);
    HeadReads(t);
    var end := HEADER_LEN + |t.data| % SIZE_MAX;
    if |t.data| >= SIZE_MAX && |s| >= end + 4 {
      TagData(s[..HEADER_LEN], s[HEADER_LEN..end]);
    }
  }

  lemma NoBytes()
    ensures TagsBytes([]) == []
  {
  }

  /** Reading forward gives the tags exactly when every size fits its 24 bits. */
  lemma {:induction false} ForwardIff(ts: seq<FlvTag>)
    requires forall t <- ts :: t.streamId == 0
    ensures ParseForward(TagsBytes(ts)) == Some(ts) <==> forall t <- ts :: |t.data| < SIZE_MAX
    decreases |ts|
  {
    if ts == [] {
      NoBytes();
    } else {
      var t, more := ts[0], ts[1..];
      assert t in ts && ts == [t] + more;
      assert forall u :: u in ts <==> u == t || u in more;
      TagsFirst(t, more);
      ForwardStep(t, TagsBytes(more));
      ForwardIff(more);
      hide ParseForward, TagsBytes, TagBytes;
      var r := ParseForward(TagsBytes(ts));
      if r == Some(ts) && |t.data| < SIZE_MAX {
        assert ([t] + ParseForward(TagsBytes(more)).value)[1..] == ts[1..];
      }
    }
  }

  lemma TagData(h: bytes, data: bytes)
    requires |h| == HEADER_LEN
    ensures ReadTag(h, data).data == data
  {
  }

  /** Reading backward gives the tags as long as tag sizes fit 32 bits. */
  lemma {:induction false} BackwardReads(ts: seq<FlvTag>)
    requires forall t <- ts :: t.streamId == 0 && |t.data| + HEADER_LEN < MOD32
    ensures ParseBackward(TagsBytes(ts)) == Some(ts)
    decreases |ts|
  {
    hide TagBytes;
    if ts != [] {
      var k := |ts| - 1;
      assert ts[k] in ts && ts == ts[..k] + [ts[k]];
      BackwardReads(ts[..k]);
      hide ParseBackward;
      BackwardStep(TagsBytes(ts[..k]), ts[k]);
    }
  }

  lemma BackwardStep(before: bytes, t: FlvTag)
    requires t.streamId == 0 && |t.data| + HEADER_LEN < MOD32
    ensures ParseBackward(before + TagBytes(t)) ==
            match ParseBackward(before) case None => None case Some(ts) => Some(ts + [t])
  {
    hide TagHead, TagBytes, ReadTag, BE, FromBE;
    LastTag(before, t);
  }

  lemma LastTag(before: bytes, t: FlvTag)
    requires t.streamId == 0 && |t.data| + HEADER_LEN < MOD32
    ensures var s, n := before + TagBytes(t), |t.data| + HEADER_LEN;
            && |s| == |before| + n + 4 && FromBE(s[|s| - 4..]) == n && s[..|s| - 4 - n] == before
            && ReadTag(s[|s| - 4 - n..|s| - 4][..HEADER_LEN], s[|s| - 4 - n..|s| - 4][HEADER_LEN..]) == t
  {
    hide TagHead, ReadTag, BE, FromBE;
    var s, n := before + TagBytes(t), |t.data| + HEADER_LEN;
    Pow256Values();
    BEExact(n, 4);
    HeadReads(t);
    assert s == before + (TagHead(t) + t.data) + BE(n, 4);
    assert s[|s| - 4..] == BE(n, 4);
    assert s[|s| - 4 - n..|s| - 4] == TagHead(t) + t.data;
  }

  // ---------- metadata ----------

  /** "@setDataFrame". */
  const SET_DATA_FRAME: bytes := [0x40, 0x73, 0x65, 0x74, 0x44, 0x61, 0x74, 0x61, 0x46, 0x72, 0x61, 0x6d, 0x65]

  function SetFrame(): bytes { Amf0Spec.Encode(Amf0Spec.StrItem(SET_DATA_FRAME)) }

  lemma SetFrameIs()
    ensures SetFrame() == [0x02, 0x00, 0x0d] + SET_DATA_FRAME
  {
    assert BE(13, 2) == [0, 13] by { assert BE(0, 1) == [0]; }
  }

  /** Adding puts the command name in front unless it is there; removing takes its bytes away if it is. */
  function Reform(p: bytes, add: bool): Option<bytes>
  {
    var v := Amf0Spec.Decode(p).v;
    if v.None? || !v.value.Str? then None
    else if add then Some(if v.value.s == SET_DATA_FRAME then p else SetFrame() + p)
    else if v.value.s == SET_DATA_FRAME then
      NameLength(p);
      Some(p[16..])
    else Some(p)
  }

  /** The data starts with the name. */
  predicate Named(p: bytes) { Amf0Spec.Decode(p).v == Some(Amf0Spec.Str(SET_DATA_FRAME)) }

  /** A name is cut off behind its marker and its length of two or four bytes. */
  lemma NameLength(p: bytes)
    requires Named(p)
    ensures p != []
    ensures var k := if p[0] == 0x02 then 16 else 18; |p| >= k && Amf0Spec.Decode(p).rest == p[k..]
  {
    hide Amf0Spec.Decode;
    NameSize();
    NamePlace(p, SET_DATA_FRAME);
  }

  lemma NameSize()
    ensures |SET_DATA_FRAME| == 13
    ensures forall i :: 0 <= i < 13 ==> SET_DATA_FRAME[i] == "@setDataFrame"[i] as int
  {
  }

  lemma NamePlace(p: bytes, name: bytes)
    requires Amf0Spec.Decode(p).v == Some(Amf0Spec.Str(name))
    ensures p != []
    ensures var k := |name| + if p[0] == 0x02 then 3 else 5; |p| >= k && Amf0Spec.Decode(p).rest == p[k..]
  {
    hide Amf0Spec.Decode, Amf0Spec.DecodeString, Amf0Spec.DecodeBody;
    NotEmpty(p);
    DecodeFirst(p);
    BodyPlace(p[0], p[1..], name);
    var j := |name| + if p[0] == 0x02 then 2 else 4;
    assert p[1..][j..] == p[1 + j..];
  }

  lemma BodyPlace(m: u8, t: bytes, name: bytes)
    requires Amf0Spec.DecodeBody(m, t).v == Some(Amf0Spec.Str(name))
    ensures var j := |name| + if m == 0x02 then 2 else 4; |t| >= j && Amf0Spec.DecodeBody(m, t).rest == t[j..]
  {
    hide Amf0Spec.DecodeString, Amf0Spec.DecodeBody;
    StringsOnly(m, t);
    StringLength(t, if m == 0x02 then 2 else 4);
  }

  lemma DecodeFirst(p: bytes)
    requires p != []
    ensures Amf0Spec.Decode(p) == Amf0Spec.DecodeBody(p[0], p[1..])
  {
    hide Amf0Spec.DecodeBody, Amf0Spec.Decode;
    assert p == [p[0]] + p[1..];
    Amf0Theorems.Marked(p[0], p[1..]);
  }

  lemma StringsOnly(m: u8, t: bytes)
    requires var v := Amf0Spec.DecodeBody(m, t).v; v.Some? && v.value.Str?
    ensures var r, n := Amf0Spec.DecodeBody(m, t), Amf0Spec.DecodeString(t, if m == 0x02 then 2 else 4);
            n == Amf0Spec.Step(Some(r.v.value.s), r.rest)
  {
    hide Amf0Spec.DecodeString, Amf0Spec.DecodeProps, Amf0Spec.DecodeElems, FromBE;
  }

  lemma StringLength(t: bytes, w: nat)
    ensures var r := Amf0Spec.DecodeString(t, w);
            r.v.Some? ==> |t| >= w + |r.v.value| && r.rest == t[w + |r.v.value|..]
  {
    hide FromBE;
  }

  /** Removal takes away exactly the name if and only if it came as a short string; else two bytes of it stay. */
  lemma StripsNameIff(p: bytes)
    requires Named(p)
    ensures p != []
    ensures Reform(p, false) == Some(Amf0Spec.Decode(p).rest) <==> p[0] == 0x02
    ensures p[0] != 0x02 ==> |p| >= 18 && Reform(p, false) == Some(p[16..18] + Amf0Spec.Decode(p).rest)
  {
    hide Amf0Spec.Decode, Reform, Named;
    Stripped(p);
    NameLength(p);
    if p[0] != 0x02 { TwoLeft(p); }
  }

  lemma Stripped(p: bytes)
    requires Named(p)
    ensures |p| >= 16 && Reform(p, false) == Some(p[16..])
  {
    hide Amf0Spec.Decode;
    NameLength(p);
  }

  lemma TwoLeft(p: bytes)
    requires |p| >= 18
    ensures p[16..] == p[16..18] + p[18..] && p[16..] != p[18..]
  {
    assert |p[16..]| != |p[18..]|;
  }

  /** Removing undoes adding exactly when the name was not there. */
  lemma RemoveAddIff(p: bytes)
    requires Reform(p, true).Some?
    ensures Reform(Reform(p, true).value, false) == Some(p) <==> !Named(p)
  {
    hide Amf0Spec.Decode;
    var q := Reform(p, true).value;
    if Named(p) {
      NameLength(p);
      assert |p[16..]| != |p|;
    } else {
      NotEmpty(p);
      NameReads(p);
      SetFrameIs();
      assert q[16..] == p;
    }
  }

  lemma NotEmpty(p: bytes)
    requires Amf0Spec.Decode(p).v.Some?
    ensures p != []
  {
  }

  lemma NameReads(p: bytes)
    requires p != []
    ensures Amf0Spec.Decode(SetFrame() + p).v == Some(Amf0Spec.Str(SET_DATA_FRAME))
  {
    hide Amf0Spec.Decode, Amf0Spec.Encode;
    Amf0Theorems.DecodeEncode(Amf0Spec.StrItem(SET_DATA_FRAME), p);
  }

  // ---------- the writer ----------

  /** Go's slices of the header buffer, written most significant byte first. */
  method PutBE(b: array<u8>, i: nat, n: nat, v: nat)
    requires i + n <= b.Length && n <= 4
    modifies b
    ensures b[..] == old(b[..i]) + BE(v, n) + old(b[i + n..])
  {
    hide BE;
    ghost var was := b[..];
    var k, rest := n, v;
    ghost var done: bytes := [];
    BEParts(v, 0, []);
    while k > 0
      invariant 0 <= k <= n && |done| == n - k
      invariant BE(rest, k) + done == BE(v, n)
      invariant b[..] == was[..i + k] + done + was[i + n..]
    {
      k := k - 1;
      BEParts(rest, k, done);
      done := [rest % 256] + done;
      b[i + k] := rest % 256;
      assert b[..] == was[..i + k] + done + was[i + n..];
      rest := rest / 256;
    }
    assert BE(rest, 0) == [] by { BEParts(rest, 0, []); }
    assert [] + done == done;
  }

  lemma BEParts(v: nat, k: nat, done: bytes)
    ensures BE(v, k + 1) + done == BE(v / 256, k) + ([v % 256] + done)
    ensures BE(v, 0) == []
  {
    ConcatAssoc(BE(v / 256, k), [v % 256], done);
  }

  class FlvWriter {
    const clock: RWBaser
    const buf: array<u8>
    const ctx: Buffer
    ghost var tags: seq<FlvTag>  // what was written since the file was made

    /** The file is the tags'; the last three bytes of the header buffer are never written. */
    ghost predicate Valid()
      reads this, buf, ctx
    {
      && buf.Length == HEADER_LEN && buf[8..] == [0, 0, 0]
      && ctx.content == File(tags) && forall t <- tags :: t.streamId == 0
    }

    constructor ()
      ensures Valid() && tags == [] && clock.Abs() == Clock(0, 0, 0)
      ensures fresh(clock) && fresh(buf) && fresh(ctx)
    {
      clock := new RWBaser();
      buf := new u8[HEADER_LEN](_ => 0);
      ctx := new Buffer();
      tags := [];
      new;
      hide BE, File;
      ZeroBytes();
      ctx.Write(FLV_HEADER);
      assert ctx.content == FLV_HEADER by { assert [] + FLV_HEADER == FLV_HEADER; }
      ghost var zeros := buf[8..];
      PutBE(buf, 0, 4, 0);
      assert buf[8..] == zeros && buf[..4] == [0, 0, 0, 0];
      ctx.Write(buf[..4]);
    }

    /**
     * Whatever was written, the file behind its 13 bytes parses backward into the tags written, and
     * forward exactly when every size fits its 24 bits.
     */
    lemma FileReads()
      requires Valid() && forall t <- tags :: |t.data| + HEADER_LEN < MOD32
      ensures |ctx.content| >= 13 && ParseBackward(ctx.content[13..]) == Some(tags)
      ensures ctx.content[..13] == [0x46, 0x4c, 0x56, 1, 5, 0, 0, 0, 9, 0, 0, 0, 0]
      ensures ParseForward(ctx.content[13..]) == Some(tags) <==> forall t <- tags :: |t.data| < SIZE_MAX
    {
      hide ParseForward, ParseBackward, TagsBytes;
      assert ctx.content[13..] == TagsBytes(tags);
      ForwardIff(tags);
      BackwardReads(tags);
    }

    /** The tag a packet becomes; none for metadata that does not start with a name. */
    ghost function TagOf(p: Av.Packet): Option<FlvTag>
      reads clock
    {
      var t := Sent(clock.Abs(), p.timestamp);
      if p.isVideo then Some(FlvTag(9, t, 0, p.data))
      else if !p.isMetadata then Some(FlvTag(8, t, 0, p.data))
      else match Reform(p.data, false) case None => None case Some(d) => Some(FlvTag(18, t, 0, d))
    }

    /** Appends the packet's tag; metadata that does not reform leaves file and clock as they were. */
    method Write(p: Av.Packet) returns (ok: bool)
      requires Valid()
      modifies `tags, clock, buf, ctx
      ensures Valid() && ok == old(TagOf(p)).Some?
      ensures tags == if ok then old(tags) + [old(TagOf(p)).value] else old(tags)
      ensures ok ==>
                var t := tags[|tags| - 1];
                && t.typeId == (if p.isVideo then 9 else if p.isMetadata then 18 else 8)
                && t.timestamp == (p.timestamp + old(clock.baseTimestamp)) % 0x1_0000_0000
                && (p.isVideo || !p.isMetadata ==> t.data == p.data)
      ensures ok ==> clock.Abs() == Record(old(clock.Abs()), KindOf(p), old(TagOf(p)).value.timestamp)
      ensures !ok ==> clock.Abs() == old(clock.Abs())
    {
      hide Reform, BE, TagBytes, File;
      ghost var tag := TagOf(p);
      var typeId: u8, data := 9, p.data;
      if !p.isVideo {
        if p.isMetadata {
          typeId := 18;
          var reformed := Reform(p.data, false);
          if reformed.None? { return false; }
          data := reformed.value;
        } else {
          typeId := 8;
        }
      }
      var timestamp := clock.Stamp(KindOf(p), p.timestamp);
      WriteTag(FlvTag(typeId, timestamp, 0, data));
      ok := true;
    }

    method WriteTag(t: FlvTag)
      requires Valid() && t.streamId == 0
      modifies `tags, buf, ctx
      ensures Valid() && tags == old(tags) + [t]
    {
      hide TagBytes, File;
      WriteParts(t);
      FileGrows(tags, t);
      tags := tags + [t];
    }

    /** Header, data and trailer; the header buffer's front is used again for the trailer. */
    method WriteParts(t: FlvTag)
      requires t.streamId == 0 && buf.Length == HEADER_LEN && buf[8..] == [0, 0, 0]
      modifies buf, ctx
      ensures buf[8..] == [0, 0, 0] && ctx.content == old(ctx.content) + TagBytes(t)
    {
      hide BE;
      ghost var zeros := buf[8..];
      buf[0] := t.typeId;
      PutBE(buf, 1, 3, |t.data|);
      PutBE(buf, 4, 3, t.timestamp % 0x100_0000);
      buf[7] := t.timestamp / 0x100_0000;
      assert buf[8..] == zeros;
      assert buf[..] == TagHead(t);
      ctx.Write(buf[..]);
      ctx.Write(t.data);
      PutBE(buf, 0, 4, |t.data| + HEADER_LEN);
      assert buf[8..] == zeros;
      assert buf[..4] == BE(|t.data| + HEADER_LEN, 4);
      ctx.Write(buf[..4]);
      InOrder(old(ctx.content), TagHead(t), t.data, BE(|t.data| + HEADER_LEN, 4));
    }
  }

  function KindOf(p: Av.Packet): Kind { if p.isVideo then Video else if p.isMetadata then Script else Audio }

  lemma InOrder(a: bytes, b: bytes, c: bytes, d: bytes)
    ensures a + b + c + d == a + (b + c + d)
  {
  }

  lemma ZeroBytes()
    ensures BE(0, 4) == [0, 0, 0, 0]
    ensures TagsBytes([]) == [] && File([]) == FLV_HEADER + [0, 0, 0, 0]
  {
    assert BE(0, 3) == [0, 0, 0] by { assert BE(0, 2) == [0, 0] by { assert BE(0, 1) == [0]; } }
  }

  /** A file grows by the tag that was written. */
  lemma FileGrows(ts: seq<FlvTag>, t: FlvTag)
    ensures File(ts + [t]) == File(ts) + TagBytes(t)
  {
    assert (ts + [t])[..|ts|] == ts;
    ConcatAssoc(FLV_HEADER + [0, 0, 0, 0], TagsBytes(ts), TagBytes(t));
  }
}
