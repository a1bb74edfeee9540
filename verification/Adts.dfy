/** AAC frames behind ADTS headers (ISO/IEC 13818-7, section 6.2). */
module Adts {
  import opened Bytes
  import opened Options
  import opened Buffers

  datatype Config = Config(objectType: nat, rate: nat, channel: nat)

  predicate Fits(c: Config) { c.objectType < 32 && c.rate < 16 && c.channel < 16 }

  /** The first two bytes of an AudioSpecificConfig: five, four and four bits. */
  function ReadSpecific(src: bytes): (c: Config)
    requires |src| >= 2
    ensures Fits(c)
  {
    Config(src[0] / 8, src[0] % 8 * 2 + src[1] / 128, src[1] / 8 % 16)
  }

  /** The two bytes that say c, with `low` in the bits that do not matter here. */
  function Specific(c: Config, low: nat): bytes
    requires Fits(c) && low < 8
  {
    [c.objectType * 8 + c.rate / 2, c.rate % 2 * 128 + c.channel * 8 + low]
  }

  lemma SpecificReads(c: Config, low: nat)
    requires Fits(c) && low < 8
    ensures ReadSpecific(Specific(c, low)) == c
  {
    var b0, b1 := c.objectType * 8 + c.rate / 2, c.rate % 2 * 128 + c.channel * 8 + low;
    ModUnique(b0, 8, c.objectType, c.rate / 2);
    ModUnique(b1, 128, c.rate % 2, c.channel * 8 + low);
    ModUnique(b1, 8, c.rate % 2 * 16 + c.channel, low);
    ModUnique(c.rate % 2 * 16 + c.channel, 16, c.rate % 2, c.channel);
  }

  // The header's bytes, in the arithmetic of bytes and of a 16-bit frame length: what a shift moves
  // out of the word is lost.

  function FrameLen(n: nat): nat { (n % 0x1_0000 + 7) % 0x1_0000 }

  function TypeBits(c: Config): nat { (c.objectType + 0xff) % 0x100 * 64 % 0x100 }

  function ChannelBits(c: Config): nat { c.channel * 4 * 16 % 0x100 }

  function HighBits(l: nat): nat { l * 8 % 0x1_0000 / 0x4000 }

  function MiddleBits(l: nat): nat { l * 32 % 0x1_0000 / 0x100 }

  function LowBits(l: nat): nat { l * 0x2000 % 0x1_0000 / 0x2000 }

  lemma TypeBitsAre(c: Config)
    requires Fits(c)
    ensures TypeBits(c) == (c.objectType + 3) % 4 * 64 && ChannelBits(c) == c.channel % 4 * 64
  {
    TwoBits((c.objectType + 0xff) % 0x100);
    TwoBits(c.channel);
    if c.objectType > 0 {
      assert (c.objectType + 0xff) % 0x100 == c.objectType - 1;
    }
  }

  lemma TwoBits(x: nat)
    ensures x * 64 % 0x100 == x % 4 * 64
  {
    ModUnique(x * 64, 0x100, x / 4, x % 4 * 64);
  }

  lemma LengthBitsAre(l: nat)
    requires l < 0x1_0000
    ensures HighBits(l) == l / 0x800 % 4 && MiddleBits(l) == l / 8 % 0x100 && LowBits(l) == l % 8
    ensures HighBits(l) * 0x800 + MiddleBits(l) * 8 + LowBits(l) == l % 0x2000
  {
    var p, s, m, r := l / 0x2000, l / 0x800 % 4, l / 8 % 0x100, l % 8;
    assert l == p * 0x2000 + s * 0x800 + m * 8 + r by { Digits(l); }
    High(p, s, m * 8 + r);
    Middle(p * 4 + s, m, r);
    Low(p * 0x400 + s * 0x100 + m, r);
  }

  lemma Digits(l: nat)
    ensures l == l / 0x2000 * 0x2000 + l / 0x800 % 4 * 0x800 + l / 8 % 0x100 * 8 + l % 8
    ensures l % 0x2000 == l / 0x800 % 4 * 0x800 + l / 8 % 0x100 * 8 + l % 8
  {
    assert l / 0x800 == l / 8 / 0x100 && l / 0x2000 == l / 0x800 / 4;
  }

  lemma High(p: nat, s: nat, r: nat)
    requires s < 4 && r < 0x800
    ensures HighBits(p * 0x2000 + s * 0x800 + r) == s
  {
    ModUnique((p * 0x2000 + s * 0x800 + r) * 8, 0x1_0000, p, s * 0x4000 + r * 8);
    ModUnique(s * 0x4000 + r * 8, 0x4000, s, r * 8);
  }

  lemma Middle(p: nat, m: nat, r: nat)
    requires m < 0x100 && r < 8
    ensures MiddleBits(p * 0x800 + m * 8 + r) == m
  {
    ModUnique((p * 0x800 + m * 8 + r) * 32, 0x1_0000, p, m * 0x100 + r * 32);
  }

  lemma Low(p: nat, r: nat)
    requires r < 8
    ensures LowBits(p * 8 + r) == r
  {
    ModUnique((p * 8 + r) * 0x2000, 0x1_0000, p, r * 0x2000);
  }

  /** The header for n bytes of data. */
  function Header(c: Config, n: nat): (h: bytes)
    requires Fits(c)
    ensures |h| == 7
  {
    var l := FrameLen(n);
    TypeBitsAre(c);
    LengthBitsAre(l);
    [0xff, 0xf1, TypeBits(c) + c.rate * 4, ChannelBits(c) + HighBits(l), MiddleBits(l), LowBits(l) * 32 + 31, 0xfc]
  }

  /** The fields where the standard puts them. */
  datatype Fields = Fields(sync: nat, profile: nat, rate: nat, channel: nat, frameLen: nat, fullness: nat, blocks: nat)

  function ReadHeader(h: bytes): Fields
    requires |h| == 7
  {
    FieldsOf(h[0], h[1], h[2], h[3], h[4], h[5], h[6])
  }

  function FieldsOf(a: nat, b: nat, c: nat, d: nat, e: nat, f: nat, g: nat): Fields
  {
    Fields(a * 16 + b / 16, c / 64, c / 4 % 16, c % 2 * 4 + d / 64,
           d % 4 * 0x800 + e * 8 + f / 32, f % 32 * 64 + g / 4, g % 4)
  }

  /** What the header says: two bits of the type, two of the channels, thirteen of the length. */
  lemma HeaderReads(c: Config, n: nat)
    requires Fits(c)
    ensures ReadHeader(Header(c, n)) ==
            Fields(0xfff, (c.objectType + 3) % 4, c.rate, c.channel % 4, (n + 7) % 0x2000, 0x7ff, 0)
  {
    hide TypeBits, ChannelBits, HighBits, MiddleBits, LowBits, FrameLen, FieldsOf;
    var l := FrameLen(n);
    Length13(n);
    TypeBitsAre(c);
    LengthBitsAre(l);
    Smaller(c.objectType + 3, c.channel, l);
    Unpacked((c.objectType + 3) % 4, c.rate, c.channel % 4, HighBits(l), MiddleBits(l), LowBits(l));
  }

  lemma Smaller(t: nat, ch: nat, l: nat)
    ensures t % 4 < 4 && ch % 4 < 4 && l / 0x800 % 4 < 4 && l / 8 % 0x100 < 0x100 && l % 8 < 8
  {
  }

  lemma Unpacked(t: nat, rate: nat, ch: nat, hi: nat, mid: nat, lo: nat)
    requires t < 4 && rate < 16 && ch < 4 && hi < 4 && mid < 0x100 && lo < 8
    ensures FieldsOf(0xff, 0xf1, t * 64 + rate * 4, ch * 64 + hi, mid, lo * 32 + 31, 0xfc) ==
            Fields(0xfff, t, rate, ch, hi * 0x800 + mid * 8 + lo, 0x7ff, 0)
  {
    assert (t * 64 + rate * 4) / 4 == t * 16 + rate;
    ModUnique(t * 16 + rate, 16, t, rate);
    ModUnique(t * 64 + rate * 4, 64, t, rate * 4);
    ModUnique(t * 64 + rate * 4, 2, t * 32 + rate * 2, 0);
    ModUnique(ch * 64 + hi, 64, ch, hi);
    ModUnique(ch * 64 + hi, 4, ch * 16, hi);
    ModUnique(lo * 32 + 31, 32, lo, 31);
  }

  lemma Length13(n: nat)
    ensures FrameLen(n) < 0x1_0000 && FrameLen(n) % 0x2000 == (n + 7) % 0x2000
  {
    var q := n / 0x1_0000;
    assert n == q * 0x1_0000 + n % 0x1_0000;
    var x := n % 0x1_0000 + 7;
    assert n + 7 == q * 8 * 0x2000 + x;
    assert (n + 7) % 0x2000 == x % 0x2000;
  }

  /** A header names a configuration and the length of its frame; the profile is one below the object type. */
  predicate Tells(f: Fields, c: Config, n: nat)
  {
    && f.sync == 0xfff && f.profile + 1 == c.objectType && f.rate == c.rate && f.channel == c.channel
    && f.frameLen == n + 7
  }

  /** The header tells the truth exactly for types 1 to 4, fewer than 4 channels and 8184 bytes. */
  lemma HeaderIff(c: Config, n: nat)
    requires Fits(c)
    ensures Tells(ReadHeader(Header(c, n)), c, n) <==> 1 <= c.objectType <= 4 && c.channel < 4 && n <= 8184
  {
    hide Header, ReadHeader;
    HeaderReads(c, n);
  }

  // ---------- a run of frames ----------

  type Fitting = c: Config | Fits(c) witness Config(0, 0, 0)

  /** A raw frame and the configuration it is framed under. */
  datatype Raw = Raw(cfg: Fitting, data: bytes)

  function Framed(rs: seq<Raw>): bytes
  {
    if rs == [] then [] else Header(rs[0].cfg, |rs[0].data|) + rs[0].data + Framed(rs[1..])
  }

  datatype Frame = Frame(fields: Fields, data: bytes)

  /** A frame begins with the syncword, in layer 0, and says that no check sum follows its seven bytes of header. */
  predicate Starts(s: bytes)
    requires |s| >= 7
  {
    s[0] == 0xff && s[1] / 16 == 0xf && s[1] / 2 % 4 == 0 && s[1] % 2 == 1
  }

  /** Cutting a stream at frame starts, by the length field. */
  function SplitFrames(s: bytes): Option<seq<Frame>>
    decreases |s|
  {
    if s == [] then Some([])
    else if |s| < 7 || !Starts(s) then None
    else
      var f := ReadHeader(s[..7]);
      if f.frameLen < 7 || f.frameLen > |s| then None
      else
        match SplitFrames(s[f.frameLen..])
        case None => None
        case Some(more) => Some([Frame(f, s[7..f.frameLen])] + more)
  }

  function Datas(fs: seq<Frame>): (r: seq<bytes>)
    ensures |r| == |fs|
  {
    if fs == [] then [] else [fs[0].data] + Datas(fs[1..])
  }

  function Payloads(rs: seq<Raw>): (r: seq<bytes>)
    ensures |r| == |rs|
  {
    if rs == [] then [] else [rs[0].data] + Payloads(rs[1..])
  }

  /** What the header of a raw frame says. */
  function Said(r: Raw): Fields
  {
    Fields(0xfff, (r.cfg.objectType + 3) % 4, r.cfg.rate, r.cfg.channel % 4, (|r.data| + 7) % 0x2000, 0x7ff, 0)
  }

  /** Every frame with the fields of its configuration. */
  function Expected(rs: seq<Raw>): seq<Frame>
  {
    if rs == [] then [] else [Frame(Said(rs[0]), rs[0].data)] + Expected(rs[1..])
  }

  lemma {:induction false} ExpectedDatas(rs: seq<Raw>)
    ensures Datas(Expected(rs)) == Payloads(rs)
  {
    if rs != [] { ExpectedDatas(rs[1..]); }
  }

  lemma {:induction false} FramesRead(rs: seq<Raw>)
    requires forall r <- rs :: |r.data| <= 8184
    ensures SplitFrames(Framed(rs)) == Some(Expected(rs))
  {
    hide Header, ReadHeader, Framed, SplitFrames, Said;
    if rs != [] {
      var r, more := rs[0], Framed(rs[1..]);
      assert r in rs && forall x <- rs[1..] :: x in rs;
      FramesRead(rs[1..]);
      FrameFirst(r, more);
      FramedHead(rs);
    } else {
      NothingFramed();
    }
  }

  lemma NothingFramed()
    ensures SplitFrames(Framed([])) == Some([])
  {
  }

  lemma FramedHead(rs: seq<Raw>)
    requires rs != []
    ensures Framed(rs) == Header(rs[0].cfg, |rs[0].data|) + rs[0].data + Framed(rs[1..])
  {
  }

  /** A frame that is not too long is cut off as the first. */
  lemma FrameFirst(r: Raw, more: bytes)
    requires |r.data| <= 8184
    ensures SplitFrames(Header(r.cfg, |r.data|) + r.data + more) ==
            match SplitFrames(more) case None => None case Some(fs) => Some([Frame(Said(r), r.data)] + fs)
  {
    hide Header, ReadHeader, Starts;
    var s := Header(r.cfg, |r.data|) + r.data + more;
    HeadFrame(r, more);
    assert |s| == 7 + |r.data| + |more| && (|r.data| + 7) % 0x2000 == |r.data| + 7;
  }

  /** A reader finds the syncword, MPEG-4, layer 0, and that there is no check sum. */
  lemma HeaderStarts(c: Config, n: nat)
    requires Fits(c)
    ensures Starts(Header(c, n)) && Header(c, n)[1] / 8 % 2 == 0
  {
    hide TypeBits, ChannelBits, HighBits, MiddleBits, LowBits;
  }

  lemma HeadFrame(r: Raw, more: bytes)
    ensures var s := Header(r.cfg, |r.data|) + r.data + more;
            && s[..7] == Header(r.cfg, |r.data|) && ReadHeader(s[..7]) == Said(r) && Starts(s)
            && s[7..|r.data| + 7] == r.data && s[|r.data| + 7..] == more
  {
    hide Header, ReadHeader;
    var s := Header(r.cfg, |r.data|) + r.data + more;
    assert s[..7] == Header(r.cfg, |r.data|);
    HeaderReads(r.cfg, |r.data|);
    HeaderStarts(r.cfg, |r.data|);
    assert s[0] == s[..7][0] && s[1] == s[..7][1];
  }

  /** The frames come back exactly when none is longer than 8184 bytes, whatever their configurations. */
  lemma {:induction false} FramesReadIff(rs: seq<Raw>)
    ensures CameBack(SplitFrames(Framed(rs)), rs) <==> forall r <- rs :: |r.data| <= 8184
  {
    hide SplitFrames, Framed;
    if forall r <- rs :: |r.data| <= 8184 {
      FramesRead(rs);
      ExpectedDatas(rs);
    } else {
      LongFrameLost(rs);
    }
  }

  predicate CameBack(fs: Option<seq<Frame>>, rs: seq<Raw>) { fs.Some? && Datas(fs.value) == Payloads(rs) }

  lemma {:induction false} LongFrameLost(rs: seq<Raw>)
    requires exists r <- rs :: |r.data| > 8184
    ensures !CameBack(SplitFrames(Framed(rs)), rs)
  {
    hide Header, ReadHeader, SplitFrames, Framed, Said, Payloads, Datas;
    var r, more := rs[0], Framed(rs[1..]);
    FramedHead(rs);
    PayloadsHead(rs);
    var got := SplitFrames(Framed(rs));
    if got.Some? {
      if |r.data| > 8184 {
        LongFrameCut(r, more);
        DatasHead(got.value);
      } else {
        var g :| g in rs && |g.data| > 8184;
        assert g in rs[1..];
        FrameFirst(r, more);
        LongFrameLost(rs[1..]);
        DatasHead(got.value);
        assert got.value[1..] == SplitFrames(more).value;
      }
    }
  }

  /** A frame that is too long loses its end. */
  lemma LongFrameCut(r: Raw, more: bytes)
    requires |r.data| > 8184
    ensures var got := SplitFrames(Header(r.cfg, |r.data|) + r.data + more);
            got.Some? ==> got.value != [] && |got.value[0].data| < |r.data|
  {
    hide Header, ReadHeader, Starts;
    HeadFrame(r, more);
  }

  lemma PayloadsHead(rs: seq<Raw>)
    requires rs != []
    ensures Payloads(rs)[0] == rs[0].data && Payloads(rs)[1..] == Payloads(rs[1..])
  {
  }

  lemma DatasHead(fs: seq<Frame>)
    requires fs != []
    ensures |Datas(fs)| == |fs| && Datas(fs)[0] == fs[0].data && Datas(fs)[1..] == Datas(fs[1..])
  {
  }

  lemma {:induction false} FramedSnoc(rs: seq<Raw>, r: Raw)
    ensures Framed(rs + [r]) == Framed(rs) + Framed([r])
  {
    hide Header;
    if rs == [] {
      assert [] + [r] == [r];
    } else {
      assert (rs + [r])[1..] == rs[1..] + [r];
      FramedSnoc(rs[1..], r);
      ConcatAssoc(Header(rs[0].cfg, |rs[0].data|) + rs[0].data, Framed(rs[1..]), Framed([r]));
    }
  }

  // ---------- the parser ----------

  const AAC_RATES: seq<nat> :=
    [96000, 88200, 64000, 48000, 44100, 32000, 24000, 22050, 16000, 12000, 11025, 8000, 7350]

  /** 44100 when the index is not in the table. */
  function Rate(c: Config): (r: nat)
    ensures 7350 <= r <= 96000
  {
    if c.rate < |AAC_RATES| then AAC_RATES[c.rate] else 44100
  }

  /** Two configurations have one rate exactly with one index, or when both have none but 44100. */
  lemma RateLaws(c: Config, d: Config)
    requires Fits(c) && Fits(d)
    ensures c.rate < d.rate < 13 ==> Rate(c) > Rate(d)
    ensures c.rate < 13 ==>
              var rates := [96000, 88200, 64000, 48000, 44100, 32000, 24000, 22050, 16000, 12000, 11025, 8000, 7350];
              Rate(c) == rates[c.rate]
    ensures Rate(c) == 44100 <==> c.rate == 4 || c.rate >= 13
    ensures Rate(c) == Rate(d) <==> c.rate == d.rate || {c.rate, d.rate} <= {4, 13, 14, 15}
  {
  }

  class AacParser {
    var gettedSpecific: bool
    var cfgInfo: Fitting
    const adtsHeader: array<u8>

    ghost predicate Valid()
      reads this
    {
      adtsHeader.Length == 7
    }

    constructor ()
      ensures Valid() && !gettedSpecific && cfgInfo == Config(0, 0, 0) && fresh(adtsHeader)
    {
      gettedSpecific, cfgInfo := false, Config(0, 0, 0);
      adtsHeader := new u8[7];
    }

    method SpecificInfo(src: bytes) returns (ok: bool)
      requires Valid()
      modifies this
      ensures Valid() && ok == (|src| >= 2)
      ensures ok ==> gettedSpecific && cfgInfo == ReadSpecific(src)
      ensures !ok ==> gettedSpecific == old(gettedSpecific) && cfgInfo == old(cfgInfo)
    {
      ok := |src| >= 2;
      if !ok { return; }
      gettedSpecific := true;
      cfgInfo := Config(src[0] / 8, src[0] % 8 * 2 + src[1] / 128, src[1] / 8 % 16);
    }

    /** One frame behind a header built in the parser's own seven bytes. */
    method Adts(src: bytes, w: Buffer) returns (ok: bool)
      requires Valid()
      modifies adtsHeader, w
      ensures ok == (src != [] && gettedSpecific)
      ensures w.content == old(w.content) + if ok then Framed([Raw(cfgInfo, src)]) else []
    {
      hide Header, Framed, FrameLen, TypeBits, ChannelBits, HighBits, MiddleBits, LowBits;
      ok := |src| > 0 && gettedSpecific;
      if !ok { return; }
      var frameLen := FrameLen(|src|);
      Length13(|src|);
      TypeBitsAre(cfgInfo);
      LengthBitsAre(frameLen);
      adtsHeader[0] := 0xff;
      adtsHeader[1] := 0xf1;
      adtsHeader[2] := 0;
      adtsHeader[2] := adtsHeader[2] + TypeBits(cfgInfo);
      adtsHeader[2] := adtsHeader[2] + cfgInfo.rate * 4;
      adtsHeader[3] := 0;
      adtsHeader[3] := adtsHeader[3] + ChannelBits(cfgInfo);
      adtsHeader[3] := adtsHeader[3] + HighBits(frameLen);
      adtsHeader[4] := MiddleBits(frameLen);
      adtsHeader[5] := LowBits(frameLen) * 32;
      adtsHeader[5] := adtsHeader[5] + 31;
      adtsHeader[6] := 0xfc;
      HeaderIs(cfgInfo, |src|, adtsHeader[..]);
      w.Write(adtsHeader[..]);
      w.Write(src);
      FramedOne(cfgInfo, src);
    }

    /** 44100 stands for an index that is not in the table. */
    method SampleRate() returns (rate: nat)
      ensures rate == Rate(cfgInfo) && rate in AAC_RATES
      ensures rate == 44100 <==> cfgInfo.rate == 4 || cfgInfo.rate > 12
    {
      rate := 44100;
      if cfgInfo.rate <= |AAC_RATES| - 1 { rate := AAC_RATES[cfgInfo.rate]; }
    }
  }

  lemma HeaderIs(c: Config, n: nat, h: bytes)
    requires Fits(c) && |h| == 7 && h[0] == 0xff && h[1] == 0xf1 && h[6] == 0xfc
    requires h[2] == TypeBits(c) + c.rate * 4 && h[3] == ChannelBits(c) + HighBits(FrameLen(n))
    requires h[4] == MiddleBits(FrameLen(n)) && h[5] == LowBits(FrameLen(n)) * 32 + 31
    ensures h == Header(c, n)
  {
    hide FrameLen, TypeBits, ChannelBits, HighBits, MiddleBits, LowBits;
  }

  lemma FramedOne(c: Config, f: bytes)
    requires Fits(c)
    ensures Framed([Raw(c, f)]) == Header(c, |f|) + f
  {
    assert [Raw(c, f)][1..] == [];
  }
}
