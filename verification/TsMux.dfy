/** The muxer at work: one 188-byte array overwritten packet by packet, byte counters that wrap. */
module TsMux {
  import opened Bytes
  import opened Buffers
  import opened TsSpec
  import Crc32

  /** Arithmetic on Go's byte type. */
  function B(x: int): u8 { x % 256 }

  /** Go's copy: `src` into `a` from `i` on. */
  method CopyAt(a: array<u8>, i: nat, src: bytes)
    requires i + |src| <= a.Length
    modifies a
    ensures a[..] == old(a[..i]) + src + old(a[i + |src|..])
  {
    ghost var was := a[..];
    for k := 0 to |src|
      invariant a[..] == was[..i] + src[..k] + was[i + k..]
    {
      a[i + k] := src[k];
      assert a[..] == was[..i] + src[..k + 1] + was[i + k + 1..];
    }
    assert src[..|src|] == src;
  }

  class Muxer {
    var videoCc: nat
    var audioCc: nat
    var patCc: nat
    var pmtCc: nat
    const tsPacket: array<u8>
    const pat: array<u8>
    const pmt: array<u8>

    ghost predicate Valid()
      reads this
    {
      && tsPacket.Length == pat.Length == pmt.Length == PACKET
      && tsPacket != pat && tsPacket != pmt && pat != pmt
      && videoCc < 16 && audioCc < 16 && patCc <= 16 && pmtCc <= 16
    }

    ghost function Ccs(): Counters
      reads this
    {
      Counters(videoCc, audioCc)
    }

    constructor ()
      ensures Valid() && fresh(tsPacket) && fresh(pat) && fresh(pmt)
      ensures videoCc == audioCc == patCc == pmtCc == 0
    {
      tsPacket := new u8[PACKET](_ => 0);
      pat := new u8[PACKET](_ => 0);
      pmt := new u8[PACKET](_ => 0);
      videoCc, audioCc, patCc, pmtCc := 0, 0, 0, 0;
    }

    /** Writes the length byte of an adaptation field, flags, and 0xff to the end of the packet. */
    method AdaptationBufInit(i: nat, remainBytes: u8)
      requires tsPacket.Length == PACKET && 4 <= i && i + 2 <= PACKET
      modifies tsPacket
      ensures tsPacket[..i] == old(tsPacket[..i])
      ensures 0 < remainBytes <= PACKET - i ==> tsPacket[i..i + remainBytes] == Stuffing(remainBytes)
    {
      ghost var was := tsPacket[..i];
      tsPacket[i] := B(remainBytes - 1);
      if remainBytes != 1 {
        tsPacket[i + 1] := 0;
        var k := i + 2;
        while k < PACKET
          invariant i + 2 <= k <= PACKET
          invariant tsPacket[..i] == was && tsPacket[i] == B(remainBytes - 1) && tsPacket[i + 1] == 0
          invariant forall j :: i + 2 <= j < k ==> tsPacket[j] == 0xff
        {
          tsPacket[k] := 0xff;
          k := k + 1;
        }
      }
    }

    method WritePcr(i: nat, pcr: nat)
      requires i + 6 <= tsPacket.Length
      modifies tsPacket
      ensures tsPacket[..] == old(tsPacket[..i]) + Pcr(pcr) + old(tsPacket[i + 6..])
    {
      tsPacket[i] := B(pcr / 0x200_0000);
      tsPacket[i + 1] := B(pcr / 0x2_0000);
      tsPacket[i + 2] := B(pcr / 0x200);
      tsPacket[i + 3] := B(pcr / 2);
      tsPacket[i + 4] := pcr % 2 * 128 + 0x7e;
      tsPacket[i + 5] := 0;
    }

    /** Header bytes, and for the first packet of a key frame the field with the clock. */
    method WriteHead(first: bool, isVideo: bool, key: bool, cc: nat, dts: nat) returns (i: nat)
      requires tsPacket.Length == PACKET && cc < 16 && (key ==> isVideo)
      modifies tsPacket
      ensures i == if first && key then 12 else 4
      ensures tsPacket[..i] == if first && key then KeyHead(cc, dts)
                               else Head(if isVideo then VIDEO_PID else AUDIO_PID, first, false, cc)
    {
      var pid := if isVideo then VIDEO_PID else AUDIO_PID;
      tsPacket[0] := 0x47;
      tsPacket[1] := B(pid / 256);
      if first { tsPacket[1] := tsPacket[1] + 0x40; }
      tsPacket[2] := B(pid);
      tsPacket[3] := 0x10 + cc % 16;
      i := 4;
      if first && key {
        tsPacket[3] := tsPacket[3] + 0x20;
        tsPacket[4] := 7;
        tsPacket[5] := 0x50;
        WritePcr(6, dts);
        i := 12;
      }
    }

    /** Sets the adaptation flag and stuffs the packet from i on; returns the wrapped next index. */
    method Adapt(i: nat, first: bool, dataLen: u8) returns (next: nat)
      requires tsPacket.Length == PACKET && (i == 4 || i == 12) && 0 < dataLen < ROOM && (i == 12 ==> first)
      requires tsPacket[3] / 16 == (if i == 12 then 3 else 1)
      modifies tsPacket
      ensures next == PACKET - dataLen
      ensures var head := old(tsPacket[..i])[3 := 0x30 + old(tsPacket[3]) % 16];
              tsPacket[..next] == if next > i then head + Stuffing(next - i) else head[..next]
    {
      ghost var was := tsPacket[..i];
      if tsPacket[3] / 32 % 2 == 0 { tsPacket[3] := tsPacket[3] + 0x20; }
      assert tsPacket[..i] == was[3 := 0x30 + was[3] % 16];
      var remainBytes := if first then B(ROOM - dataLen - (i - 4)) else B(ROOM - dataLen);
      AdaptationBufInit(i, remainBytes);
      next := B(i + remainBytes);
      WrappedIndex(i, dataLen);
      if next > i {
        assert tsPacket[..next] == tsPacket[..i] + tsPacket[i..next];
      } else {
        assert tsPacket[..next] == tsPacket[..i][..next];
      }
    }

    /** Wrapping or not, the index ends where the rest of the frame fits exactly. */
    lemma WrappedIndex(i: nat, dataLen: u8)
      requires (i == 4 || i == 12) && 0 < dataLen < ROOM
      ensures B(i + B(ROOM - dataLen - (i - 4))) == PACKET - dataLen
      ensures PACKET - dataLen > i ==> B(ROOM - dataLen - (i - 4)) == PACKET - dataLen - i
    {
    }

    /** Fills the packet from i on with header bytes and data bytes. */
    method Place(i: nat, hdr: bytes, data: bytes)
      requires tsPacket.Length == PACKET && i + |hdr| + |data| == PACKET
      modifies tsPacket
      ensures tsPacket[..] == old(tsPacket[..i]) + hdr + data
    {
      CopyAt(tsPacket, i, hdr);
      assert tsPacket[..i + |hdr|] == old(tsPacket[..i]) + hdr;
      CopyAt(tsPacket, i + |hdr|, data);
      assert tsPacket[..i + |hdr|] == old(tsPacket[..i]) + hdr;
    }

    /**
     * One packet: head, adaptation field where the frame's rest does not fill it, PES header in the
     * first packet, then data. Returns how much data it took.
     */
    method FillPacket(p: Packet, first: bool, cc: nat, hdr: bytes, wBytes: nat, packetBytesLen: nat)
      returns (dataLen: nat)
      requires tsPacket.Length == PACKET && cc < 16 && wBytes <= |p.data|
      requires packetBytesLen == |hdr| + |p.data| - wBytes > 0
      requires if first then hdr == PesHeader(p) && wBytes == 0 else hdr == []
      modifies tsPacket
      ensures wBytes + dataLen <= |p.data|
      ensures first ==> |hdr| + dataLen == FirstTakes(p) && tsPacket[..] == First(p, cc)
      ensures !first ==> dataLen == (if packetBytesLen >= ROOM then ROOM else packetBytesLen)
      ensures !first ==> tsPacket[..] == Next(PidOf(p), cc, p.data[wBytes..])
    {
      hide PesHeader, KeyHead, Head, Stuffing, HeadOf, First, Next, FirstTakes;
      var i;
      i, dataLen := FillHead(p, first, cc, packetBytesLen);
      ghost var front := tsPacket[..i];
      var tmpLen := PACKET - i;
      if |hdr| <= tmpLen { tmpLen := |hdr|; }
      assert tmpLen == |hdr|;
      dataLen := dataLen - tmpLen;
      tmpLen := PACKET - i - tmpLen;
      if tmpLen <= dataLen { dataLen := tmpLen; }
      assert PACKET == i + |hdr| + dataLen;
      Place(i, hdr, p.data[wBytes..wBytes + dataLen]);
      Shape(p, first, cc, hdr, wBytes, front, dataLen);
    }

    /** The packet's parts put together are the specified packet. */
    lemma Shape(p: Packet, first: bool, cc: nat, hdr: bytes, w: nat, front: bytes, n: nat)
      requires cc < 16 && w + n <= |p.data| && |hdr| + |p.data| - w > 0 && |front| + |hdr| + n == PACKET
      requires if first then hdr == PesHeader(p) && w == 0 else hdr == []
      requires front == HeadOf(p, first, cc, |hdr| + |p.data| - w)
      requires !first ==> n == if |p.data| - w >= ROOM then ROOM else |p.data| - w
      ensures first ==> |hdr| + n == FirstTakes(p) && front + hdr + p.data[w..w + n] == First(p, cc)
      ensures !first ==> front + hdr + p.data[w..w + n] == Next(PidOf(p), cc, p.data[w..])
    {
      hide PesHeader, HeadOf, First, Next, FirstTakes;
      if first {
        assert p.data[0..n] == p.data[..n];
        FirstShape(p, cc, front, n);
      } else {
        assert front + [] == front;
        NextShape(p, cc, front, w, n);
      }
    }

    lemma NextShape(p: Packet, cc: nat, front: bytes, w: nat, n: nat)
      requires cc < 16 && w < |p.data| && n == (if |p.data| - w >= ROOM then ROOM else |p.data| - w)
      requires front == HeadOf(p, false, cc, |p.data| - w)
      ensures front + p.data[w..w + n] == Next(PidOf(p), cc, p.data[w..])
    {
      hide Head, Stuffing;
      assert p.data[w..w + n] == p.data[w..][..n];
      if n < ROOM { assert p.data[w..][..n] == p.data[w..]; }
    }

    /** What stands in front of the frame's bytes, given how many are left. */
    ghost function HeadOf(p: Packet, first: bool, cc: nat, n: nat): bytes
      requires cc < 16 && n > 0
    {
      if first && IsKey(p) then
        if n >= ROOM then KeyHead(cc, Dts(p))
        else if n >= 176 then KeyHead(cc, Dts(p))[..188 - n]
        else KeyHead(cc, Dts(p)) + Stuffing(176 - n)
      else if n >= ROOM then Head(PidOf(p), first, false, cc)
      else Head(PidOf(p), first, true, cc) + Stuffing(ROOM - n)
    }

    /** Header and adaptation field; where the frame goes on from, and how much room the code counts on. */
    method FillHead(p: Packet, first: bool, cc: nat, packetBytesLen: nat) returns (i: nat, dataLen: nat)
      requires tsPacket.Length == PACKET && cc < 16 && packetBytesLen > 0
      modifies tsPacket
      ensures i <= PACKET && tsPacket[..i] == HeadOf(p, first, cc, packetBytesLen)
      ensures packetBytesLen >= ROOM ==> i == (if first && IsKey(p) then 12 else 4) && dataLen == PACKET - i
      ensures packetBytesLen < ROOM ==> i == PACKET - packetBytesLen && dataLen == packetBytesLen
    {
      hide KeyHead, Head, Stuffing;
      i := WriteHead(first, p.isVideo, IsKey(p), cc, Dts(p));
      HeadFlags(p, first, cc, tsPacket[..i]);
      if packetBytesLen >= ROOM {
        dataLen := ROOM;
        if first { dataLen := dataLen - (i - 4); }
      } else {
        dataLen := packetBytesLen;
        i := Adapt(i, first, dataLen);
      }
    }

    /** The head before the adaptation flag is set, and the same head with the flag. */
    lemma HeadFlags(p: Packet, first: bool, cc: nat, head: bytes)
      requires cc < 16
      requires head == if first && IsKey(p) then KeyHead(cc, Dts(p)) else Head(PidOf(p), first, false, cc)
      ensures head[3] / 16 == (if first && IsKey(p) then 3 else 1) && head[3] % 16 == cc
      ensures head[3 := 0x30 + cc] == if first && IsKey(p) then KeyHead(cc, Dts(p)) else Head(PidOf(p), first, true, cc)
    {
    }

    lemma FirstShape(p: Packet, cc: nat, front: bytes, dataLen: nat)
      requires cc < 16 && dataLen <= |p.data|
      requires |front| + |PesHeader(p)| + dataLen == PACKET && front == HeadOf(p, true, cc, |Unit(p)|)
      ensures |PesHeader(p)| + dataLen == FirstTakes(p) && front + PesHeader(p) + p.data[..dataLen] == First(p, cc)
    {
      hide PesHeader, KeyHead, Head, Stuffing;
      var u := Unit(p);
      var taken := |PesHeader(p)| + dataLen;
      assert PesHeader(p) + p.data[..dataLen] == u[..taken];
      ConcatAssoc(front, PesHeader(p), p.data[..dataLen]);
      if |u| < ROOM { assert u[..|u|] == u; }
    }

    /** Multiplexes one frame. */
    method Mux(p: Packet, w: Buffer)
      requires Valid()
      modifies `videoCc, `audioCc, tsPacket, w
      ensures Valid() && Ccs() == CountersAfter(old(Ccs()), p)
      ensures w.content == old(w.content) + TsSpec.Mux(p, old(Ccs()).Of(PidOf(p)))
    {
      hide First, TsSpec.Next, PesHeader, FirstTakes, CcAfter, Tail;
      var hdr := MakePesHeader(p);
      var first := true;
      var wBytes: nat := 0;
      var packetBytesLen: nat := |p.data| + |hdr|;
      ghost var cc0 := Ccs().Of(PidOf(p));
      ghost var taken := FirstTakes(p);
      while packetBytesLen > 0
        invariant Valid() && wBytes <= |p.data|
        invariant p.isVideo ==> audioCc == old(audioCc)
        invariant !p.isVideo ==> videoCc == old(videoCc)
        invariant first ==> wBytes == 0 && packetBytesLen == |p.data| + |hdr| && w.content == old(w.content)
        invariant first ==> Ccs() == old(Ccs())
        invariant !first ==> packetBytesLen == |p.data| - wBytes
        invariant !first ==>
                    w.content + Tail(PidOf(p), Ccs().Of(PidOf(p)), p.data[wBytes..]) ==
                    old(w.content) + TsSpec.Mux(p, cc0)
        invariant !first ==> CcAfter(Ccs().Of(PidOf(p)), p.data[wBytes..]) == MuxCc(p, cc0)
        decreases packetBytesLen
      {
        ghost var before := Ccs().Of(PidOf(p));
        if p.isVideo {
          videoCc := videoCc + 1;
          if videoCc > 0xf { videoCc := 0; }
        } else {
          audioCc := audioCc + 1;
          if audioCc > 0xf { audioCc := 0; }
        }
        var cc := if p.isVideo then videoCc else audioCc;
        var dataLen := FillPacket(p, first, cc, if first then hdr else [], wBytes, packetBytesLen);
        if first {
          UnitRest(p, dataLen);
        } else {
          TailStep(PidOf(p), before, p.data, wBytes, dataLen);
        }
        wBytes := wBytes + dataLen;
        packetBytesLen := packetBytesLen - dataLen - (if first then |hdr| else 0);
        w.Write(tsPacket[..]);
        first := false;
      }
      assert p.data[wBytes..] == [];
      TailEnd(PidOf(p), Ccs().Of(PidOf(p)));
    }

    lemma UnitRest(p: Packet, dataLen: nat)
      requires |PesHeader(p)| + dataLen == FirstTakes(p) && dataLen <= |p.data|
      ensures Unit(p)[FirstTakes(p)..] == p.data[dataLen..]
    {
      hide PesHeader;
    }

    lemma TailStep(pid: nat, cc: nat, data: bytes, from: nat, dataLen: nat)
      requires pid < 0x2000 && cc < 16 && from < |data|
      requires dataLen == if |data| - from >= ROOM then ROOM else |data| - from
      ensures Tail(pid, cc, data[from..]) ==
              TsSpec.Next(pid, NextCc(cc), data[from..]) + Tail(pid, NextCc(cc), data[from + dataLen..])
      ensures CcAfter(cc, data[from..]) == CcAfter(NextCc(cc), data[from + dataLen..])
    {
      hide TsSpec.Next;
      assert data[from..][dataLen..] == data[from + dataLen..];
    }

    lemma TailEnd(pid: nat, cc: nat)
      requires pid < 0x2000 && cc < 16
      ensures Tail(pid, cc, []) == [] && CcAfter(cc, []) == cc
    {
    }

    method PAT() returns (r: bytes)
      requires Valid()
      modifies `patCc, pat
      ensures Valid() && r == Pat(old(patCc)) && patCc == TableCc(old(patCc)) + 1
    {
      hide TablePacket, Head;
      if patCc > 0xf { patCc := 0; }
      var tsHeader := [0x47, 0x40, 0x00, 0x10 + patCc % 16, 0x00];
      TableHead(0, patCc);
      patCc := patCc + 1;
      WriteTable(pat, tsHeader, PAT_SECTION, 0, TableCc(old(patCc)));
      r := pat[..];
    }

    method PMT(soundFormat: nat, hasVideo: bool) returns (r: bytes)
      requires Valid()
      modifies `pmtCc, pmt
      ensures Valid() && r == Pmt(old(pmtCc), soundFormat, hasVideo) && pmtCc == TableCc(old(pmtCc)) + 1
    {
      hide PmtSection, TablePacket, Head;
      var section := WritePmtSection(soundFormat, hasVideo);
      if pmtCc > 0xf { pmtCc := 0; }
      var tsHeader := [0x47, 0x50, 0x01, 0x10 + pmtCc % 16, 0x00];
      TableHead(0x1001, pmtCc);
      pmtCc := pmtCc + 1;
      WriteTable(pmt, tsHeader, section, 0x1001, TableCc(old(pmtCc)));
      r := pmt[..];
    }
  }

  /** The section's header and its stream list, patched byte by byte. */
  method WritePmtSection(soundFormat: nat, hasVideo: bool) returns (section: bytes)
    ensures section == PmtSection(soundFormat, hasVideo)
  {
    var pmtHeader: bytes := [0x02, 0xb0, 0xff, 0x00, 0x01, 0xc1, 0x00, 0x00, 0xe1, 0x00, 0xf0, 0x00];
    var progInfo: bytes;
    if !hasVideo {
      pmtHeader := pmtHeader[9 := 0x01];
      progInfo := [0x0f, 0xe1, 0x01, 0xf0, 0x00];
    } else {
      progInfo := [0x1b, 0xe1, 0x00, 0xf0, 0x00, 0x0f, 0xe1, 0x01, 0xf0, 0x00];
    }
    pmtHeader := pmtHeader[2 := |progInfo| + 9 + 4];
    if soundFormat == 2 || soundFormat == 14 {
      progInfo := if hasVideo then progInfo[5 := 0x04] else progInfo[0 := 0x04];
    }
    assert pmtHeader == PmtSection(soundFormat, hasVideo)[..12];
    assert progInfo == PmtSection(soundFormat, hasVideo)[12..];
    section := pmtHeader + progInfo;
  }

  lemma TableHead(pid: nat, cc: nat)
    requires pid < 0x2000 && cc < 16
    ensures Head(pid, true, false, cc) + [0] == [0x47, 0x40 + pid / 256, pid % 256, 0x10 + cc % 16, 0]
  {
  }

  /** Transport header, section, its CRC, and 0xff over whatever the array held before. */
  method WriteTable(a: array<u8>, tsHeader: bytes, section: bytes, ghost pid: nat, ghost cc: nat)
    requires a.Length == PACKET && |section| <= 100 && pid < 0x2000 && cc < 16
    requires tsHeader == Head(pid, true, false, cc) + [0]
    modifies a
    ensures a[..] == TablePacket(pid, cc, section)
  {
    hide Head;
    hide Crc32.CrcBytes, Crc32.Divide;
    CopyAt(a, 0, tsHeader);
    CopyAt(a, 5, section);
    ghost var front := tsHeader + section;
    var i := 5 + |section|;
    assert a[..i] == front;
    var crc := Crc32.GenCrc32(section);
    var check := Crc32.CrcBytes(crc);
    CopyAt(a, i, check);
    i := i + 4;
    front := front + check;
    assert a[..i] == front;
    var remain := PACKET - i;
    for j := 0 to remain
      invariant a[..i] == front
      invariant forall k :: i <= k < i + j ==> a[k] == 0xff
    {
      a[i + j] := 0xff;
    }
    assert a[i..] == Fill(0xff, remain);
    assert a[..] == a[..i] + a[i..];
  }

  /** The five bytes of a time stamp, written into the header from i on. */
  method WriteTs(src: array<u8>, i: nat, fb: nat, ts: nat)
    requires i + 5 <= src.Length && fb < 4
    modifies src
    ensures src[..] == old(src[..i]) + Stamp(fb, ts) + old(src[i + 5..])
  {
    var t := ts;
    if t > 0x1_ffff_ffff { t := t - 0x1_ffff_ffff; }
    var hi, mid, lo := t / 0x4000_0000 % 8, t / 0x8000 % 0x8000, t % 0x8000;
    hide Stamp;
    StampBytes(fb, ts, hi, mid, lo);
    src[i] := fb * 16 + hi * 2 + 1;
    src[i + 1] := B((mid * 2 + 1) / 256);
    src[i + 2] := B(mid * 2 + 1);
    src[i + 3] := B((lo * 2 + 1) / 256);
    src[i + 4] := B(lo * 2 + 1);
  }

  lemma StampBytes(fb: nat, ts: nat, hi: nat, mid: nat, lo: nat)
    requires fb < 4
    requires var t := if ts > 0x1_ffff_ffff then ts - 0x1_ffff_ffff else ts;
             hi == t / 0x4000_0000 % 8 && mid == t / 0x8000 % 0x8000 && lo == t % 0x8000
    ensures Stamp(fb, ts) ==
            [fb * 16 + hi * 2 + 1, B((mid * 2 + 1) / 256), B(mid * 2 + 1), B((lo * 2 + 1) / 256), B(lo * 2 + 1)]
  {
    TwoBytes(mid * 2 + 1);
    TwoBytes(lo * 2 + 1);
  }

  lemma TwoBytes(v: nat)
    ensures BE(v, 2) == [B(v / 256), B(v)]
  {
    assert BE(v / 256, 1) == [v / 256 % 256];
  }

  /** Start code, stream id, size (0 when it does not fit), flags and header length. */
  method WritePesFront(p: Packet, both: bool, data: array<u8>)
    requires data.Length == PACKET
    modifies data
    ensures data[..9] == PesFront(p, both)
  {
    data[0], data[1], data[2] := 0, 0, 1;
    data[3] := if p.isVideo then 0xe0 else 0xc0;
    var flag := 0x80;
    var headerSize := 5;
    if both {
      flag := flag + 0x40;
      headerSize := headerSize + 5;
    }
    var size := |p.data| + headerSize + 3;
    if size > 0xffff { size := 0; }
    data[4] := B(size / 256);
    data[5] := B(size);
    TwoBytes(size);
    data[6] := 0x80;
    data[7] := flag;
    data[8] := headerSize;
  }

  function PesFront(p: Packet, both: bool): (r: bytes)
    ensures |r| == 9
  {
    var extra := if both then 10 else 5;
    var size := |p.data| + extra + 3;
    [0, 0, 1, if p.isVideo then 0xe0 else 0xc0] + BE(if size > 0xffff then 0 else size, 2)
    + [0x80, if both then 0xc0 else 0x80, extra]
  }

  /** The PES header of a frame. */
  method MakePesHeader(p: Packet) returns (hdr: bytes)
    ensures hdr == PesHeader(p)
  {
    hide Stamp, PesHeader, PesFront;
    var data := new u8[PACKET](_ => 0);
    var both := p.isVideo && Pts(p) != Dts(p);
    WritePesFront(p, both, data);
    var i := 9;
    WriteTs(data, i, if both then 3 else 2, Pts(p));
    i := i + 5;
    assert data[..i] == PesFront(p, both) + Stamp(if both then 3 else 2, Pts(p));
    if both {
      WriteTs(data, i, 1, Dts(p));
      i := i + 5;
      assert data[..i] == PesFront(p, both) + Stamp(3, Pts(p)) + Stamp(1, Dts(p));
    }
    hdr := data[..i];
    PesParts(p);
    assert hdr + [] == hdr;
  }

  lemma PesParts(p: Packet)
    ensures PesHeader(p) == PesFront(p, HasDts(p)) + Stamp(if HasDts(p) then 3 else 2, Pts(p))
                            + if HasDts(p) then Stamp(1, Dts(p)) else []
  {
    hide Stamp;
  }
}
