/**
 * MPEG transport packets as the muxer lays them out, a reference demultiplexer
 * (ISO/IEC 13818-1, 2.4.3), and what one recovers of the other.
 */
module TsSpec {
  import opened Bytes
  import opened Options
  import opened Crc32

  const PACKET: nat := 188
  const ROOM: nat := 184       // a packet without its four header bytes
  const VIDEO_PID: nat := 0x100
  const AUDIO_PID: nat := 0x101
  const TS_WRAP: nat := 0x2_0000_0000   // 2^33

  /** What the muxer uses of an av.Packet and its video header. */
  datatype Packet = Packet(isVideo: bool, timeStamp: u32, keyFrame: bool, compositionTime: nat, data: bytes)

  function PidOf(p: Packet): nat { if p.isVideo then VIDEO_PID else AUDIO_PID }

  function Dts(p: Packet): nat { p.timeStamp * 90 }

  function Pts(p: Packet): nat { if p.isVideo then Dts(p) + p.compositionTime * 90 else Dts(p) }

  predicate IsKey(p: Packet) { p.isVideo && p.keyFrame }

  // ---------- time stamps ----------

  /** A time stamp above 2^33 - 1 is lowered by 2^33 - 1, once. */
  function Folded(ts: nat): nat { if ts > 0x1_ffff_ffff then ts - 0x1_ffff_ffff else ts }

  /** Five bytes: 3, 15 and 15 bits, each part followed by a marker bit, behind a 4-bit prefix. */
  function Stamp(prefix: nat, ts: nat): (r: bytes)
    requires prefix < 4
    ensures |r| == 5
  {
    var t := Folded(ts);
    [prefix * 16 + t / 0x4000_0000 % 8 * 2 + 1] + BE(t / 0x8000 % 0x8000 * 2 + 1, 2) + BE(t % 0x8000 * 2 + 1, 2)
  }

  function ReadStamp(b: bytes): nat
    requires |b| == 5
  {
    b[0] / 2 % 8 * 0x4000_0000 + FromBE(b[1..3]) / 2 * 0x8000 + FromBE(b[3..5]) / 2
  }

  lemma Bits15(v: nat)
    requires v < 0x8000
    ensures FromBE(BE(v * 2 + 1, 2)) / 2 == v
  {
    Pow256Values();
    BEExact(v * 2 + 1, 2);
  }

  lemma Parts33(t: nat)
    ensures t / 0x4000_0000 % 8 * 0x4000_0000 + t / 0x8000 % 0x8000 * 0x8000 + t % 0x8000 == t % TS_WRAP
  {
    var q := t / 0x8000;
    assert t == q * 0x8000 + t % 0x8000 && t / 0x4000_0000 == q / 0x8000;
    var r := q / 0x8000;
    assert q == r * 0x8000 + q % 0x8000 && r == r / 8 * 8 + r % 8;
    ModUnique(t, TS_WRAP, r / 8, r % 8 * 0x4000_0000 + q % 0x8000 * 0x8000 + t % 0x8000);
  }

  lemma PrefixGone(prefix: nat, hi: nat)
    requires prefix < 4 && hi < 8
    ensures (prefix * 16 + hi * 2 + 1) / 2 % 8 == hi
  {
    assert (prefix * 16 + hi * 2 + 1) / 2 == prefix * 8 + hi;
  }

  lemma StampReads(prefix: nat, ts: nat)
    requires prefix < 4
    ensures ReadStamp(Stamp(prefix, ts)) == Folded(ts) % TS_WRAP
  {
    hide BE, FromBE, Folded;
    var t := Folded(ts);
    var hi, mid, lo := t / 0x4000_0000 % 8, t / 0x8000 % 0x8000, t % 0x8000;
    var b := Stamp(prefix, ts);
    assert b[1..3] == BE(mid * 2 + 1, 2) && b[3..5] == BE(lo * 2 + 1, 2);
    Bits15(mid);
    Bits15(lo);
    Parts33(t);
    PrefixGone(prefix, hi);
  }

  /** A time stamp survives exactly when it fits in 33 bits: the fold subtracts one too few. */
  lemma StampIff(prefix: nat, ts: nat)
    requires prefix < 4
    ensures ReadStamp(Stamp(prefix, ts)) == ts % TS_WRAP <==> ts < TS_WRAP
  {
    hide Stamp, ReadStamp;
    StampReads(prefix, ts);
    if ts >= TS_WRAP {
      assert Folded(ts) == ts - TS_WRAP + 1;
      OneOff(ts, TS_WRAP);
    }
  }

  lemma OneOff(x: nat, m: nat)
    requires x >= m > 1
    ensures (x - m + 1) % m != x % m
  {
    var q, r := x / m, x % m;
    assert x == q * m + r && q * m > 0;
    assert x - m + 1 == (q - 1) * m + (r + 1);
    if r + 1 < m {
      ModUnique(x - m + 1, m, q - 1, r + 1);
    } else {
      assert x - m + 1 == q * m;
      ModUnique(x - m + 1, m, q, 0);
    }
  }

  /** The program clock reference: 33 bits, six reserved ones, a zero extension. */
  function Pcr(pcr: nat): (r: bytes)
    ensures |r| == 6
  {
    [pcr / 0x200_0000 % 256, pcr / 0x2_0000 % 256, pcr / 0x200 % 256, pcr / 2 % 256, pcr % 2 * 128 + 0x7e, 0]
  }

  function ReadPcr(b: bytes): nat
    requires |b| == 6
  {
    var b0: nat, b1: nat, b2: nat, b3: nat, b4: nat := b[0], b[1], b[2], b[3], b[4];
    b0 * 0x200_0000 + b1 * 0x2_0000 + b2 * 0x200 + b3 * 2 + b4 / 128
  }

  lemma PcrReads(pcr: nat)
    ensures ReadPcr(Pcr(pcr)) == pcr % TS_WRAP
  {
    var p0, p1, p2, p3 := pcr / 2, pcr / 0x200, pcr / 0x2_0000, pcr / 0x200_0000;
    assert p1 == p0 / 256 && p2 == p1 / 256 && p3 == p2 / 256;
    assert pcr % 0x200 == p0 % 256 * 2 + pcr % 2;
    assert pcr % 0x2_0000 == p1 % 256 * 0x200 + pcr % 0x200;
    assert pcr % 0x200_0000 == p2 % 256 * 0x2_0000 + pcr % 0x2_0000;
    assert pcr % TS_WRAP == p3 % 256 * 0x200_0000 + pcr % 0x200_0000;
  }

  // ---------- the PES unit of a frame ----------

  predicate HasDts(p: Packet) { p.isVideo && Pts(p) != Dts(p) }

  function PesHeader(p: Packet): (r: bytes)
    ensures |r| == if HasDts(p) then 19 else 14
  {
    var extra := if HasDts(p) then 10 else 5;
    var size := |p.data| + extra + 3;
    [0, 0, 1, if p.isVideo then 0xe0 else 0xc0]
    + BE(if size > 0xffff then 0 else size, 2)
    + [0x80, if HasDts(p) then 0xc0 else 0x80, extra]
    + Stamp(if HasDts(p) then 3 else 2, Pts(p))
    + (if HasDts(p) then Stamp(1, Dts(p)) else [])
  }

  function Unit(p: Packet): (r: bytes)
    ensures |r| >= 14
  {
    PesHeader(p) + p.data
  }

  /**
   * A receiver reads the frame back from its unit: the length behind the length field, or zero if that
   * does not fit; the data behind the header length; and each time stamp exactly when it is below 2^33.
   */
  lemma UnitReads(p: Packet)
    ensures var u, n := Unit(p), |PesHeader(p)|;
            && u[8] == n - 9 && u[n..] == p.data
            && FromBE(u[4..6]) == (if |u| - 6 > 0xffff then 0 else |u| - 6)
            && (ReadStamp(u[9..14]) == Pts(p) <==> Pts(p) < TS_WRAP)
            && (HasDts(p) ==> (ReadStamp(u[14..19]) == Dts(p) <==> Dts(p) < TS_WRAP))
  {
    hide Stamp, ReadStamp;
    var u, h := Unit(p), PesHeader(p);
    var first := Stamp(if HasDts(p) then 3 else 2, Pts(p));
    assert u[..|h|] == h;
    assert h[9..14] == first && u[9..14] == h[9..14];
    UnitLength(p);
    ExactStamp(if HasDts(p) then 3 else 2, Pts(p));
    if HasDts(p) {
      assert h[14..19] == Stamp(1, Dts(p)) && u[14..19] == h[14..19];
      ExactStamp(1, Dts(p));
    }
  }

  lemma UnitLength(p: Packet)
    ensures var u := Unit(p); FromBE(u[4..6]) == if |u| - 6 > 0xffff then 0 else |u| - 6
  {
    hide Stamp, BE, FromBE;
    var u, h := Unit(p), PesHeader(p);
    var n: nat := if |u| - 6 > 0xffff then 0 else |u| - 6;
    Pow256Values();
    BEExact(n, 2);
    assert h[4..6] == BE(n, 2);
    assert u[4..6] == h[4..6];
  }

  lemma ExactStamp(prefix: nat, ts: nat)
    requires prefix < 4
    ensures ReadStamp(Stamp(prefix, ts)) == ts <==> ts < TS_WRAP
  {
    hide Stamp, ReadStamp;
    StampReads(prefix, ts);
    StampIff(prefix, ts);
  }

  // ---------- transport packets ----------

  function Fill(v: u8, n: nat): (r: bytes)
    ensures |r| == n && forall k :: 0 <= k < n ==> r[k] == v
  {
    seq(n, _ => v)
  }

  /** An adaptation field of n bytes that carries nothing. */
  function Stuffing(n: nat): (r: bytes)
    requires 0 < n <= ROOM
    ensures |r| == n && r[0] == n - 1
  {
    if n == 1 then [0] else [n - 1, 0] + Fill(0xff, n - 2)
  }

  function Head(pid: nat, start: bool, adaptation: bool, cc: nat): (r: bytes)
    requires pid < 0x2000 && cc < 16
    ensures |r| == 4
  {
    [0x47, pid / 256 + (if start then 0x40 else 0), pid % 256, (if adaptation then 0x30 else 0x10) + cc]
  }

  function NextCc(cc: nat): nat { if cc >= 15 then 0 else cc + 1 }

  /** A packet behind the first: full, or stuffed in front of what is left. */
  function Next(pid: nat, cc: nat, payload: bytes): (r: bytes)
    requires pid < 0x2000 && cc < 16 && payload != []
    ensures |r| == PACKET
  {
    if |payload| >= ROOM then Head(pid, false, false, cc) + payload[..ROOM]
    else Head(pid, false, true, cc) + Stuffing(ROOM - |payload|) + payload
  }

  /** Packets behind the first: full ones, then one stuffed in front. */
  function Tail(pid: nat, cc: nat, payload: bytes): bytes
    requires pid < 0x2000 && cc < 16
    decreases |payload|
  {
    if payload == [] then []
    else Next(pid, NextCc(cc), payload) + (if |payload| >= ROOM then Tail(pid, NextCc(cc), payload[ROOM..]) else [])
  }

  /** Header and adaptation field of a key frame's first packet: seven bytes of field, with the clock. */
  function KeyHead(cc: nat, pcr: nat): (r: bytes)
    requires cc < 16
    ensures |r| == 12
  {
    Head(VIDEO_PID, true, true, cc) + [7, 0x50] + Pcr(pcr)
  }

  /**
   * The first packet of a frame. For a key frame with fewer than 184 bytes the byte arithmetic
   * ignores the adaptation field already in place: the stuffing lands behind it, or the unit
   * overwrites its end.
   */
  function First(p: Packet, cc: nat): (r: bytes)
    requires cc < 16
    ensures |r| == PACKET
  {
    var u := Unit(p);
    if IsKey(p) then
      if |u| >= ROOM then KeyHead(cc, Dts(p)) + u[..176]
      else if |u| >= 176 then KeyHead(cc, Dts(p))[..188 - |u|] + u
      else KeyHead(cc, Dts(p)) + Stuffing(176 - |u|) + u
    else if |u| >= ROOM then Head(PidOf(p), true, false, cc) + u[..ROOM]
    else Head(PidOf(p), true, true, cc) + Stuffing(ROOM - |u|) + u
  }

  /** How much of the unit the first packet takes. */
  function FirstTakes(p: Packet): nat
  {
    var n := |Unit(p)|;
    if n < ROOM then n else if IsKey(p) then 176 else ROOM
  }

  /** Everything the muxer writes for a frame; `cc` is the PID's counter before. */
  function Mux(p: Packet, cc: nat): bytes
    requires cc < 16
  {
    First(p, NextCc(cc)) + Tail(PidOf(p), NextCc(cc), Unit(p)[FirstTakes(p)..])
  }

  function CcAfter(cc: nat, payload: bytes): (r: nat)
    requires cc < 16
    ensures r < 16
    decreases |payload|
  {
    if payload == [] then cc
    else if |payload| >= ROOM then CcAfter(NextCc(cc), payload[ROOM..])
    else NextCc(cc)
  }

  function MuxCc(p: Packet, cc: nat): (r: nat)
    requires cc < 16
    ensures r < 16
  {
    CcAfter(NextCc(cc), Unit(p)[FirstTakes(p)..])
  }

  // ---------- program tables ----------

  /** A section behind a transport header and a zero pointer, its CRC, and 0xff to the packet's end. */
  function TablePacket(pid: nat, cc: nat, section: bytes): (r: bytes)
    requires pid < 0x2000 && cc < 16 && |section| <= 100
    ensures |r| == PACKET
  {
    Head(pid, true, false, cc) + [0] + section + CrcBytes(Divide(INIT, section)) + Fill(0xff, 179 - |section|)
  }

  /** Program 1 is described by PID 0x1001. */
  const PAT_SECTION: bytes := [0x00, 0xb0, 0x0d, 0x00, 0x01, 0xc1, 0x00, 0x00, 0x00, 0x01, 0xf0, 0x01]

  /** The streams of the program: H.264 on the video PID if there is video, then MP3 or AAC on the audio PID. */
  function PmtSection(soundFormat: nat, hasVideo: bool): (r: bytes)
    ensures 17 <= |r| <= 22
  {
    var audio: u8 := if soundFormat == 2 || soundFormat == 14 then 0x04 else 0x0f;
    var info := (if hasVideo then [0x1b, 0xe1, 0x00, 0xf0, 0x00] else []) + [audio, 0xe1, 0x01, 0xf0, 0x00];
    [0x02, 0xb0, |info| + 13, 0x00, 0x01, 0xc1, 0x00, 0x00, 0xe1, if hasVideo then 0x00 else 0x01, 0xf0, 0x00] + info
  }

  /** Table counters are stepped after use, and reset when they are found above 15. */
  function TableCc(cc: nat): nat { if cc > 15 then 0 else cc }

  function Pat(cc: nat): (r: bytes)
    ensures |r| == PACKET
  {
    TablePacket(0, TableCc(cc), PAT_SECTION)
  }

  function Pmt(cc: nat, soundFormat: nat, hasVideo: bool): (r: bytes)
    ensures |r| == PACKET
  {
    TablePacket(0x1001, TableCc(cc), PmtSection(soundFormat, hasVideo))
  }

  /** The section with its CRC, taken out of a table packet by the length it declares. */
  function SectionOf(pkt: bytes): bytes
    requires |pkt| == PACKET
  {
    var hi: nat, lo: nat := pkt[6], pkt[7];
    var n := hi % 16 * 256 + lo;
    if n <= 180 then pkt[5..8 + n] else []
  }

  /** Every table packet carries a section that passes its check, whatever the counters. */
  lemma TableChecks(pid: nat, cc: nat, section: bytes)
    requires pid < 0x2000 && cc < 16 && 3 <= |section| <= 100
    requires section[1] == 0xb0 && section[2] == |section| + 1
    ensures SectionOf(TablePacket(pid, cc, section)) == section + CrcBytes(Divide(INIT, section))
    ensures Divide(INIT, SectionOf(TablePacket(pid, cc, section))) == 0
  {
    hide Divide, CrcBytes, Head, Fill;
    ResidueIsZero(section);
    SectionPlace(Head(pid, true, false, cc) + [0], section, CrcBytes(Divide(INIT, section)),
        Fill(0xff, 179 - |section|));
  }

  lemma SectionPlace(front: bytes, section: bytes, check: bytes, fill: bytes)
    requires |front| == 5 && 3 <= |section| <= 100 && |check| == 4 && |fill| == 179 - |section|
    requires section[1] == 0xb0 && section[2] == |section| + 1
    ensures SectionOf(front + section + check + fill) == section + check
  {
    var pkt := front + section + check + fill;
    assert pkt[6] == section[1] && pkt[7] == section[2];
    assert pkt[5..9 + |section|] == section + check;
  }

  lemma TablesCheck(cc: nat, soundFormat: nat, hasVideo: bool)
    ensures Divide(INIT, SectionOf(Pat(cc))) == 0
    ensures Divide(INIT, SectionOf(Pmt(cc, soundFormat, hasVideo))) == 0
  {
    hide Divide, TablePacket, SectionOf;
    SectionLengths(soundFormat, hasVideo);
    hide PmtSection;
    TableChecks(0, TableCc(cc), PAT_SECTION);
    TableChecks(0x1001, TableCc(cc), PmtSection(soundFormat, hasVideo));
  }

  lemma SectionLengths(soundFormat: nat, hasVideo: bool)
    ensures |PAT_SECTION| == 12 && PAT_SECTION[1] == 0xb0 && PAT_SECTION[2] == 13
    ensures var s := PmtSection(soundFormat, hasVideo); s[1] == 0xb0 && s[2] == |s| + 1
  {
  }

  /** The elementary streams a program map lists: type and PID (ISO/IEC 13818-1, 2.4.4.8). */
  function Streams(s: bytes): seq<(nat, nat)>
    decreases |s|
  {
    if |s| < 5 then []
    else
      var info := Pid13(s[3] % 16, s[4]);
      [(s[0], Pid13(s[1], s[2]))] + if |s| < 5 + info then [] else Streams(s[5 + info..])
  }

  /** The low 13 bits of two bytes. */
  function Pid13(hi: nat, lo: nat): nat { hi % 32 * 256 + lo }

  /**
   * What a receiver reads: program 1's map is on PID 0x1001; the map lists the muxer's own PIDs, and
   * its clock is on the video PID if there is video, otherwise on the audio PID.
   */
  lemma TablesSay(soundFormat: nat, hasVideo: bool)
    ensures PAT_SECTION[8] * 256 + PAT_SECTION[9] == 1 && Pid13(PAT_SECTION[10], PAT_SECTION[11]) == 0x1001
    ensures var s := PmtSection(soundFormat, hasVideo);
            && s[2] == |s| + 1 && Pid13(s[8], s[9]) == (if hasVideo then 0x100 else 0x101)
            && Streams(s[12..]) == (if hasVideo then [(0x1b, 0x100)] else []) + [AudioEntry(soundFormat)]
            && AudioEntry(soundFormat) == (if soundFormat in {2, 14} then 0x04 else 0x0f, 0x101)
    ensures VIDEO_PID == 0x100 && AUDIO_PID == 0x101
  {
    hide Streams;
    var s := PmtSection(soundFormat, hasVideo);
    var t := AudioEntry(soundFormat).0;
    var one := [t, 0xe1, 0x01, 0xf0, 0x00];
    OneStream(t, 0x01, []);
    assert one + [] == one && [AudioEntry(soundFormat)] + [] == [AudioEntry(soundFormat)];
    if hasVideo {
      assert s[12..] == [0x1b, 0xe1, 0x00, 0xf0, 0x00] + one;
      OneStream(0x1b, 0x00, one);
    } else {
      assert s[12..] == one;
      assert [] + [AudioEntry(soundFormat)] == [AudioEntry(soundFormat)];
    }
  }

  /** MP3, or else AAC. */
  function AudioEntry(soundFormat: nat): (r: (nat, nat))
    ensures r.0 < 256
  {
    (if soundFormat == 2 || soundFormat == 14 then 0x04 else 0x0f, AUDIO_PID)
  }

  lemma OneStream(t: nat, low: u8, more: bytes)
    requires t < 256
    ensures Streams([t, 0xe1, low, 0xf0, 0x00] + more) == [(t, Pid13(0xe1, low))] + Streams(more)
    ensures Pid13(0xe1, low) == 0x100 + low
    ensures Streams([]) == []
  {
    hide Pid13;
    var s := [t, 0xe1, low, 0xf0, 0x00] + more;
    assert s[5..] == more && s[0] == t && s[1] == 0xe1 && s[2] == low && s[3] == 0xf0 && s[4] == 0;
    PidOfByte(low);
  }

  lemma PidOfByte(low: u8)
    ensures Pid13(0xe1, low) == 0x100 + low && Pid13(0xf0 % 16, 0) == 0
  {
    assert 0xe1 % 32 == 1;
    assert 0xf0 % 16 == 0 && 0 % 32 == 0;
  }

  // ---------- the reference demultiplexer ----------

  function Pid(pkt: bytes): nat requires |pkt| == PACKET { var hi: nat, lo: nat := pkt[1], pkt[2]; hi % 32 * 256 + lo }

  predicate Starts(pkt: bytes) requires |pkt| == PACKET { pkt[1] / 64 % 2 == 1 }

  function Cc(pkt: bytes): nat requires |pkt| == PACKET { pkt[3] % 16 }

  /** The payload behind the header and the adaptation field, if there is one. */
  function Payload(pkt: bytes): bytes
    requires |pkt| == PACKET
  {
    var control := pkt[3] / 16 % 4;
    if control == 1 then pkt[4..]
    else if control == 3 && 5 + pkt[4] <= PACKET then pkt[5 + pkt[4]..]
    else []
  }

  /** What a receiver of one PID has: bytes of a unit whose start is not in view, then whole units. */
  datatype Got = Got(loose: bytes, units: seq<bytes>)

  function Demux(pid: nat, s: bytes): Got
    requires |s| % PACKET == 0
  {
    if s == [] then Got([], [])
    else
      var pkt, g := s[..PACKET], Demux(pid, s[PACKET..]);
      if pkt[0] != 0x47 || Pid(pkt) != pid then g
      else if Starts(pkt) then Got([], [Payload(pkt) + g.loose] + g.units)
      else Got(Payload(pkt) + g.loose, g.units)
  }

  /** The PID's continuity counters go up by one modulo 16 from `cc`, and end at `last`. */
  predicate Continuous(pid: nat, s: bytes, cc: nat, last: nat)
    requires |s| % PACKET == 0
  {
    if s == [] then cc == last
    else
      var pkt := s[..PACKET];
      if Pid(pkt) != pid then Continuous(pid, s[PACKET..], cc, last)
      else Cc(pkt) == (cc + 1) % 16 && Continuous(pid, s[PACKET..], Cc(pkt), last)
  }

  // ---------- one frame ----------

  lemma HeadReads(pid: nat, start: bool, adaptation: bool, cc: nat, rest: bytes)
    requires pid < 0x2000 && cc < 16 && |rest| == ROOM
    ensures var pkt := Head(pid, start, adaptation, cc) + rest;
            && |pkt| == PACKET && pkt[0] == 0x47 && Pid(pkt) == pid && Starts(pkt) == start && Cc(pkt) == cc
            && pkt[4..] == rest && pkt[3] / 16 % 4 == if adaptation then 3 else 1
  {
  }

  /** A stuffed packet's payload is what follows the stuffing. */
  lemma StuffedReads(pid: nat, start: bool, cc: nat, payload: bytes)
    requires pid < 0x2000 && cc < 16 && |payload| < ROOM
    ensures var pkt := Head(pid, start, true, cc) + Stuffing(ROOM - |payload|) + payload;
            && |pkt| == PACKET && pkt[0] == 0x47 && Pid(pkt) == pid && Starts(pkt) == start && Cc(pkt) == cc
            && Payload(pkt) == payload
  {
    var stuff := Stuffing(ROOM - |payload|);
    HeadReads(pid, start, true, cc, stuff + payload);
    ConcatAssoc(Head(pid, start, true, cc), stuff, payload);
  }

  /** The muxer and the demultiplexer agree on a frame: not a key frame too short for its clock field. */
  predicate Recoverable(p: Packet)
  {
    IsKey(p) ==> |Unit(p)| == 176 || |Unit(p)| >= ROOM
  }

  /** One packet in front of a stream. */
  function Received(pid: nat, pkt: bytes, g: Got): Got
    requires |pkt| == PACKET
  {
    if pkt[0] != 0x47 || Pid(pkt) != pid then g
    else if Starts(pkt) then Got([], [Payload(pkt) + g.loose] + g.units)
    else Got(Payload(pkt) + g.loose, g.units)
  }

  lemma PacketThen(pid: nat, pkt: bytes, rest: bytes, cc: nat, last: nat)
    requires |pkt| == PACKET && |rest| % PACKET == 0
    ensures |pkt + rest| % PACKET == 0
    ensures Demux(pid, pkt + rest) == Received(pid, pkt, Demux(pid, rest))
    ensures Continuous(pid, pkt + rest, cc, last) <==>
            if Pid(pkt) != pid then Continuous(pid, rest, cc, last)
            else Cc(pkt) == (cc + 1) % 16 && Continuous(pid, rest, Cc(pkt), last)
  {
    var s := pkt + rest;
    assert s[..PACKET] == pkt && s[PACKET..] == rest;
  }

  lemma {:induction false} TailThen(of: nat, cc: nat, payload: bytes, pid: nat, rest: bytes, c: nat, last: nat)
    requires of < 0x2000 && cc < 16 && |rest| % PACKET == 0
    requires of == pid ==> c == cc
    ensures |Tail(of, cc, payload) + rest| % PACKET == 0
    ensures var g := Demux(pid, rest);
            Demux(pid, Tail(of, cc, payload) + rest) == if of == pid then Got(payload + g.loose, g.units) else g
    ensures Continuous(pid, rest, if of == pid then CcAfter(cc, payload) else c, last) ==>
              Continuous(pid, Tail(of, cc, payload) + rest, c, last)
    decreases |payload|
  {
    hide Demux, Continuous, Head, Stuffing, Payload, Pid, Cc, Starts;
    var cc1 := NextCc(cc);
    if payload == [] {
      assert Tail(of, cc, payload) + rest == rest;
      assert Demux(pid, rest).loose == [] + Demux(pid, rest).loose;
    } else if |payload| >= ROOM {
      var pkt, t := Head(of, false, false, cc1) + payload[..ROOM], Tail(of, cc1, payload[ROOM..]);
      HeadReads(of, false, false, cc1, payload[..ROOM]);
      PlainPayload(pkt);
      var c1 := if of == pid then cc1 else c;
      TailThen(of, cc1, payload[ROOM..], pid, rest, c1, last);
      ConcatAssoc(pkt, t, rest);
      PacketThen(pid, pkt, t + rest, c, last);
      ConcatAssoc(payload[..ROOM], payload[ROOM..], Demux(pid, rest).loose);
      assert payload[..ROOM] + payload[ROOM..] == payload;
    } else {
      var pkt := Head(of, false, true, cc1) + Stuffing(ROOM - |payload|) + payload;
      StuffedReads(of, false, cc1, payload);
      assert Tail(of, cc, payload) == pkt;
      PacketThen(pid, pkt, rest, c, last);
    }
  }

  lemma PlainPayload(pkt: bytes)
    requires |pkt| == PACKET && pkt[3] / 16 % 4 == 1
    ensures Payload(pkt) == pkt[4..]
  {
  }

  /** The first packet is one the demultiplexer takes the start of a unit from. */
  lemma FirstReads(p: Packet, cc: nat)
    requires cc < 16
    ensures var pkt := First(p, cc);
            pkt[0] == 0x47 && Pid(pkt) == PidOf(p) && Starts(pkt) && Cc(pkt) == cc
    ensures Payload(First(p, cc)) == if IsKey(p) then First(p, cc)[12..] else Unit(p)[..FirstTakes(p)]
  {
    var u, pkt := Unit(p), First(p, cc);
    if IsKey(p) {
      KeyReads(pkt, cc, Dts(p));
    } else if |u| >= ROOM {
      HeadReads(PidOf(p), true, false, cc, u[..ROOM]);
      PlainPayload(pkt);
    } else {
      StuffedReads(PidOf(p), true, cc, u);
      assert u[..|u|] == u;
    }
  }

  lemma KeyReads(pkt: bytes, cc: nat, pcr: nat)
    requires cc < 16 && |pkt| == PACKET && pkt[..5] == KeyHead(cc, pcr)[..5]
    ensures pkt[0] == 0x47 && Pid(pkt) == VIDEO_PID && Starts(pkt) && Cc(pkt) == cc && Payload(pkt) == pkt[12..]
  {
    var h := KeyHead(cc, pcr);
    assert h[..5] == [0x47, 0x41, 0, 0x30 + cc, 7];
    assert pkt[0] == pkt[..5][0] && pkt[1] == pkt[..5][1] && pkt[2] == pkt[..5][2] && pkt[3] == pkt[..5][3] &&
        pkt[4] == pkt[..5][4];
  }

  /** What a receiver gets of a frame whose first packet has counter cc. */
  function Delivered(p: Packet, cc: nat): bytes
    requires cc < 16
  {
    Payload(First(p, cc)) + Unit(p)[FirstTakes(p)..]
  }

  /** A frame in front of a stream: its own PID gets one more unit, every other PID sees nothing. */
  lemma FrameThen(p: Packet, cc: nat, pid: nat, rest: bytes, c: nat, last: nat)
    requires cc < 16 && |rest| % PACKET == 0
    requires PidOf(p) == pid ==> c == cc
    ensures |Mux(p, cc) + rest| % PACKET == 0
    ensures var g := Demux(pid, rest);
            Demux(pid, Mux(p, cc) + rest) ==
            if PidOf(p) == pid then Got([], [Delivered(p, NextCc(cc)) + g.loose] + g.units) else g
    ensures Continuous(pid, rest, if PidOf(p) == pid then MuxCc(p, cc) else c, last) ==>
              Continuous(pid, Mux(p, cc) + rest, c, last)
  {
    hide Demux, Continuous, First, Tail, Payload, Pid, Cc, Starts, Unit;
    var cc1 := NextCc(cc);
    var pkt, t := First(p, cc1), Tail(PidOf(p), cc1, Unit(p)[FirstTakes(p)..]);
    TailThen(PidOf(p), cc1, Unit(p)[FirstTakes(p)..], pid, rest, if PidOf(p) == pid then cc1 else c, last);
    FirstReads(p, cc1);
    ConcatAssoc(pkt, t, rest);
    PacketThen(pid, pkt, t + rest, c, last);
    ConcatAssoc(Payload(pkt), Unit(p)[FirstTakes(p)..], Demux(pid, rest).loose);
  }

  lemma UnitComplete(p: Packet, cc: nat)
    requires cc < 16
    ensures Delivered(p, cc) == Unit(p) <==> Recoverable(p)
  {
    FirstReads(p, cc);
    var u, pkt := Unit(p), First(p, cc);
    assert u[..FirstTakes(p)] + u[FirstTakes(p)..] == u;
    if IsKey(p) {
      assert |Payload(pkt)| == 176;
      if |u| >= ROOM {
        assert pkt[12..] == u[..176];
      } else if |u| == 176 {
        assert pkt[12..] == u && u[|u|..] == [];
      } else {
        assert |u[|u|..]| == 0;
      }
    }
  }

  /** The multiplexed frame demultiplexes to exactly its PES unit if and only if it is recoverable. */
  lemma MuxRecoveredIff(p: Packet, cc: nat)
    requires cc < 16
    ensures |Mux(p, cc)| % PACKET == 0
    ensures Demux(PidOf(p), Mux(p, cc)) == Got([], [Unit(p)]) <==> Recoverable(p)
  {
    FrameThen(p, cc, PidOf(p), [], cc, MuxCc(p, cc));
    UnitComplete(p, NextCc(cc));
    assert Mux(p, cc) + [] == Mux(p, cc);
    assert Demux(PidOf(p), []) == Got([], []);
    var got := Delivered(p, NextCc(cc));
    assert got + [] == got && [got] + [] == [got];
    assert [got][0] == got;
  }

  /** The data of a PES unit, behind its header; none without the start code (ISO/IEC 13818-1, section 2.4.3.6). */
  function PesData(u: bytes): Option<bytes>
  {
    if |u| < 9 || u[..3] != [0, 0, 1] then None
    else var n: nat := u[8]; if |u| < 9 + n then None else Some(u[9 + n..])
  }

  lemma UnitData(p: Packet)
    ensures PesData(Unit(p)) == Some(p.data)
  {
    hide Stamp;
    var u, n := Unit(p), |PesHeader(p)|;
    UnitReads(p);
    assert u[..n] == PesHeader(p);
    assert u[..3] == PesHeader(p)[..3];
  }

  /** A frame that is not recoverable does not even look like a PES unit. */
  lemma DeliveredReads(p: Packet, cc: nat)
    requires cc < 16
    ensures PesData(Delivered(p, cc)) == if Recoverable(p) then Some(p.data) else None
  {
    hide Unit, Delivered, First, PesData;
    UnitComplete(p, cc);
    if Recoverable(p) {
      UnitData(p);
    } else {
      BrokenStart(p, cc);
    }
  }

  lemma BrokenStart(p: Packet, cc: nat)
    requires cc < 16 && IsKey(p) && |Unit(p)| < ROOM && |Unit(p)| != 176
    ensures PesData(Delivered(p, cc)) == None
  {
    FirstReads(p, cc);
    hide Payload, Pcr, Stuffing, Unit;
    var u, first, d := Unit(p), First(p, cc), Delivered(p, cc);
    UnitFront(p);
    assert first[12..][..3] == first[12..15] == d[..3];
    if |u| < 176 {
      StuffedStart(u);
      assert first[12..15] == (Stuffing(176 - |u|) + u)[..3];
    } else {
      assert first[12..15] == u[|u| - 176..|u| - 173];
      CutStart(u, |u| - 176);
    }
  }

  lemma StuffedStart(u: bytes)
    requires 14 <= |u| < 176 && VideoFront(u)
    ensures (Stuffing(176 - |u|) + u)[..3] != [0, 0, 1]
  {
    var n := 176 - |u|;
    var s := Stuffing(n) + u;
    assert s[0] == n - 1;
    if n == 1 { assert s[2] == u[1] && s[1] == u[0]; }
  }

  /** A unit cut short in front does not start again within its fixed bytes. */
  lemma CutStart(u: bytes, k: nat)
    requires |u| >= 14 && 0 < k < 8 && VideoFront(u)
    ensures u[k..k + 3] != [0, 0, 1]
  {
    assert u[k..k + 3][0] == u[k] && u[k..k + 3][1] == u[k + 1] && u[k..k + 3][2] == u[k + 2];
  }

  predicate VideoFront(u: bytes)
    requires |u| >= 14
  {
    u[0] == 0 && u[1] == 0 && u[2] == 1 && u[3] == 0xe0 && u[4] == 0 && u[6] == 0x80 && u[7] >= 0x80 && u[8] > 0
  }

  /** The bytes in front of a video unit's stamps. */
  lemma UnitFront(p: Packet)
    requires p.isVideo && |Unit(p)| < ROOM
    ensures VideoFront(Unit(p))
  {
    hide Stamp, BE;
    var h := PesHeader(p);
    Pow256Values();
    UnitLength(p);
    BEExact(|Unit(p)| - 6, 2);
  }

  // ---------- runs ----------

  /** The counters a muxer keeps: one per elementary stream. */
  datatype Counters = Counters(video: nat, audio: nat)
  {
    predicate Ok() { video < 16 && audio < 16 }

    function Of(pid: nat): nat { if pid == VIDEO_PID then video else audio }
  }

  function CountersAfter(c: Counters, p: Packet): (r: Counters)
    requires c.Ok()
    ensures r.Ok()
  {
    if p.isVideo then c.(video := MuxCc(p, c.video)) else c.(audio := MuxCc(p, c.audio))
  }

  /** The output for any interleaving of audio and video frames. */
  function MuxAll(ps: seq<Packet>, c: Counters): bytes
    requires c.Ok()
  {
    if ps == [] then [] else Mux(ps[0], c.Of(PidOf(ps[0]))) + MuxAll(ps[1..], CountersAfter(c, ps[0]))
  }

  function CountersAfterAll(ps: seq<Packet>, c: Counters): (r: Counters)
    requires c.Ok()
    ensures r.Ok()
  {
    if ps == [] then c else CountersAfterAll(ps[1..], CountersAfter(c, ps[0]))
  }

  /** The frames of one stream. */
  function OfPid(ps: seq<Packet>, pid: nat): seq<Packet>
  {
    if ps == [] then [] else (if PidOf(ps[0]) == pid then [ps[0]] else []) + OfPid(ps[1..], pid)
  }

  function Units(ps: seq<Packet>): (us: seq<bytes>)
    ensures |us| == |ps| && forall i :: 0 <= i < |ps| ==> us[i] == Unit(ps[i])
  {
    seq(|ps|, i requires 0 <= i < |ps| => Unit(ps[i]))
  }

  /**
   * A receiver has one unit for each frame, in order: the frame's own, with its data, exactly where the
   * frame is recoverable, and otherwise nothing that looks like a unit.
   */
  predicate Arrived(g: Got, ps: seq<Packet>)
  {
    && g.loose == [] && |g.units| == |ps|
    && forall i :: 0 <= i < |ps| ==> ArrivedAs(g.units[i], ps[i])
  }

  predicate ArrivedAs(u: bytes, p: Packet)
  {
    (u == Unit(p) <==> Recoverable(p)) && PesData(u) == if Recoverable(p) then Some(p.data) else None
  }

  lemma ArrivedMore(g: Got, ps: seq<Packet>, p: Packet, cc: nat)
    requires cc < 16 && Arrived(g, ps)
    ensures Arrived(Got([], [Delivered(p, cc) + g.loose] + g.units), [p] + ps)
  {
    hide Unit, Recoverable, Delivered, PesData;
    UnitComplete(p, cc);
    DeliveredReads(p, cc);
    assert Delivered(p, cc) + [] == Delivered(p, cc);
  }

  /** All units are right exactly if all frames are recoverable; audio frames always are. */
  lemma ArrivedIff(g: Got, ps: seq<Packet>)
    requires Arrived(g, ps)
    ensures g == Got([], Units(ps)) <==> forall p <- ps :: Recoverable(p)
    ensures (forall p <- ps :: !p.isVideo) ==> g == Got([], Units(ps))
  {
    hide Unit, PesData;
    if forall p <- ps :: Recoverable(p) {
      forall i | 0 <= i < |ps| ensures g.units[i] == Units(ps)[i] {
        assert ps[i] in ps;
      }
    }
  }

  lemma {:induction false} OfPidHas(ps: seq<Packet>, pid: nat)
    ensures forall p <- OfPid(ps, pid) :: PidOf(p) == pid
  {
    if ps != [] { OfPidHas(ps[1..], pid); }
  }

  /**
   * Over any interleaving of frames, each PID's receiver gets one unit for each of that stream's frames, in
   * order, and its continuity counter steps by one modulo 16 from packet to packet. They are the units that
   * were sent if and only if the stream has no key frame too short for its clock field; audio always is.
   */
  lemma MuxAllIff(ps: seq<Packet>, c: Counters, pid: nat)
    requires c.Ok() && (pid == VIDEO_PID || pid == AUDIO_PID)
    ensures |MuxAll(ps, c)| % PACKET == 0
    ensures var g, qs := Demux(pid, MuxAll(ps, c)), OfPid(ps, pid);
            && Arrived(g, qs) && (g == Got([], Units(qs)) <==> forall p <- qs :: Recoverable(p))
            && (pid == AUDIO_PID ==> g == Got([], Units(qs)))
    ensures Continuous(pid, MuxAll(ps, c), c.Of(pid), CountersAfterAll(ps, c).Of(pid))
  {
    MuxAllArrives(ps, c, pid);
    hide Demux, MuxAll, Unit, Arrived, Recoverable;
    OfPidHas(ps, pid);
    ArrivedIff(Demux(pid, MuxAll(ps, c)), OfPid(ps, pid));
  }

  lemma {:induction false} MuxAllArrives(ps: seq<Packet>, c: Counters, pid: nat)
    requires c.Ok() && (pid == VIDEO_PID || pid == AUDIO_PID)
    ensures |MuxAll(ps, c)| % PACKET == 0 && Arrived(Demux(pid, MuxAll(ps, c)), OfPid(ps, pid))
    ensures Continuous(pid, MuxAll(ps, c), c.Of(pid), CountersAfterAll(ps, c).Of(pid))
  {
    hide Demux, Continuous, First, Unit, Payload, FirstTakes, Mux, MuxCc, Recoverable, Arrived, Delivered;
    if ps == [] {
      EmptyStream(pid, c.Of(pid));
    } else {
      var p, c1 := ps[0], CountersAfter(c, ps[0]);
      MuxAllArrives(ps[1..], c1, pid);
      var rest, cc := MuxAll(ps[1..], c1), c.Of(PidOf(p));
      FrameThen(p, cc, pid, rest, c.Of(pid), CountersAfterAll(ps, c).Of(pid));
      if PidOf(p) == pid {
        ArrivedMore(Demux(pid, rest), OfPid(ps[1..], pid), p, NextCc(cc));
      } else {
        assert [] + OfPid(ps[1..], pid) == OfPid(ps[1..], pid);
      }
    }
  }

  lemma EmptyStream(pid: nat, cc: nat)
    ensures Demux(pid, []) == Got([], []) && Continuous(pid, [], cc, cc) && Arrived(Got([], []), [])
  {
  }
}
