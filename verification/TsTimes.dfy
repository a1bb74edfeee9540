/** The times and the clock a receiver reads from the bytes, in the muxer's input. */
module TsTimes {
  import opened Bytes
  import opened Options
  import opened TsSpec

  /** When a frame is shown, in milliseconds. */
  function ShownAt(p: Packet): nat { p.timeStamp + if p.isVideo then p.compositionTime else 0 }

  /**
   * What a receiver reads at the head of a unit (ISO/IEC 13818-1, section 2.4.3.6): the start code and the kind of
   * stream; whether there is one time stamp or two, and there are two exactly if the picture is shown later than it
   * is decoded; each behind its own marker, in units of 1/90 milliseconds, and right exactly below 2^33.
   */
  lemma TimesRead(p: Packet)
    ensures var u, two := Unit(p), p.isVideo && p.compositionTime != 0;
            && u[..3] == [0, 0, 1] && u[3] == (if p.isVideo then 0xe0 else 0xc0)
            && u[6] / 64 == 2 && u[7] / 64 == (if two then 3 else 2) && u[8] == (if two then 10 else 5)
            && u[9] / 16 == u[7] / 64 && (ReadStamp(u[9..14]) == ShownAt(p) * 90 <==> ShownAt(p) * 90 < 0x2_0000_0000)
            && (two ==>
                && |u| >= 19 && u[14] / 16 == 1
                && (ReadStamp(u[14..19]) == p.timeStamp * 90 <==> p.timeStamp * 90 < 0x2_0000_0000))
  {
    UnitReads(p);
    StampFront(if HasDts(p) then 3 else 2, Pts(p));
    StampFront(1, Dts(p));
    hide Stamp, ReadStamp;
    UnitFrontBytes(p);
  }

  lemma StampFront(prefix: nat, ts: nat)
    requires prefix < 4
    ensures Stamp(prefix, ts)[0] / 16 == prefix
  {
    hide BE, Folded;
    var hi := Folded(ts) / 0x4000_0000 % 8;
    assert (prefix * 16 + hi * 2 + 1) / 16 == prefix;
  }

  lemma UnitFrontBytes(p: Packet)
    ensures var u, h := Unit(p), HasDts(p);
            && u[..3] == [0, 0, 1] && u[3] == (if p.isVideo then 0xe0 else 0xc0)
            && u[6..9] == [0x80, if h then 0xc0 else 0x80, if h then 10 else 5]
            && u[9] == Stamp(if h then 3 else 2, Pts(p))[0] && (h ==> |u| >= 19 && u[14] == Stamp(1, Dts(p))[0])
  {
    hide Stamp, BE;
    var u, h := Unit(p), PesHeader(p);
    assert u[..|h|] == h;
  }

  // ---------- the clock ----------

  /** The clock of a packet, if its adaptation field says that it has one. */
  function Clock(pkt: bytes): Option<nat>
    requires |pkt| == PACKET
  {
    if pkt[3] / 32 % 2 == 1 && pkt[4] >= 7 && pkt[5] / 16 % 2 == 1 then Some(ReadPcr(pkt[6..12])) else None
  }

  /** Seven bytes: random access and a clock, the clock's reserved bits set, and its extension zero. */
  predicate ClockWhole(pkt: bytes)
    requires |pkt| == PACKET
  {
    pkt[4] == 7 && pkt[5] == 0x50 && pkt[10] % 128 == 0x7e && pkt[11] == 0
  }

  /**
   * The clock of a key frame's first packet is the frame's time in units of 1/90 milliseconds, modulo 2^33, and
   * whole, exactly if the unit is not 178 to 183 bytes long: then the unit is laid over the end of it.
   */
  lemma ClockIff(p: Packet, cc: nat)
    requires cc < 16 && p.isVideo && p.keyFrame
    ensures var pkt, n := First(p, cc), |Unit(p)|;
            Clock(pkt) == Some(p.timeStamp * 90 % 0x2_0000_0000) && ClockWhole(pkt) <==> n <= 177 || n >= 184
  {
    hide Unit, Pcr, Stuffing, ReadPcr;
    var u, n := Unit(p), |Unit(p)|;
    if n >= 184 {
      ClockInFront(cc, Dts(p), u[..176]);
    } else if n <= 175 {
      ConcatAssoc(KeyHead(cc, Dts(p)), Stuffing(176 - n), u);
      ClockInFront(cc, Dts(p), Stuffing(176 - n) + u);
    } else {
      OverClock(p, cc);
    }
  }

  lemma ClockInFront(cc: nat, pcr: nat, rest: bytes)
    requires cc < 16 && |rest| == 176
    ensures var pkt := KeyHead(cc, pcr) + rest; Clock(pkt) == Some(pcr % 0x2_0000_0000) && ClockWhole(pkt)
  {
    hide ReadPcr;
    var pkt := KeyHead(cc, pcr) + rest;
    PcrReads(pcr);
    assert pkt[6..12] == Pcr(pcr);
  }

  /** A unit of 176 to 183 bytes starts where the packet leaves room for it. */
  lemma OverClock(p: Packet, cc: nat)
    requires cc < 16 && IsKey(p) && 176 <= |Unit(p)| < ROOM
    ensures var pkt := First(p, cc);
            Clock(pkt) == Some(Dts(p) % 0x2_0000_0000) && ClockWhole(pkt) <==> |Unit(p)| <= 177
  {
    var u, h := Unit(p), KeyHead(cc, Dts(p));
    UnitFront(p);
    UnitLow(p);
    hide Unit, ReadPcr, KeyHead, Clock;
    if |u| <= 177 {
      OverEnd(cc, Dts(p), u);
    } else {
      LaidOver(h, u);
    }
  }

  lemma OverEnd(cc: nat, pcr: nat, u: bytes)
    requires cc < 16 && 176 <= |u| <= 177 && u[0] == 0
    ensures var pkt := KeyHead(cc, pcr)[..188 - |u|] + u; Clock(pkt) == Some(pcr % 0x2_0000_0000) && ClockWhole(pkt)
  {
    if |u| == 176 {
      assert KeyHead(cc, pcr)[..12] == KeyHead(cc, pcr);
      ClockInFront(cc, pcr, u);
    } else {
      assert u == [0] + u[1..];
      assert KeyHead(cc, pcr)[..11] + [0] == KeyHead(cc, pcr);
      ConcatAssoc(KeyHead(cc, pcr)[..11], [0], u[1..]);
      ClockInFront(cc, pcr, u[1..]);
    }
  }

  lemma LaidOver(h: bytes, u: bytes)
    requires |h| == 12 && 178 <= |u| < ROOM && VideoFront(u) && u[5] == |u| - 6
    ensures !ClockWhole(h[..188 - |u|] + u)
  {
    var k := 188 - |u|;
    var pkt := h[..k] + u;
    assert k <= 10 && pkt[10] == u[10 - k] && pkt[11] == u[11 - k];
  }

  lemma UnitLow(p: Packet)
    requires p.isVideo && |Unit(p)| < ROOM
    ensures Unit(p)[5] == |Unit(p)| - 6
  {
    hide Stamp;
    var u := Unit(p);
    UnitLength(p);
    UnitFront(p);
    Pow256Values();
    var two := u[4..6];
    assert two[..1] == [u[4]] && two[1] == u[5] && FromBE([u[4]]) == u[4];
  }

  /** What fills a packet up: a field as long as it says, without flags, of bytes that say nothing. */
  lemma StuffingLaid(pid: nat, start: bool, cc: nat, payload: bytes)
    requires pid < 0x2000 && cc < 16 && |payload| < ROOM
    ensures var pkt, n := Head(pid, start, true, cc) + Stuffing(ROOM - |payload|) + payload, 183 - |payload|;
            && |pkt| == 188 && pkt[4] == n && pkt[5 + n..] == payload
            && (n > 0 ==> pkt[5] == 0) && forall k :: 6 <= k < 5 + n ==> pkt[k] == 0xff
  {
    var stuff := Stuffing(ROOM - |payload|);
    assert Head(pid, start, true, cc) + stuff + payload == Head(pid, start, true, cc) + (stuff + payload);
  }

  /** No other packet of any frame has a clock. */
  lemma NoClock(p: Packet, cc: nat, rest: bytes)
    requires cc < 16 && (!p.isVideo || !p.keyFrame)
    ensures Clock(First(p, cc)) == None && (rest != [] ==> Clock(Next(PidOf(p), cc, rest)) == None)
  {
    hide Unit;
    var u := Unit(p);
    if |u| < ROOM { StuffedClock(PidOf(p), true, cc, u); }
    if 0 < |rest| < ROOM { StuffedClock(PidOf(p), false, cc, rest); }
  }

  lemma StuffedClock(pid: nat, start: bool, cc: nat, payload: bytes)
    requires pid < 0x2000 && cc < 16 && |payload| < ROOM
    ensures Clock(Head(pid, start, true, cc) + Stuffing(ROOM - |payload|) + payload) == None
  {
  }
}
