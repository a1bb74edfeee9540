/** Timestamps across publishers: each writer adds the last time it sent under the previous one. */
module Timestamps {
  import opened Bytes

  datatype Kind = Audio | Video | Script

  /** The writer's clock. */
  class RWBaser {
    var baseTimestamp: u32
    var lastVideoTimestamp: u32
    var lastAudioTimestamp: u32

    constructor ()
      ensures Abs() == Clock(0, 0, 0)
    {
      baseTimestamp, lastVideoTimestamp, lastAudioTimestamp := 0, 0, 0;
    }

    function Abs(): Clock
      reads this
    {
      Clock(baseTimestamp, lastAudioTimestamp, lastVideoTimestamp)
    }

    /** A new publisher starts where the last one ended. */
    method CalcBaseTimestamp()
      modifies this
      ensures Abs() == Rebase(old(Abs()))
      ensures baseTimestamp >= lastAudioTimestamp && baseTimestamp >= lastVideoTimestamp
      ensures baseTimestamp in {old(lastAudioTimestamp), old(lastVideoTimestamp)}
    {
      if lastAudioTimestamp > lastVideoTimestamp {
        baseTimestamp := lastAudioTimestamp;
      } else {
        baseTimestamp := lastVideoTimestamp;
      }
    }

    method RecTimeStamp(timestamp: u32, kind: Kind)
      modifies this
      ensures Abs() == Record(old(Abs()), kind, timestamp)
    {
      if kind == Video {
        lastVideoTimestamp := timestamp;
      } else if kind == Audio {
        lastAudioTimestamp := timestamp;
      }
    }

    /** The time a packet is sent with, noted as the last of its kind. */
    method Stamp(kind: Kind, ts: u32) returns (timestamp: u32)
      modifies this
      ensures timestamp == Sent(old(Abs()), ts) && Abs() == Record(old(Abs()), kind, timestamp)
    {
      timestamp := (ts + baseTimestamp) % MOD32;
      RecTimeStamp(timestamp, kind);
    }
  }

  datatype Clock = Clock(base: u32, lastAudio: u32, lastVideo: u32)

  function Rebase(c: Clock): Clock { c.(base := if c.lastAudio > c.lastVideo then c.lastAudio else c.lastVideo) }

  function Record(c: Clock, kind: Kind, t: u32): Clock
  {
    match kind
    case Audio => c.(lastAudio := t)
    case Video => c.(lastVideo := t)
    case Script => c
  }

  function Sent(c: Clock, ts: u32): u32 { (ts + c.base) % MOD32 }

  // ---------- runs ----------

  datatype Event = Packet(kind: Kind, ts: u32) | Switch

  /** What was published and sent: the publisher's number, its time, the writer's base, the time it went out with. */
  datatype Entry = Entry(kind: Kind, publisher: nat, ts: u32, base: u32, sent: u32)

  datatype State = State(clock: Clock, publisher: nat, log: seq<Entry>)

  function Step(s: State, e: Event): State
  {
    match e
    case Switch => State(Rebase(s.clock), s.publisher + 1, s.log)
    case Packet(kind, ts) =>
      var sent := Sent(s.clock, ts);
      State(Record(s.clock, kind, sent), s.publisher, s.log + [Entry(kind, s.publisher, ts, s.clock.base, sent)])
  }

  function Run(es: seq<Event>): State
    decreases |es|
  {
    if es == [] then State(Clock(0, 0, 0), 0, []) else Step(Run(es[..|es| - 1]), es[|es| - 1])
  }

  /** No packet's time and the writer's base leave 32 bits. */
  predicate NoWrap(log: seq<Entry>) { forall e <- log :: e.ts + e.base < MOD32 }

  /** Each publisher's audio, and each publisher's video, goes forward. */
  predicate EachSteady(log: seq<Entry>)
  {
    forall i, j | 0 <= i < j < |log| && log[i].kind == log[j].kind != Script && log[i].publisher == log[j].publisher ::
      log[i].ts <= log[j].ts
  }

  /** Of one kind, or of a later publisher. */
  predicate Behind(a: Entry, b: Entry) { a.kind == b.kind || a.publisher < b.publisher }

  /** What is sent goes forward: within a kind always, and past any audio or video of an earlier publisher. */
  predicate AllSteady(log: seq<Entry>)
  {
    forall i, j | 0 <= i < j < |log| && log[i].kind != Script && Behind(log[i], log[j]) :: log[i].sent <= log[j].sent
  }

  /** Which step a run ends with, and what it does to the log. */
  lemma LastStep(es: seq<Event>)
    requires es != []
    ensures var s, t := Run(es[..|es| - 1]), Run(es);
            && t == Step(s, es[|es| - 1]) && s.log <= t.log && |t.log| <= |s.log| + 1
  {
  }

  lemma PrefixSteady(a: seq<Entry>, b: seq<Entry>)
    requires a <= b
    ensures NoWrap(b) ==> NoWrap(a)
    ensures EachSteady(b) ==> EachSteady(a)
    ensures AllSteady(b) ==> AllSteady(a)
  {
    assert forall e <- a :: e in b;
  }

  /** Without a wrap, what is added is the publisher's base. */
  lemma NoWrapAdds(c: Clock, ts: u32)
    ensures Sent(c, ts) >= ts <==> ts + c.base < MOD32
    ensures Sent(c, ts) >= ts ==> Sent(c, ts) == ts + c.base
    ensures Sent(c, ts) < ts ==> Sent(c, ts) < c.base
  {
    if ts + c.base >= MOD32 { ModUnique(ts + c.base, MOD32, 1, ts + c.base - MOD32); }
  }

  // ---------- every base was sent ----------

  predicate SentBefore(log: seq<Entry>, t: u32, publisher: nat)
  {
    t == 0 || exists i :: 0 <= i < |log| && log[i].kind != Script && log[i].publisher < publisher && log[i].sent == t
  }

  /** The clock holds times that were sent: the last ones so far, the base under an earlier publisher. */
  predicate Grounded(s: State)
  {
    && SentBefore(s.log, s.clock.lastAudio, s.publisher + 1) && SentBefore(s.log, s.clock.lastVideo, s.publisher + 1)
    && SentBefore(s.log, s.clock.base, s.publisher)
  }

  lemma {:induction false} RunGrounded(es: seq<Event>)
    ensures Grounded(Run(es))
    decreases |es|
  {
    if es != [] {
      var s, e := Run(es[..|es| - 1]), es[|es| - 1];
      RunGrounded(es[..|es| - 1]);
      match e {
        case Switch =>
        case Packet(kind, ts) =>
          var log := Run(es).log;
          StillSent(s.log, log, s.clock.lastAudio, s.publisher + 1);
          StillSent(s.log, log, s.clock.lastVideo, s.publisher + 1);
          StillSent(s.log, log, s.clock.base, s.publisher);
          assert log[|s.log|] == Entry(kind, s.publisher, ts, s.clock.base, Sent(s.clock, ts));
      }
    }
  }

  lemma StillSent(a: seq<Entry>, b: seq<Entry>, t: u32, publisher: nat)
    requires SentBefore(a, t, publisher) && a <= b
    ensures SentBefore(b, t, publisher)
  {
    if t != 0 {
      var i :| 0 <= i < |a| && a[i].kind != Script && a[i].publisher < publisher && a[i].sent == t;
      assert b[i] == a[i];
    }
  }

  /** A sum that wraps sends a time before one of an earlier publisher. */
  lemma {:induction false} WrapUnsteady(es: seq<Event>)
    requires !NoWrap(Run(es).log)
    ensures !AllSteady(Run(es).log)
    decreases |es|
  {
    if es != [] {
      var s, e, log := Run(es[..|es| - 1]), es[|es| - 1], Run(es).log;
      LastStep(es);
      PrefixSteady(s.log, log);
      if !NoWrap(s.log) {
        WrapUnsteady(es[..|es| - 1]);
      } else {
        NoWrapAdds(s.clock, e.ts);
        RunGrounded(es[..|es| - 1]);
        var i :| 0 <= i < |s.log| && s.log[i].kind != Script && s.log[i].publisher < s.publisher &&
            s.log[i].sent == s.clock.base;
        assert log[i] == s.log[i];
      }
    }
  }

  // ---------- one base for each publisher ----------

  predicate Uniform(s: State)
  {
    && (forall i :: 0 <= i < |s.log| ==> s.log[i].publisher <= s.publisher)
    && (forall i | 0 <= i < |s.log| && s.log[i].publisher == s.publisher ::
         s.log[i].sent == s.log[i].ts + s.clock.base)
    && (forall i, j | 0 <= i < j < |s.log| && s.log[i].publisher == s.log[j].publisher ::
         s.log[i].sent - s.log[i].ts == s.log[j].sent - s.log[j].ts)
  }

  lemma {:induction false} RunUniform(es: seq<Event>)
    requires NoWrap(Run(es).log)
    ensures Uniform(Run(es))
    decreases |es|
  {
    hide Sent, Uniform;
    if es != [] {
      var s, e := Run(es[..|es| - 1]), es[|es| - 1];
      LastStep(es);
      PrefixSteady(s.log, Run(es).log);
      RunUniform(es[..|es| - 1]);
      if e.Packet? {
        assert Run(es).log[|s.log|] in Run(es).log;
        UniformPacket(s, e.kind, e.ts);
      } else {
        UniformSwitch(s);
      }
    } else {
      assert Uniform(State(Clock(0, 0, 0), 0, [])) by { NothingUniform(); }
    }
  }

  lemma NothingUniform()
    ensures Uniform(State(Clock(0, 0, 0), 0, []))
  {
  }

  lemma UniformSwitch(s: State)
    requires Uniform(s)
    ensures Uniform(Step(s, Switch))
  {
  }

  lemma UniformPacket(s: State, kind: Kind, ts: u32)
    requires Uniform(s) && ts + s.clock.base < MOD32
    ensures Uniform(Step(s, Packet(kind, ts)))
  {
    hide Sent;
    NoWrapAdds(s.clock, ts);
    var t, n := Step(s, Packet(kind, ts)), |s.log|;
    assert forall i :: 0 <= i < n ==> t.log[i] == s.log[i];
    assert t.log[n] == Entry(kind, s.publisher, ts, s.clock.base, ts + s.clock.base);
    assert t.clock.base == s.clock.base;
  }

  // ---------- the invariant of a steady run ----------

  /** Nothing of a kind is past its last time, and nothing of an earlier publisher is past the base. */
  predicate Bounded(s: State)
  {
    forall i :: 0 <= i < |s.log| ==>
      var e := s.log[i];
      && (e.kind == Audio ==> e.sent <= s.clock.lastAudio) && (e.kind == Video ==> e.sent <= s.clock.lastVideo)
      && (e.kind != Script && e.publisher < s.publisher ==> e.sent <= s.clock.base)
  }

  lemma {:induction false} SteadyRun(es: seq<Event>)
    requires NoWrap(Run(es).log) && EachSteady(Run(es).log)
    ensures AllSteady(Run(es).log) && Bounded(Run(es))
    decreases |es|
  {
    if es != [] {
      var s, e := Run(es[..|es| - 1]), es[|es| - 1];
      LastStep(es);
      PrefixSteady(s.log, Run(es).log);
      SteadyRun(es[..|es| - 1]);
      RunUniform(es[..|es| - 1]);
      if e.Packet? {
        assert Run(es).log[|s.log|] in Run(es).log;
        SteadyPacket(s, e.kind, e.ts);
      }
    }
  }

  lemma SteadyPacket(s: State, kind: Kind, ts: u32)
    requires AllSteady(s.log) && Bounded(s) && Uniform(s) && ts + s.clock.base < MOD32
    requires EachSteady(Step(s, Packet(kind, ts)).log)
    ensures AllSteady(Step(s, Packet(kind, ts)).log) && Bounded(Step(s, Packet(kind, ts)))
  {
    hide Sent;
    NoWrapAdds(s.clock, ts);
    var log, n := Step(s, Packet(kind, ts)).log, |s.log|;
    assert log[n] == Entry(kind, s.publisher, ts, s.clock.base, Sent(s.clock, ts));
    forall i | 0 <= i < n && log[i].kind != Script && (log[i].kind == kind || log[i].publisher < s.publisher)
      ensures log[i].sent <= log[n].sent
    {
      assert log[i] == s.log[i];
    }
    assert forall i :: 0 <= i < n ==> log[i] == s.log[i];
  }

  /**
   * Over any number of publishers: what is sent goes forward if and only if no sum leaves 32 bits and
   * each publisher's audio, and each publisher's video, goes forward.
   */
  lemma SteadyIff(es: seq<Event>)
    ensures AllSteady(Run(es).log) <==> NoWrap(Run(es).log) && EachSteady(Run(es).log)
  {
    hide Run, EachSteady, AllSteady, NoWrap;
    var log := Run(es).log;
    if !NoWrap(log) {
      WrapUnsteady(es);
    } else {
      RunUniform(es);
      if EachSteady(log) { SteadyRun(es); }
      if AllSteady(log) { SameBase(Run(es)); }
    }
  }

  lemma SameBase(s: State)
    requires Uniform(s) && AllSteady(s.log)
    ensures EachSteady(s.log)
  {
    var log := s.log;
    forall i, j | 0 <= i < j < |log| && log[i].kind == log[j].kind != Script && log[i].publisher == log[j].publisher
      ensures log[i].ts <= log[j].ts
    {
      assert Behind(log[i], log[j]) && log[i].sent <= log[j].sent;
    }
  }
}
