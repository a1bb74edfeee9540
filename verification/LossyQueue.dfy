/**
 * The bounded queue in front of a slow player: at the high-water mark it is thinned, keeping audio,
 * sequence headers and key frames. Writes and reads are single steps.
 */
module LossyQueue {
  import opened Bytes
  import opened Options
  import opened Av

  /** What thinning keeps. */
  predicate Protected(p: Packet)
  {
    p.isAudio || (p.isVideo && p.header.Parsed? && (p.header.tag.IsSeq() || p.header.tag.IsKeyFrame()))
  }

  function Kept(ps: seq<Packet>): (r: seq<Packet>)
    ensures |r| <= |ps|
  {
    if ps == [] then [] else Kept(ps[..|ps| - 1]) + if Protected(ps[|ps| - 1]) then [ps[|ps| - 1]] else []
  }

  function Rest(ps: seq<Packet>): seq<Packet>
  {
    if ps == [] then [] else Rest(ps[..|ps| - 1]) + if Protected(ps[|ps| - 1]) then [] else [ps[|ps| - 1]]
  }

  /** How many packets one thinning passes over. */
  function Passed(n: nat): nat
    requires n > 84
  {
    n - 84
  }

  /** A thinned queue: the newest as they were, and behind them what was kept of the rest. */
  function Thinned(q: seq<Packet>, n: nat): seq<Packet>
    requires n > 84 && |q| >= Passed(n)
  {
    q[Passed(n)..] + Kept(q[..Passed(n)])
  }

  lemma KeptSnoc(ps: seq<Packet>, p: Packet)
    ensures Kept(ps + [p]) == Kept(ps) + if Protected(p) then [p] else []
  {
    assert (ps + [p])[..|ps|] == ps;
  }

  lemma {:induction false} KeptAppend(a: seq<Packet>, b: seq<Packet>)
    ensures Kept(a + b) == Kept(a) + Kept(b)
    decreases |b|
  {
    if b == [] {
      assert a + b == a;
    } else {
      hide Protected;
      var k := |b| - 1;
      KeptAppend(a, b[..k]);
      ConcatAssoc(a, b[..k], [b[k]]);
      assert b == b[..k] + [b[k]];
      KeptSnoc(a + b[..k], b[k]);
      KeptSnoc(b[..k], b[k]);
      hide Kept;
      ConcatAssoc(Kept(a), Kept(b[..k]), if Protected(b[k]) then [b[k]] else []);
    }
  }

  lemma {:induction false} KeptTwice(ps: seq<Packet>)
    ensures Kept(Kept(ps)) == Kept(ps) && Kept(Rest(ps)) == []
    decreases |ps|
  {
    hide Protected;
    if ps != [] {
      var k := |ps| - 1;
      var kept, rest := Kept(ps[..k]), Rest(ps[..k]);
      KeptTwice(ps[..k]);
      if Protected(ps[k]) {
        assert rest + [] == rest;
        KeptSnoc(kept, ps[k]);
      } else {
        assert kept + [] == kept;
        KeptSnoc(rest, ps[k]);
      }
    }
  }

  /** What is kept and the rest make up the whole. */
  lemma {:induction false} KeptAndRest(ps: seq<Packet>)
    ensures multiset(Kept(ps)) + multiset(Rest(ps)) == multiset(ps)
    decreases |ps|
  {
    hide Protected;
    if ps != [] {
      var k := |ps| - 1;
      KeptAndRest(ps[..k]);
      assert ps == ps[..k] + [ps[k]];
      var kept, rest := Kept(ps[..k]), Rest(ps[..k]);
      assert multiset(ps) == multiset(ps[..k]) + multiset{ps[k]};
      if Protected(ps[k]) {
        assert Rest(ps) == rest + [] == rest && Kept(ps) == kept + [ps[k]];
      } else {
        assert Kept(ps) == kept + [] == kept && Rest(ps) == rest + [ps[k]];
      }
    }
  }

  /** Thinning loses no protected packet, and nothing but what it throws out. */
  lemma ThinnedKeeps(q: seq<Packet>, n: nat)
    requires n > 84 && |q| >= Passed(n)
    ensures multiset(Kept(Thinned(q, n))) == multiset(Kept(q))
    ensures multiset(Thinned(q, n)) + multiset(Rest(q[..Passed(n)])) == multiset(q)
  {
    hide Kept, Rest;
    var a, b := q[..Passed(n)], q[Passed(n)..];
    assert q == a + b;
    KeptAppend(b, Kept(a));
    KeptAppend(a, b);
    KeptTwice(a);
    KeptAndRest(a);
  }

  // ---------- arrival order ----------

  predicate InOrder(q: seq<Packet>, at: Packet -> int)
  {
    forall i, j :: 0 <= i < j < |q| ==> at(q[i]) < at(q[j])
  }

  /** The kept packets go behind newer ones: order survives exactly when there are none. */
  lemma OrderKeptIff(q: seq<Packet>, n: nat, at: Packet -> int)
    requires n > 84 && |q| > Passed(n) && InOrder(q, at)
    ensures InOrder(Thinned(q, n), at) <==> forall p <- q[..Passed(n)] :: !Protected(p)
  {
    var a, b := q[..Passed(n)], q[Passed(n)..];
    KeptFrom(a);
    if Kept(a) != [] {
      var p := Kept(a)[0];
      assert p in Kept(a);
      var i :| 0 <= i < |a| && a[i] == p;
      assert Thinned(q, n)[0] == q[Passed(n)] && Thinned(q, n)[|b|] == p == q[i];
      assert at(q[i]) < at(q[Passed(n)]);
    } else {
      assert Thinned(q, n) == b;
    }
  }

  lemma {:induction false} KeptFrom(ps: seq<Packet>)
    ensures forall p <- Kept(ps) :: p in ps && Protected(p)
    ensures Kept(ps) == [] <==> forall p <- ps :: !Protected(p)
    decreases |ps|
  {
    if ps != [] {
      var k := |ps| - 1;
      KeptFrom(ps[..k]);
      assert ps == ps[..k] + [ps[k]];
      assert ps[k] in ps;
    }
  }

  // ---------- whole runs ----------

  datatype Event = Write(p: Packet) | Read

  /** `refused` arrived when the queue was at its mark; `thrown` was thinned out of it. */
  datatype State = State(queue: seq<Packet>, sent: seq<Packet>, thrown: seq<Packet>, refused: seq<Packet>)

  function Step(s: State, e: Event, n: nat): State
    requires n > 84
  {
    match e
    case Read => if s.queue == [] then s else s.(queue := s.queue[1..], sent := s.sent + [s.queue[0]])
    case Write(p) =>
      if |s.queue| < n - 24 then s.(queue := s.queue + [p])
      else State(Thinned(s.queue, n), s.sent, s.thrown + Rest(s.queue[..Passed(n)]), s.refused + [p])
  }

  function Run(es: seq<Event>, n: nat): State
    requires n > 84
    decreases |es|
  {
    if es == [] then State([], [], [], []) else Step(Run(es[..|es| - 1], n), es[|es| - 1], n)
  }

  function Written(es: seq<Event>): seq<Packet>
  {
    if es == [] then []
    else Written(es[..|es| - 1]) + match es[|es| - 1] case Write(p) => [p] case Read => []
  }

  /** Every packet is somewhere, none twice; nothing protected was thrown; the queue keeps below its mark. */
  predicate Accounted(s: State, written: seq<Packet>, n: nat)
    requires n > 84
  {
    && |s.queue| <= n - 24 && Kept(s.thrown) == []
    && multiset(written) == multiset(s.queue) + multiset(s.sent) + multiset(s.thrown) + multiset(s.refused)
  }

  lemma StepAccounts(s: State, e: Event, written: seq<Packet>, n: nat)
    requires n > 84 && Accounted(s, written, n)
    ensures Accounted(Step(s, e, n), written + match e case Write(p) => [p] case Read => [], n)
  {
    match e {
      case Read =>
        assert written + [] == written;
        if s.queue != [] { assert s.queue == [s.queue[0]] + s.queue[1..]; }
      case Write(p) =>
        if |s.queue| >= n - 24 { ThinningAccounts(s, p, written, n); }
    }
  }

  lemma ThinningAccounts(s: State, p: Packet, written: seq<Packet>, n: nat)
    requires n > 84 && Accounted(s, written, n) && |s.queue| >= n - 24
    ensures Accounted(Step(s, Write(p), n), written + [p], n)
  {
    hide Kept, Rest;
    var out := Rest(s.queue[..Passed(n)]);
    ThinnedKeeps(s.queue, n);
    KeptTwice(s.queue[..Passed(n)]);
    KeptAppend(s.thrown, out);
    ThinnedSize(s.queue, n);
    hide Thinned;
    assert multiset(s.queue) == multiset(Thinned(s.queue, n)) + multiset(out);
  }

  lemma ThinnedSize(q: seq<Packet>, n: nat)
    requires n > 84 && |q| >= Passed(n)
    ensures |Thinned(q, n)| <= |q|
  {
  }

  lemma {:induction false} RunAccounts(es: seq<Event>, n: nat)
    requires n > 84
    ensures Accounted(Run(es, n), Written(es), n)
    decreases |es|
  {
    hide Step, Accounted;
    if es == [] {
      NothingAccounted(n);
    } else {
      var k := |es| - 1;
      RunAccounts(es[..k], n);
      StepAccounts(Run(es[..k], n), es[k], Written(es[..k]), n);
    }
  }

  lemma NothingAccounted(n: nat)
    requires n > 84
    ensures Accounted(State([], [], [], []), [], n)
  {
  }

  /** Protected packets: sent, queued, or refused at the mark; nothing else happens to them. */
  lemma ProtectedSurvive(es: seq<Event>, n: nat, p: Packet)
    requires n > 84 && Protected(p) && p in Written(es)
    ensures var s := Run(es, n); p in s.sent || p in s.queue || p in s.refused
  {
    hide Run, Written;
    RunAccounts(es, n);
    var s := Run(es, n);
    KeptFrom(s.thrown);
    assert p in multiset(Written(es));
  }

  /** Audio, and video of frame type 1: key frames and sequence headers. */
  function SoundAndKeys(ps: seq<Packet>): seq<Packet>
  {
    if ps == [] then []
    else
      var p := ps[|ps| - 1];
      var wanted := p.isAudio || (p.isVideo && p.header.Parsed? && p.header.tag.frameType == 1);
      SoundAndKeys(ps[..|ps| - 1]) + if wanted then [p] else []
  }

  lemma {:induction false} KeptAre(ps: seq<Packet>)
    ensures Kept(ps) == SoundAndKeys(ps)
    decreases |ps|
  {
    if ps != [] { KeptAre(ps[..|ps| - 1]); }
  }

  /**
   * Every run: a packet is queued as long as the queue is 24 short of its capacity; then it is refused instead, and
   * of the queue the newest 60 packets stay and behind them the audio and the key frames among the older ones.
   */
  lemma WriteIff(es: seq<Event>, p: Packet, n: nat)
    requires n > 84
    ensures var s, t := Run(es, n), Run(es + [Write(p)], n);
            && t.sent == s.sent && (t.refused == s.refused + [p] <==> |s.queue| == n - 24)
            && (|s.queue| != n - 24 ==> |s.queue| < n - 24 && t == s.(queue := s.queue + [p]))
            && (|s.queue| == n - 24 ==>
                t.queue == s.queue[|s.queue| - 60..] + SoundAndKeys(s.queue[..|s.queue| - 60]))
  {
    hide Kept, Rest, SoundAndKeys;
    var s := Run(es, n);
    assert (es + [Write(p)])[..|es|] == es;
    RunAccounts(es, n);
    if |s.queue| == n - 24 {
      KeptAre(s.queue[..|s.queue| - 60]);
      assert |s.refused + [p]| != |s.refused|;
    } else {
      assert |s.refused + [p]| != |s.refused|;
    }
  }

  // ---------- the thinning loop ----------

  /** One turn: the oldest packet is taken out, and put in again if there is reason and room. */
  function Turn(q: seq<Packet>, n: nat): seq<Packet>
    requires q != [] && n > 84
  {
    var p, t := q[0], q[1..];
    var u := if !p.isAudio then t else if |t| > n - 2 then t[1..] else t + [p];
    if !p.isVideo then u
    else
      var v := if ProtectedVideo(p) then u + [p] else u;
      if |v| > n - 10 then v[1..] else v
  }

  predicate ProtectedVideo(p: Packet) { p.header.Parsed? && (p.header.tag.IsSeq() || p.header.tag.IsKeyFrame()) }

  lemma TurnSize(q: seq<Packet>, n: nat)
    requires q != [] && n > 84 && |q| <= n
    ensures |Turn(q, n)| <= n && (|Turn(q, n)| >= |q| - 1 || |Turn(q, n)| >= n - 10)
  {
  }

  function Turns(q: seq<Packet>, k: nat, n: nat): Option<seq<Packet>>
    requires n > 84
  {
    if k == 0 then Some(q)
    else match Turns(q, k - 1, n) case None => None case Some(r) => if r == [] then None else Some(Turn(r, n))
  }

  /** A reader makes each packet audio, video, or neither. */
  predicate OneKind(p: Packet) { !(p.isAudio && p.isVideo) }

  /** From the mark, and up to ten below the capacity, the turns thin the queue and never run dry. */
  lemma {:induction false} TurnsThin(q: seq<Packet>, k: nat, n: nat)
    requires n > 84 && k <= n - 84 && n - 24 <= |q| <= n - 10 && forall p <- q :: OneKind(p)
    ensures Turns(q, k, n) == Some(q[k..] + Kept(q[..k]))
    decreases k
  {
    hide Turn, Kept;
    if k == 0 {
      assert q[0..] + Kept([]) == q by { assert Kept([]) == [] by { NoneKept(); } }
      assert q[..0] == [];
    } else {
      TurnsThin(q, k - 1, n);
      var r := q[k - 1..] + Kept(q[..k - 1]);
      assert q[..k] == q[..k - 1] + [q[k - 1]];
      KeptSnoc(q[..k - 1], q[k - 1]);
      assert q[k - 1] in q;
      TurnThins(q[k - 1], q[k..], Kept(q[..k - 1]), n);
      assert r == [q[k - 1]] + q[k..] + Kept(q[..k - 1]);
    }
  }

  lemma NoneKept()
    ensures Kept([]) == []
  {
  }

  lemma TurnThins(p: Packet, rest: seq<Packet>, kept: seq<Packet>, n: nat)
    requires n > 84 && OneKind(p) && 1 + |rest| + |kept| <= n - 10
    ensures Turn([p] + rest + kept, n) == rest + (kept + if Protected(p) then [p] else [])
  {
    var q := [p] + rest + kept;
    assert q[1..] == rest + kept;
    ConcatAssoc(rest, kept, [p]);
  }

  // ---------- the queue at work ----------

  class Queue {
    const n: nat
    var closed: bool  // set when the connection goes
    var items: seq<Packet>

    /** At most the mark, and each packet of one kind: what writes and reads keep. */
    ghost predicate Valid()
      reads this
    {
      n > 84 && |items| <= n - 24 && forall p <- items :: OneKind(p)
    }

    constructor (n: nat)
      requires n > 84
      ensures Valid() && this.n == n && items == [] && !closed
    {
      this.n, closed, items := n, false, [];
    }

    /** Taking from an empty queue would block. */
    method Take() returns (p: Packet)
      requires items != []
      modifies `items
      ensures p == old(items)[0] && items == old(items)[1..]
    {
      p := items[0];
      items := items[1..];
    }

    /** Putting into a full queue would block. */
    method Put(p: Packet)
      requires |items| < n
      modifies `items
      ensures items == old(items) + [p]
    {
      items := items + [p];
    }

    /** Passes over the oldest packets, from any length between the mark and the capacity; neither end blocks. */
    method DropPacket()
      requires n > 84 && n - 24 <= |items| <= n
      modifies `items
      ensures Turns(old(items), n - 84, n) == Some(items) && |items| <= n
    {
      ghost var was := items;
      for i := 0 to n - 84
        invariant Turns(was, i, n) == Some(items)
        invariant n - 24 - i <= |items| <= n
      {
        TurnSize(items, n);
        var tmpPkt := Take();
        if tmpPkt.isAudio {
          if |items| > n - 2 {
            var lost := Take();
          } else {
            Put(tmpPkt);
          }
        }
        if tmpPkt.isVideo {
          if tmpPkt.header.Parsed? && (tmpPkt.header.tag.IsSeq() || tmpPkt.header.tag.IsKeyFrame()) {
            Put(tmpPkt);
          }
          if |items| > n - 10 { var lost := Take(); }
        }
      }
    }

    /** Queues a packet; at the mark the queue is thinned instead, and the packet itself is not queued. */
    method Write(p: Packet) returns (ok: bool)
      requires Valid() && OneKind(p)
      modifies `items
      ensures Valid() && ok == !closed
      ensures ok ==> forall s: State :: s.queue == old(items) ==> items == Step(s, Event.Write(p), n).queue
      ensures !ok ==> items == old(items)
    {
      if closed { return false; }
      if |items| >= n - 24 {
        TurnsThin(items, n - 84, n);
        KeptFrom(items[..Passed(n)]);
        DropPacket();
      } else {
        Put(p);
      }
      ok := true;
    }

    /** The sender's read. */
    method Read() returns (p: Packet)
      requires Valid() && items != []
      modifies `items
      ensures Valid()
      ensures forall s: State :: s.queue == old(items) ==>
                var t := Step(s, Event.Read, n); t.queue == items && t.sent == s.sent + [p]
    {
      p := Take();
    }
  }
}
