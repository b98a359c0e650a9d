/** What crosses the ports of the composed system in one cycle, in terms of the signals of that cycle only. */
module Ports {
  import opened Seqs
  import opened Memory
  import opened Axi
  import opened Bursts
  import opened IdIndexer
  import opened System
  import opened EndToEnd
  import D = Dramsim
  import I = Instants
  import Y = UserYanker

  // W beats.

  /** The W beats of the cycles in which the master offered one and the slave had a burst in flight. */
  function TakenW(ms: seq<(Sys, Log)>, run: seq<Cycle>): seq<WBeat>
    requires |ms| >= |run|
  {
    if run == [] then []
    else
      var n := |run| - 1;
      TakenW(ms, run[..n]) + if run[n].wValid && ms[n].0.s.wr.store.inflight then [run[n].w] else []
  }

  lemma {:induction false} TakenFrame(ms: seq<(Sys, Log)>, y: (Sys, Log), run: seq<Cycle>)
    requires |ms| >= |run|
    ensures TakenW(ms + [y], run) == TakenW(ms, run)
  {
    if run != [] {
      TakenFrame(ms, y, run[..|run| - 1]);
    }
  }

  /** The count of taken W beats passes through every number on its way. */
  lemma {:induction false} MomentWithCount(ms: seq<(Sys, Log)>, run: seq<Cycle>, count: nat) returns (k: nat)
    requires |ms| >= |run| && count <= |TakenW(ms, run)|
    ensures k <= |run| && |TakenW(ms, run[..k])| == count
  {
    if |TakenW(ms, run)| == count {
      k := |run|;
      assert run[..k] == run;
    } else {
      var n := |run| - 1;
      k := MomentWithCount(ms, run[..n], count);
      assert run[..n][..k] == run[..k];
    }
  }

  /** The slave's write log grows by an AW, or by the W beat on the wires, or not at all. */
  lemma StepWrites(g: Geometry, x: Sys, l: Log, c: Cycle)
    requires |l.h.rl.pend| == |x.s.rd.pending|
    ensures var wl, wl' := l.h.wl, StepLog(g, x, l, c).h.wl;
            && wl'.beats == wl.beats + (if c.wValid && x.s.wr.store.inflight then [c.w] else [])
            && wl.aws <= wl'.aws
            && (!c.wValid ==> wl'.finished == wl.finished)
  {
    D.TickLogFrame(g, x.s, l.h, PinsOf(x, c));
  }

  /** Without a W beat on the wires the memory does not change, and no burst ends. */
  lemma NoBeatNoChange(g: Geometry, m0: seq<Byte>, run: seq<Cycle>, c: Cycle)
    requires !c.wValid
    ensures var (x, l) := Reached(g, m0, run);
            && Step(g, x, c).s.mem == x.s.mem
            && StepLog(g, x, l, c).h.wl.finished == l.h.wl.finished
  {
    ReachedInv(g, m0, run);
    var (x, l) := Reached(g, m0, run);
    StepWrites(g, x, l, c);
    StepMemory(g, x, l, c);
  }

  lemma StepMemory(g: Geometry, x: Sys, l: Log, c: Cycle)
    ensures !c.wValid ==> Step(g, x, c).s.mem == x.s.mem
  {
    var p := PinsOf(x, c);
    I.UpdateAnswers(g, D.Front(g, x.s, p), D.FrontLog(x.s, p, l.h), p.schedule);
  }

  /** The moment that the last cycle of a run adds, as far as writes go. */
  lemma LastWrites(g: Geometry, m0: seq<Byte>, run: seq<Cycle>) returns (y: (Sys, Log))
    requires run != []
    ensures var ms, n := Moments(g, m0, run[..|run| - 1]), |run| - 1;
            var wl, wl' := ms[n].1.h.wl, y.1.h.wl;
            && Moments(g, m0, run) == ms + [y]
            && wl'.beats == wl.beats + (if run[n].wValid && ms[n].0.s.wr.store.inflight then [run[n].w] else [])
            && wl.aws <= wl'.aws
  {
    var n := |run| - 1;
    var (x, l) := Moments(g, m0, run[..n])[n];
    ReachedInv(g, m0, run[..n]);
    StepWrites(g, x, l, run[n]);
    y := (Step(g, x, run[n]), StepLog(g, x, l, run[n]));
  }

  ghost predicate BeatsAt(ms: seq<(Sys, Log)>, run: seq<Cycle>, k: nat)
    requires k <= |run| < |ms|
  {
    ms[k].1.h.wl.beats == TakenW(ms, run[..k])
  }

  lemma BeatsNext(ms: seq<(Sys, Log)>, y: (Sys, Log), run: seq<Cycle>, k: nat)
    requires |ms| == |run| && k <= |run| && run != []
    requires var n := |run| - 1;
             && BeatsAt(ms, run[..n], if k <= n then k else n)
             && y.1.h.wl.beats ==
                ms[n].1.h.wl.beats + if run[n].wValid && ms[n].0.s.wr.store.inflight then [run[n].w] else []
    ensures BeatsAt(ms + [y], run, k)
  {
    var n := |run| - 1;
    if k <= n {
      assert run[..n][..k] == run[..k];
      TakenFrame(ms, y, run[..k]);
    } else {
      assert run[..n][..n] == run[..n] && run[..k] == run;
      TakenFrame(ms, y, run);
    }
  }

  /** At every moment of a run, the accepted W beats are those offered while a burst was in flight, in order. */
  lemma {:induction false} BeatsExactly(g: Geometry, m0: seq<Byte>, run: seq<Cycle>, k: nat)
    requires k <= |run|
    ensures var ms := Moments(g, m0, run); ms[k].1.h.wl.beats == TakenW(ms, run[..k])
    decreases |run|
  {
    if run == [] {
      assert run[..k] == [];
    } else {
      var n := |run| - 1;
      var y := LastWrites(g, m0, run);
      BeatsExactly(g, m0, run[..n], if k <= n then k else n);
      BeatsNext(Moments(g, m0, run[..n]), y, run, k);
    }
  }

  // Requests.

  function AddrOn(k: nat): UpAddr -> bool {
    (u: UpAddr) => u.id % 16 == k
  }

  function LastOn(k: nat): UpRBeat -> bool {
    (b: UpRBeat) => b.last && b.id % 16 == k
  }

  function AnswerOn(k: nat): UpB -> bool {
    (b: UpB) => b.id % 16 == k
  }

  /** Upstream ARs of a four-bit ID without their last R beat; upstream AWs of it without their B. */
  function OpenReads(l: Log, k: nat): int {
    |Filter(l.ars, AddrOn(k))| - |Filter(l.upR, LastOn(k))|
  }

  function OpenWrites(l: Log, k: nat): int {
    |Filter(l.aws, AddrOn(k))| - |Filter(l.upB, AnswerOn(k))|
  }

  lemma {:induction false} SameCount<T, U>(a: seq<T>, b: seq<U>, p: T -> bool, q: U -> bool)
    requires |a| == |b| && forall i :: 0 <= i < |a| ==> p(a[i]) == q(b[i])
    ensures |Filter(a, p)| == |Filter(b, q)|
    decreases |a|
  {
    if a != [] {
      SameCount(a[..|a| - 1], b[..|b| - 1], p, q);
    }
  }

  lemma UpBeatIs(g: Geometry, b: Burst, i: nat)
    requires i < b.t.ar.Beats()
    ensures var u := UpBeats(g, b)[i]; u.id % 16 == b.t.ar.id && (u.last <==> i == b.t.ar.Beats() - 1)
  {}

  lemma NoLast(g: Geometry, b: Burst, c: nat, k: nat)
    requires c < b.t.ar.Beats()
    ensures Filter(UpBeats(g, b)[..c], LastOn(k)) == []
  {
    forall i | 0 <= i < c ensures !LastOn(k)(UpBeats(g, b)[..c][i]) {
      UpBeatIs(g, b, i);
    }
    FilterNone(UpBeats(g, b)[..c], LastOn(k));
  }

  lemma OneLast(g: Geometry, b: Burst, k: nat)
    ensures |Filter(UpBeats(g, b), LastOn(k))| == if b.t.ar.id == k then 1 else 0
  {
    var us, n := UpBeats(g, b), b.t.ar.Beats() - 1;
    NoLast(g, b, n, k);
    UpBeatIs(g, b, n);
    assert us == us[..n] + [us[n]];
    FilterSnoc(us[..n], us[n], LastOn(k));
  }

  lemma {:induction false} LastsAre(g: Geometry, bs: seq<Burst>, k: nat)
    ensures |Filter(UpFlatten(g, bs), LastOn(k))| == |Filter(bs, (b: Burst) => b.t.ar.id == k)|
    decreases |bs|
  {
    if bs != [] {
      var n := |bs| - 1;
      LastsAre(g, bs[..n], k);
      OneLast(g, bs[n], k);
      FilterAppend(UpFlatten(g, bs[..n]), UpBeats(g, bs[n]), LastOn(k));
    }
  }

  lemma DeliveredLasts(g: Geometry, l: Log, k: Id4)
    requires UpStream(g, l.h.rl.done, l.h.rl.m, l.h.rl.c, l.upR) && ReadsAgree(l)
    ensures |Filter(l.upR, LastOn(k))| == Y.Left(l.ry, k)
  {
    var rl := l.h.rl;
    var d := rl.done[..rl.m];
    LastsAre(g, d, k);
    FilterMap(d, IdOfBurst(), IsId(k), (b: Burst) => b.t.ar.id == k);
    if rl.m < |rl.done| {
      NoLast(g, rl.done[rl.m], rl.c, k);
      FilterAppend(UpFlatten(g, d), UpBeats(g, rl.done[rl.m])[..rl.c], LastOn(k));
    } else {
      assert l.upR == UpFlatten(g, d);
    }
  }

  /** The echo queue of an ID holds one entry for each open read of it. */
  lemma ReadQueue(g: Geometry, x: Sys, l: Log, k: Id4)
    requires UpStream(g, l.h.rl.done, l.h.rl.m, l.h.rl.c, l.upR) && ReadsAgree(l) && Indexed(l) && Y.Tracks(x.rq, l.ry)
    ensures |x.rq[k]| == OpenReads(l, k)
  {
    DeliveredLasts(g, l, k);
    Y.HeadIsOldest(x.rq, l.ry, k);
    SameCount(l.ry.entered, l.ars, Y.EntryOfId(k), AddrOn(k));
  }

  lemma WriteQueue(x: Sys, l: Log, k: Id4)
    requires WritesAgree(l) && Indexed(l) && Answered(l) && Y.Tracks(x.wq, l.wy)
    ensures |x.wq[k]| == OpenWrites(l, k)
  {
    Y.HeadIsOldest(x.wq, l.wy, k);
    SameCount(l.wy.entered, l.aws, Y.EntryOfId(k), AddrOn(k));
    assert AnsweredInOrder(l, k);
    SameCount(l.answers, l.upB, Y.EntryOfId(k), AnswerOn(k));
  }

  /** What the ports of one cycle do at a state. An AR goes through exactly when DRAMSim accepts and its four-bit ID has
      fewer open reads than 2 (IDs 0 to 3) or 1 (IDs 4 to 15); an AW likewise, with no burst in flight; R and B beats
      are taken exactly when there is one and the master is ready. */
  ghost predicate PortsOf(x: Sys, c: Cycle, l: Log, l': Log) {
    var kr, kw := c.ar.id % 16, c.aw.id % 16;
    var arReady := c.accept && OpenReads(l, kr) < if kr < 4 then 2 else 1;
    var awReady := c.accept && !x.s.wr.store.inflight && OpenWrites(l, kw) < if kw < 4 then 2 else 1;
    && (Y.InReady(x.rq, ReadSignals(x, c)) <==> arReady)
    && (Y.InReady(x.wq, WriteSignals(x, c)) <==> awReady)
    && l'.ars == l.ars + (if c.arValid && arReady then [c.ar] else [])
    && l'.aws == l.aws + (if c.awValid && awReady then [c.aw] else [])
    && |l'.upR| == |l.upR| + (if c.rReady && x.s.rd.resp != [] then 1 else 0)
    && |l'.upB| == |l.upB| + (if c.bReady && x.s.wr.resp != [] then 1 else 0)
  }

  lemma PortsMove(x: Sys, c: Cycle, l: Log, l': Log)
    requires Moves(x, c, l, l')
    requires |x.rq[c.ar.id % 16]| == OpenReads(l, c.ar.id % 16)
    requires |x.wq[c.aw.id % 16]| == OpenWrites(l, c.aw.id % 16)
    ensures PortsOf(x, c, l, l')
  {}

  lemma QueuesAt(g: Geometry, m0: seq<Byte>, x: Sys, l: Log, k: Id4)
    requires Inv(g, m0, x, l)
    ensures |x.rq[k]| == OpenReads(l, k) && |x.wq[k]| == OpenWrites(l, k)
  {
    ReadQueue(g, x, l, k);
    WriteQueue(x, l, k);
  }

  lemma PortsAt(g: Geometry, m0: seq<Byte>, x: Sys, l: Log, c: Cycle)
    requires Inv(g, m0, x, l)
    ensures PortsOf(x, c, l, StepLog(g, x, l, c))
  {
    QueuesAt(g, m0, x, l, c.ar.id % 16);
    QueuesAt(g, m0, x, l, c.aw.id % 16);
    StepMoves(g, x, l, c);
    PortsMove(x, c, l, StepLog(g, x, l, c));
  }

  /** At every reachable state, whatever the next cycle brings. */
  lemma PortsExactly(g: Geometry, m0: seq<Byte>, run: seq<Cycle>, c: Cycle)
    ensures var (x, l) := Reached(g, m0, run); PortsOf(x, c, l, StepLog(g, x, l, c))
  {
    ReachedInv(g, m0, run);
    PortsAt(g, m0, Reached(g, m0, run).0, Reached(g, m0, run).1, c);
  }
}
