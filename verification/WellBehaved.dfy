/** A master that keeps to the memory and marks the last beat of its bursts never trips an assertion of the slave. */
module WellBehaved {
  import opened Arithmetic
  import opened Seqs
  import opened Bits
  import opened Memory
  import opened Axi
  import opened Stores
  import opened Bursts
  import opened AddressFifos
  import opened IdIndexer
  import opened System
  import opened EndToEnd
  import opened Ports
  import C = DramsimClass
  import R = ReadPath
  import W = WritePath
  import I = Instants

  /** The words a read burst touches, and the bytes a write burst does, lie in the memory; transfers fit the bus. */
  predicate GoodRead(g: Geometry, u: UpAddr) {
    g.Covers(Aligned(g, u.addr), (u.len + 1) * g.Word())
  }

  predicate GoodWrite(g: Geometry, u: UpAddr) {
    u.size <= g.lgWord && g.Covers(u.addr, (u.len + 1) * Pow2(u.size))
  }

  predicate GoodBeat(g: Geometry, x: Sys, c: Cycle) {
    |c.w.data| == g.Word() && (x.s.wr.store.count == 1 ==> c.w.last)
  }

  predicate GoodCycle(g: Geometry, x: Sys, c: Cycle) {
    && (c.arValid ==> GoodRead(g, c.ar))
    && (c.awValid ==> GoodWrite(g, c.aw))
    && (c.wValid && x.s.wr.store.inflight ==> GoodBeat(g, x, c))
  }

  predicate GoodRun(g: Geometry, ms: seq<(Sys, Log)>, run: seq<Cycle>)
    requires |ms| >= |run|
  {
    forall i :: 0 <= i < |run| ==> GoodCycle(g, ms[i].0, run[i])
  }

  /** What was accepted is good. */
  predicate GoodLog(g: Geometry, l: Log) {
    && (forall i :: 0 <= i < |l.ars| ==> GoodRead(g, l.ars[i]))
    && (forall i :: 0 <= i < |l.aws| ==> GoodWrite(g, l.aws[i]))
  }

  lemma RequestsGrow(x: Sys, c: Cycle, l: Log, l': Log)
    requires PortsOf(x, c, l, l')
    ensures l'.ars == l.ars || (c.arValid && l'.ars == l.ars + [c.ar])
    ensures l'.aws == l.aws || (c.awValid && l'.aws == l.aws + [c.aw])
  {}

  lemma GoodMore(g: Geometry, l: Log, l': Log, c: Cycle)
    requires GoodLog(g, l) && (c.arValid ==> GoodRead(g, c.ar)) && (c.awValid ==> GoodWrite(g, c.aw))
    requires l'.ars == l.ars || (c.arValid && l'.ars == l.ars + [c.ar])
    requires l'.aws == l.aws || (c.awValid && l'.aws == l.aws + [c.aw])
    ensures GoodLog(g, l')
  {}

  lemma GoodStep(g: Geometry, x: Sys, l: Log, l': Log, c: Cycle)
    requires PortsOf(x, c, l, l') && GoodLog(g, l) && GoodCycle(g, x, c)
    ensures GoodLog(g, l')
  {
    RequestsGrow(x, c, l, l');
    GoodMore(g, l, l', c);
  }

  lemma GoodLast(g: Geometry, m0: seq<Byte>, run: seq<Cycle>) returns (y: (Sys, Log))
    requires run != [] && GoodLog(g, Moments(g, m0, run[..|run| - 1])[|run| - 1].1)
    requires GoodCycle(g, Moments(g, m0, run[..|run| - 1])[|run| - 1].0, run[|run| - 1])
    ensures Moments(g, m0, run) == Moments(g, m0, run[..|run| - 1]) + [y] && GoodLog(g, y.1)
  {
    var n := |run| - 1;
    var (x, l) := Moments(g, m0, run[..n])[n];
    ReachedInv(g, m0, run[..n]);
    PortsAt(g, m0, x, l, run[n]);
    GoodStep(g, x, l, StepLog(g, x, l, run[n]), run[n]);
    y := (Step(g, x, run[n]), StepLog(g, x, l, run[n]));
  }

  lemma GoodFront(g: Geometry, ms: seq<(Sys, Log)>, y: (Sys, Log), run: seq<Cycle>)
    requires |ms| == |run| && run != [] && GoodRun(g, ms + [y], run)
    ensures GoodRun(g, ms, run[..|run| - 1]) && GoodCycle(g, ms[|run| - 1].0, run[|run| - 1])
  {
    forall i | 0 <= i < |run| ensures GoodCycle(g, ms[i].0, run[i]) {
      assert (ms + [y])[i] == ms[i];
    }
  }

  lemma {:induction false} GoodLogs(g: Geometry, m0: seq<Byte>, run: seq<Cycle>)
    requires GoodRun(g, Moments(g, m0, run), run)
    ensures GoodLog(g, Moments(g, m0, run)[|run|].1)
    decreases |run|
  {
    if run != [] {
      var n := |run| - 1;
      var ms := Moments(g, m0, run[..n]);
      var w := LastWrites(g, m0, run);
      GoodFront(g, ms, w, run);
      GoodLogs(g, m0, run[..n]);
      var y := GoodLast(g, m0, run);
    }
  }

  // From good logs to the class.

  lemma RequestInRange(g: Geometry, t: Ticket)
    requires g.Covers(Aligned(g, t.ar.addr), t.ar.Beats() * g.Word())
    ensures C.InRange(g, R.ToReq()(t))
  {}

  lemma TicketGood(g: Geometry, l: Log, t: Ticket)
    requires GoodLog(g, l) && Indexed(l) && t in l.h.rl.ars
    ensures g.Covers(Aligned(g, t.ar.addr), t.ar.Beats() * g.Word())
  {
    var i :| 0 <= i < |l.h.rl.ars| && l.h.rl.ars[i] == t;
    assert GoodRead(g, l.ars[i]);
  }

  lemma PendingGood(g: Geometry, x: Sys, l: Log, q: R.Req)
    requires GoodLog(g, l) && Indexed(l) && R.Ordered(l.h.rl) && x.s.rd.pending == Map(l.h.rl.pend, R.ToReq())
    requires q in x.s.rd.pending
    ensures C.InRange(g, q)
  {
    var i :| 0 <= i < |x.s.rd.pending| && x.s.rd.pending[i] == q;
    var t := l.h.rl.pend[i];
    I.AcceptedOnce(l.h.rl, t);
    TicketGood(g, l, t);
    RequestInRange(g, t);
  }

  lemma SentGood(g: Geometry, x: Sys, l: Log, a: nat, q: R.Req)
    requires GoodLog(g, l) && Indexed(l) && R.Ordered(l.h.rl)
    requires Mirrors(x.s.rd.fifo, x.s.rd.owed, l.h.rl.sent, R.AddrOf(), R.ToReq()) && q in At(x.s.rd.fifo, a)
    ensures C.InRange(g, q)
  {
    var fs := Filter(l.h.rl.sent, Sent(R.AddrOf(), a));
    var i :| 0 <= i < |fs| && R.ToReq()(fs[i]) == q;
    FilterIn(l.h.rl.sent, Sent(R.AddrOf(), a), fs[i]);
    I.AcceptedOnce(l.h.rl, fs[i]);
    TicketGood(g, l, fs[i]);
    RequestInRange(g, fs[i]);
  }

  lemma ClassOk(g: Geometry, x: Sys, l: Log)
    requires GoodLog(g, l) && Indexed(l) && R.Inv(g, x.s.rd, l.h.rl)
    requires Mirrors(x.s.wr.fifo, x.s.wr.owed, l.h.ws.sent, W.TokenAddr(), W.TokenId())
    ensures C.Ok(g, x.s)
  {
    forall q | q in x.s.rd.pending ensures C.InRange(g, q) {
      PendingGood(g, x, l, q);
    }
    forall a: nat, q | q in At(x.s.rd.fifo, a) ensures C.InRange(g, q) {
      SentGood(g, x, l, a, q);
    }
  }

  lemma BeatInside(g: Geometry, aw: Addr, c: nat)
    requires g.Ok() && aw.size <= g.lgWord && g.Covers(aw.addr, aw.Beats() * aw.Bytes()) && c < aw.Beats()
    ensures g.Covers(aw.addr + c * aw.Bytes(), 1) && aw.Bytes() <= WIDTH
  {
    Pow2Grows(aw.size, 6);
    assert Pow2(6) == WIDTH;
    MulLe(c + 1, aw.Beats(), aw.Bytes());
    Distribute(c, 1, aw.Bytes());
  }

  lemma StoreInside(g: Geometry, st: Store, wl: WLog, ups: seq<UpAddr>)
    requires g.Ok() && Counted(st, wl) && st.inflight && |wl.aws| == |ups|
    requires forall i :: 0 <= i < |ups| ==> wl.aws[i] == Down(ups[i]) && GoodWrite(g, ups[i])
    ensures g.Covers(st.addr, 1) && st.size <= WIDTH
  {
    var aw := wl.aws[wl.finished];
    assert GoodWrite(g, ups[wl.finished]);
    BeatInside(g, aw, |wl.beats| - Beats(wl.aws[..wl.finished]));
  }

  lemma ClassDemands(g: Geometry, x: Sys, l: Log, c: Cycle)
    requires g.Ok() && GoodLog(g, l) && Indexed(l) && Counted(x.s.wr.store, l.h.wl) && GoodCycle(g, x, c)
    ensures C.Demanded(g, x.s, PinsOf(x, c))
  {
    if c.wValid && x.s.wr.store.inflight {
      StoreInside(g, x.s.wr.store, l.h.wl, l.aws);
    }
  }

  /** Over any run of such a master, and in its next such cycle, the class invariant and every range and `last`
      assertion of the slave hold. */
  lemma {:induction false} AssertionsHold(g: Geometry, m0: seq<Byte>, run: seq<Cycle>, c: Cycle)
    requires g.Ok() && GoodRun(g, Moments(g, m0, run), run) && GoodCycle(g, Reached(g, m0, run).0, c)
    ensures var x := Reached(g, m0, run).0; C.Ok(g, x.s) && C.Demanded(g, x.s, PinsOf(x, c))
  {
    GoodLogs(g, m0, run);
    ReachedInv(g, m0, run);
    ClassOk(g, Reached(g, m0, run).0, Reached(g, m0, run).1);
    ClassDemands(g, Reached(g, m0, run).0, Reached(g, m0, run).1, c);
  }
}
