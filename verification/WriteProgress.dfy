/** The write side of mm_dramsim2_t never deadlocks and drains under fairness. */
module WriteProgress {
  import opened Seqs
  import opened Memory
  import opened Axi
  import opened Stores
  import opened AddressFifos
  import W = WritePath
  import D = Dramsim

  /** The steps the burst in flight still takes: its W beats, its completion and its B. */
  function EngineCost(st: Store): nat {
    if st.inflight && st.count > 0 then st.count + 2 else 0
  }

  /** The steps still to take: W beats, completions and B responses of every accepted write. */
  function Measure(w: W.Writes, d: W.WSide): nat {
    EngineCost(w.store) + 2 * |d.sent| + |w.resp|
  }

  function One(b: bool): nat {
    if b then 1 else 0
  }

  function Cost(s: D.Slave, p: D.Pins): nat {
    if D.AwFires(s, p) then p.aw.Beats() + 2 else 0
  }

  /** The writes that DRAMSim completes out of a schedule. */
  function Completes(g: Geometry, s: D.Slave, cs: seq<D.Completion>): nat {
    if cs == [] then 0
    else
      var before, c := D.Update(g, s, cs[..|cs| - 1]), cs[|cs| - 1];
      Completes(g, s, cs[..|cs| - 1]) + One(c.WriteDone? && c.addr in before.wr.owed)
  }

  lemma CompleteMeasure(w: W.Writes, d: W.WSide, a: nat)
    requires Mirrors(w.fifo, w.owed, d.sent, W.TokenAddr(), W.TokenId()) && a in w.owed
    ensures Measure(W.Complete(w, a), W.CompleteLog(d, a)) + 1 == Measure(w, d)
  {
    OldestExists(w.fifo, w.owed, d.sent, W.TokenAddr(), W.TokenId(), a);
  }

  lemma FrontMeasure(s: D.Slave, p: D.Pins, d: W.WSide)
    requires s.wr.store.inflight ==> s.wr.store.count >= 1
    ensures Measure(D.WriteFront(s, p), D.WSideFront(s, p, d)) + One(D.WFires(s, p)) + One(D.BFires(s, p))
            == Measure(s.wr, d) + Cost(s, p)
  {}

  lemma {:induction false} UpdateMeasure(
    g: Geometry, m0: seq<Byte>, s: D.Slave, h: D.Hist, cs: seq<D.Completion>)
    requires D.Inv(g, m0, s, h)
    ensures Measure(D.Update(g, s, cs).wr, D.UpdateLog(g, s, h, cs).ws) + Completes(g, s, cs) == Measure(s.wr, h.ws)
  {
    if cs != [] {
      var front, c := cs[..|cs| - 1], cs[|cs| - 1];
      UpdateMeasure(g, m0, s, h, front);
      D.UpdateKeeps(g, m0, s, h, front);
      var s1, h1 := D.Update(g, s, front), D.UpdateLog(g, s, h, front);
      if c.WriteDone? && c.addr in s1.wr.owed {
        CompleteMeasure(s1.wr, h1.ws, c.addr);
      }
    }
  }

  /** The measure grows only when an AW fires, and drops by exactly one at each W beat, completion and B taken. */
  lemma {:induction false} TickMeasure(g: Geometry, m0: seq<Byte>, s: D.Slave, h: D.Hist, p: D.Pins)
    requires D.Inv(g, m0, s, h) && !p.reset
    ensures Measure(D.Tick(g, s, p).wr, D.TickLog(g, s, h, p).ws)
            + One(D.WFires(s, p)) + One(D.BFires(s, p)) + Completes(g, D.Front(g, s, p), p.schedule)
            == Measure(s.wr, h.ws) + Cost(s, p)
  {
    FrontMeasure(s, p, h.ws);
    D.FrontKeeps(g, m0, s, p, h);
    UpdateMeasure(g, m0, D.Front(g, s, p), D.FrontLog(s, p, h), p.schedule);
  }

  /** While the measure is positive, a W beat can be stored, or DRAMSim owes a completion, or a B can be taken. */
  lemma NoDeadlock(w: W.Writes, d: W.WSide)
    requires Mirrors(w.fifo, w.owed, d.sent, W.TokenAddr(), W.TokenId()) && Measure(w, d) > 0
    ensures w.store.inflight || w.owed != multiset{} || w.resp != []
  {
    OwedIffSent(w.fifo, w.owed, d.sent, W.TokenAddr(), W.TokenId());
  }

  /** No AW fires; the master offers the W beats it owes and takes B responses; and DRAMSim completes a write if it owes
      one. */
  ghost predicate Fair(g: Geometry, s: D.Slave, p: D.Pins) {
    && !p.reset && !D.AwFires(s, p) && (s.wr.store.inflight ==> p.wValid) && p.bReady
    && (D.Front(g, s, p).wr.owed != multiset{} ==> Completes(g, D.Front(g, s, p), p.schedule) > 0)
  }

  lemma FrontStillOwed(g: Geometry, s: D.Slave, p: D.Pins)
    ensures s.wr.owed != multiset{} ==> D.Front(g, s, p).wr.owed != multiset{}
  {
    if a :| a in s.wr.owed {
      assert a in D.Front(g, s, p).wr.owed;
    }
  }

  lemma FairProgress(g: Geometry, m0: seq<Byte>, s: D.Slave, h: D.Hist, p: D.Pins)
    requires D.Inv(g, m0, s, h) && Fair(g, s, p)
    ensures var after := Measure(D.Tick(g, s, p).wr, D.TickLog(g, s, h, p).ws);
            after <= Measure(s.wr, h.ws) && (Measure(s.wr, h.ws) > 0 ==> after < Measure(s.wr, h.ws))
  {
    TickMeasure(g, m0, s, h, p);
    if Measure(s.wr, h.ws) > 0 {
      NoDeadlock(s.wr, h.ws);
      FrontStillOwed(g, s, p);
    }
  }

  /** With nothing left to take, every accepted write of every ID has had its B taken. */
  lemma NothingLeft(w: W.Writes, d: W.WSide, l: WLog)
    requires W.Inv(w, d, l) && Counted(w.store, l) && Measure(w, d) == 0
    ensures !w.store.inflight && w.owed == multiset{} && w.resp == []
    ensures forall k: Id4 :: |Filter(d.taken, IsId(k))| == |Filter(l.aws, W.AddrOfId(k))|
  {
    OwedIffSent(w.fifo, w.owed, d.sent, W.TokenAddr(), W.TokenId());
    assert l.aws[..l.finished] == l.aws;
    forall k: Id4
      ensures |Filter(d.taken, IsId(k))| == |Filter(l.aws, W.AddrOfId(k))|
    {
      assert d.answered == d.taken;
      assert Filter(d.sent, W.TokenOfId(k)) == [];
    }
  }
}
