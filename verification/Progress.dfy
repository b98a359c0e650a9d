/** The read side of mm_dramsim2_t never deadlocks, drains under fairness, and overtakes boundedly. */
module Progress {
  import opened Seqs
  import opened Memory
  import opened Axi
  import opened Bursts
  import opened AddressFifos
  import R = ReadPath
  import D = Dramsim

  function PendingCost(): Ticket -> nat {
    (t: Ticket) => t.ar.Beats() + 2
  }

  function SentCost(): Ticket -> nat {
    (t: Ticket) => t.ar.Beats() + 1
  }

  /** The steps still to take: issue, completion and every R beat of each accepted read. */
  function Measure(r: R.Reads, l: R.RLog): nat {
    Sum(l.pend, PendingCost()) + Sum(l.sent, SentCost()) + |r.resp|
  }

  // What one tick does to the measure.

  function Issues(s: D.Slave, p: D.Pins): nat {
    if p.accept && R.FirstIdle(s.rd) < |s.rd.pending| then 1 else 0
  }

  function Takes(s: D.Slave, p: D.Pins): nat {
    if D.RFires(s, p) then 1 else 0
  }

  function Cost(s: D.Slave, p: D.Pins): nat {
    if D.ArFires(s, p) then p.ar.Beats() + 2 else 0
  }

  /** The reads that DRAMSim completes out of a schedule. */
  function Completes(g: Geometry, s: D.Slave, cs: seq<D.Completion>): nat {
    if cs == [] then 0
    else
      var before, c := D.Update(g, s, cs[..|cs| - 1]), cs[|cs| - 1];
      Completes(g, s, cs[..|cs| - 1]) + if c.ReadDone? && c.addr in before.rd.owed then 1 else 0
  }

  lemma IssueMeasure(r: R.Reads, l: R.RLog)
    requires r.pending == Map(l.pend, R.ToReq())
    ensures Measure(R.Issue(r), R.IssueLog(r, l)) + (if R.FirstIdle(r) < |r.pending| then 1 else 0) == Measure(r, l)
  {
    var i := R.FirstIdle(r);
    if i < |r.pending| {
      SumRemoveAt(l.pend, i, PendingCost());
      SumSnoc(l.sent, l.pend[i], SentCost());
    }
  }

  lemma AcceptMeasure(r: R.Reads, l: R.RLog, ar: Addr, beats: nat, answers: nat)
    ensures Measure(R.Accept(r, ar), R.AcceptLog(l, ar, beats, answers)) == Measure(r, l) + ar.Beats() + 2
  {
    SumSnoc(l.pend, Ticket(ar, |l.ars|, beats, answers), PendingCost());
  }

  lemma CompleteMeasure(g: Geometry, m: seq<Byte>, beats: nat, r: R.Reads, l: R.RLog, a: nat)
    requires Mirrors(r.fifo, r.owed, l.sent, R.AddrOf(), R.ToReq()) && a in r.owed
    ensures Measure(R.Complete(g, m, r, a), R.CompleteLog(m, beats, l, a)) + 1 == Measure(r, l)
  {
    OldestExists(r.fifo, r.owed, l.sent, R.AddrOf(), R.ToReq(), a);
    SumRemoveAt(l.sent, Oldest(l.sent, R.AddrOf(), a), SentCost());
  }

  /** The accept and the pop of a tick, after its issue. */
  lemma LaterMeasure(s: D.Slave, p: D.Pins, r: R.Reads, l: R.RLog, beats: nat, answers: nat)
    requires D.RFires(s, p) ==> r.resp != [] && r.resp == s.rd.resp
    ensures var r' := if D.ArFires(s, p) then R.Accept(r, p.ar) else r;
            var l' := if D.ArFires(s, p) then R.AcceptLog(l, p.ar, beats, answers) else l;
            if D.RFires(s, p) then Measure(R.PopBeat(r'), R.PopLog(s.rd, l')) + 1 == Measure(r, l) + Cost(s, p)
            else Measure(r', l') == Measure(r, l) + Cost(s, p)
  {
    if D.ArFires(s, p) {
      AcceptMeasure(r, l, p.ar, beats, answers);
    }
  }

  lemma FrontMeasure(g: Geometry, s: D.Slave, p: D.Pins, l: R.RLog, beats: nat, answers: nat)
    requires s.rd.pending == Map(l.pend, R.ToReq())
    ensures Measure(D.ReadFront(s, p), D.ReadFrontLog(s, p, l, beats, answers)) + Issues(s, p) + Takes(s, p)
            == Measure(s.rd, l) + Cost(s, p)
  {
    var r1, l1 := if p.accept then R.Issue(s.rd) else s.rd, if p.accept then R.IssueLog(s.rd, l) else l;
    if p.accept {
      IssueMeasure(s.rd, l);
    }
    LaterMeasure(s, p, r1, l1, beats, answers);
  }

  lemma {:induction false} UpdateMeasure(
    g: Geometry, m0: seq<Byte>, s: D.Slave, h: D.Hist, cs: seq<D.Completion>)
    requires D.Inv(g, m0, s, h)
    ensures Measure(D.Update(g, s, cs).rd, D.UpdateLog(g, s, h, cs).rl) + Completes(g, s, cs) == Measure(s.rd, h.rl)
  {
    if cs != [] {
      var front, c := cs[..|cs| - 1], cs[|cs| - 1];
      UpdateMeasure(g, m0, s, h, front);
      D.UpdateKeeps(g, m0, s, h, front);
      var s1, h1 := D.Update(g, s, front), D.UpdateLog(g, s, h, front);
      if c.ReadDone? && c.addr in s1.rd.owed {
        CompleteMeasure(g, s1.mem, |h1.wl.beats|, s1.rd, h1.rl, c.addr);
      }
    }
  }

  /** The measure grows only when an AR fires, and drops by exactly one at each issue, completion and R beat taken. */
  lemma {:induction false} TickMeasure(g: Geometry, m0: seq<Byte>, s: D.Slave, h: D.Hist, p: D.Pins)
    requires D.Inv(g, m0, s, h) && !p.reset
    ensures Measure(D.Tick(g, s, p).rd, D.TickLog(g, s, h, p).rl)
            + Issues(s, p) + Takes(s, p) + Completes(g, D.Front(g, s, p), p.schedule)
            == Measure(s.rd, h.rl) + Cost(s, p)
  {
    var h1 := D.FrontLog(s, p, h);
    FrontMeasure(g, s, p, h.rl, |h1.wl.beats|, |h1.ws.taken|);
    D.FrontKeeps(g, m0, s, p, h);
    UpdateMeasure(g, m0, D.Front(g, s, p), h1, p.schedule);
  }

  // No deadlock.

  /** While the measure is positive, an R beat can be taken, or DRAMSim owes a completion, or the scan finds a read to
      issue. */
  lemma NoDeadlock(g: Geometry, m0: seq<Byte>, s: D.Slave, h: D.Hist)
    requires D.Inv(g, m0, s, h) && Measure(s.rd, h.rl) > 0
    ensures s.rd.resp != [] || s.rd.owed != multiset{} || R.FirstIdle(s.rd) < |s.rd.pending|
  {
    OwedIffSent(s.rd.fifo, s.rd.owed, h.rl.sent, R.AddrOf(), R.ToReq());
    if h.rl.sent == [] {
      assert forall k: Id4 :: !s.rd.busy[k];
      if s.rd.pending != [] {
        assert R.Idle(s.rd.busy)(s.rd.pending[0]);
      }
    }
  }

  // Draining under fairness.

  /** No AR fires; DRAMSim accepts; the master takes R beats; and DRAMSim completes a read if it owes one. */
  ghost predicate Fair(g: Geometry, s: D.Slave, p: D.Pins) {
    && !p.reset && !D.ArFires(s, p) && p.accept && p.rReady
    && (D.Front(g, s, p).rd.owed != multiset{} ==> Completes(g, D.Front(g, s, p), p.schedule) > 0)
  }

  lemma FairProgress(g: Geometry, m0: seq<Byte>, s: D.Slave, h: D.Hist, p: D.Pins)
    requires D.Inv(g, m0, s, h) && Fair(g, s, p)
    ensures var after := Measure(D.Tick(g, s, p).rd, D.TickLog(g, s, h, p).rl);
            after <= Measure(s.rd, h.rl) && (Measure(s.rd, h.rl) > 0 ==> after < Measure(s.rd, h.rl))
  {
    TickMeasure(g, m0, s, h, p);
    if Measure(s.rd, h.rl) > 0 {
      NoDeadlock(g, m0, s, h);
      FrontStillOwed(g, s, p);
    }
  }

  lemma FrontStillOwed(g: Geometry, s: D.Slave, p: D.Pins)
    ensures s.rd.owed <= D.Front(g, s, p).rd.owed
    ensures s.rd.owed != multiset{} ==> D.Front(g, s, p).rd.owed != multiset{}
  {
    if a :| a in s.rd.owed {
      assert a in D.Front(g, s, p).rd.owed;
    }
  }

  /** The state after more ticks. */
  ghost function After(g: Geometry, m0: seq<Byte>, s: D.Slave, h: D.Hist, ps: seq<D.Pins>): (r: (D.Slave, D.Hist))
    requires D.Inv(g, m0, s, h) && forall i :: 0 <= i < |ps| ==> !ps[i].reset
    ensures D.Inv(g, m0, r.0, r.1)
    decreases |ps|
  {
    if ps == [] then (s, h)
    else
      D.TickKeeps(g, m0, s, h, ps[0]);
      After(g, m0, D.Tick(g, s, ps[0]), D.TickLog(g, s, h, ps[0]), ps[1..])
  }

  ghost predicate AllFair(g: Geometry, s: D.Slave, ps: seq<D.Pins>)
    ensures AllFair(g, s, ps) ==> forall i :: 0 <= i < |ps| ==> !ps[i].reset
    decreases |ps|
  {
    ps == [] || (Fair(g, s, ps[0]) && AllFair(g, D.Tick(g, s, ps[0]), ps[1..]))
  }

  lemma {:induction false} FairRunShrinks(g: Geometry, m0: seq<Byte>, s: D.Slave, h: D.Hist, ps: seq<D.Pins>)
    requires D.Inv(g, m0, s, h) && AllFair(g, s, ps)
    ensures var (s', h') := After(g, m0, s, h, ps);
            Measure(s'.rd, h'.rl) <= if |ps| < Measure(s.rd, h.rl) then Measure(s.rd, h.rl) - |ps| else 0
    decreases |ps|
  {
    if ps != [] {
      FairProgress(g, m0, s, h, ps[0]);
      D.TickKeeps(g, m0, s, h, ps[0]);
      FairRunShrinks(g, m0, D.Tick(g, s, ps[0]), D.TickLog(g, s, h, ps[0]), ps[1..]);
    }
  }

  lemma {:induction false} SumPositive<T>(s: seq<T>, f: T -> nat)
    requires forall x :: f(x) > 0
    ensures s != [] ==> Sum(s, f) > 0
  {}

  /** After as many fair ticks as the measure counts, every accepted read has been answered and every beat taken. */
  lemma {:induction false} FairRunDrains(g: Geometry, m0: seq<Byte>, s: D.Slave, h: D.Hist, ps: seq<D.Pins>)
    requires D.Inv(g, m0, s, h) && AllFair(g, s, ps) && |ps| >= Measure(s.rd, h.rl)
    ensures var (s', h') := After(g, m0, s, h, ps);
            && s'.rd.pending == [] && s'.rd.owed == multiset{} && s'.rd.resp == []
            && h'.rl.taken == Flatten(g, h'.rl.done)
            && forall k: Id4 :: Filter(h'.rl.ars, R.OfId(k)) == Filter(Map(h'.rl.done, R.TicketOf()), R.OfId(k))
  {
    FairRunShrinks(g, m0, s, h, ps);
    var (s', h') := After(g, m0, s, h, ps);
    var l := h'.rl;
    SumPositive(l.pend, PendingCost());
    SumPositive(l.sent, SentCost());
    OwedIffSent(s'.rd.fifo, s'.rd.owed, l.sent, R.AddrOf(), R.ToReq());
    FlattenSplit(g, l.done, l.m);
    forall k: Id4
      ensures Filter(l.ars, R.OfId(k)) == Filter(Map(l.done, R.TicketOf()), R.OfId(k))
    {
      assert R.InOrder(l, k) == Filter(Map(l.done, R.TicketOf()), R.OfId(k)) + [] + [];
    }
  }
}
