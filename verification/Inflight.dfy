/** What the busy bits and the FIFOs of mm_dramsim2_t say about each other, without the log. */
module Inflight {
  import opened Seqs
  import opened Axi
  import opened Memory
  import opened AddressFifos
  import R = ReadPath
  import D = Dramsim

  /** Request i of the FIFO for address a has ID k. */
  predicate Holds(r: R.Reads, a: nat, i: nat, k: Id4) {
    i < |At(r.fifo, a)| && At(r.fifo, a)[i].id == k
  }

  /** A read ID is busy exactly when some request of that ID is in the FIFOs, no ID is there twice, every request is
      under its own address, and each FIFO is as long as the completions DRAMSim owes for its address. */
  ghost predicate Consistent(s: D.Slave) {
    && (forall k: Id4 :: s.rd.busy[k] <==> exists a: nat, i: nat :: Holds(s.rd, a, i, k))
    && (forall k: Id4, a: nat, i: nat, b: nat, j: nat ::
         Holds(s.rd, a, i, k) && Holds(s.rd, b, j, k) ==> a == b && i == j)
    && (forall a: nat, i: nat :: i < |At(s.rd.fifo, a)| ==> At(s.rd.fifo, a)[i].addr == a)
    && (forall a: nat :: s.rd.owed[a] == |At(s.rd.fifo, a)| && s.wr.owed[a] == |At(s.wr.fifo, a)|)
  }

  /** The ticket behind a request in a FIFO. */
  lemma TicketBehind(r: R.Reads, l: R.RLog, a: nat, i: nat)
    requires Mirrors(r.fifo, r.owed, l.sent, R.AddrOf(), R.ToReq()) && i < |At(r.fifo, a)|
    ensures var fs := Filter(l.sent, Sent(R.AddrOf(), a));
            && |fs| == |At(r.fifo, a)| && At(r.fifo, a)[i] == R.ToReq()(fs[i])
            && fs[i] in l.sent && fs[i].ar.addr == a && At(r.fifo, a)[i].addr == a
  {
    var fs := Filter(l.sent, Sent(R.AddrOf(), a));
    FilterIn(l.sent, Sent(R.AddrOf(), a), fs[i]);
  }

  lemma BusyHolds(r: R.Reads, l: R.RLog, k: Id4) returns (a: nat, i: nat)
    requires Mirrors(r.fifo, r.owed, l.sent, R.AddrOf(), R.ToReq()) && R.OneInFlight(r.busy, l) && r.busy[k]
    ensures Holds(r, a, i, k)
  {
    var t := Filter(l.sent, R.OfId(k))[0];
    FilterIn(l.sent, R.OfId(k), t);
    a := t.ar.addr;
    var fs := Filter(l.sent, Sent(R.AddrOf(), a));
    FilterIn(l.sent, Sent(R.AddrOf(), a), t);
    i :| 0 <= i < |fs| && fs[i] == t;
    assert At(r.fifo, a) == Map(fs, R.ToReq());
  }

  lemma HoldsBusy(r: R.Reads, l: R.RLog, a: nat, i: nat, k: Id4)
    requires Mirrors(r.fifo, r.owed, l.sent, R.AddrOf(), R.ToReq()) && R.OneInFlight(r.busy, l)
    requires Holds(r, a, i, k)
    ensures r.busy[k] && |Filter(l.sent, R.OfId(k))| == 1
    ensures Filter(l.sent, Sent(R.AddrOf(), a))[i] == Filter(l.sent, R.OfId(k))[0]
  {
    TicketBehind(r, l, a, i);
    var t := Filter(l.sent, Sent(R.AddrOf(), a))[i];
    FilterIn(l.sent, R.OfId(k), t);
  }

  lemma HoldsOnce(r: R.Reads, l: R.RLog, a: nat, i: nat, b: nat, j: nat, k: Id4)
    requires Mirrors(r.fifo, r.owed, l.sent, R.AddrOf(), R.ToReq()) && R.OneInFlight(r.busy, l)
    requires Holds(r, a, i, k) && Holds(r, b, j, k)
    ensures a == b && i == j
  {
    HoldsBusy(r, l, a, i, k);
    HoldsBusy(r, l, b, j, k);
    TicketBehind(r, l, a, i);
    TicketBehind(r, l, b, j);
    var fs := Filter(l.sent, Sent(R.AddrOf(), a));
    FilterTwice(l.sent, Sent(R.AddrOf(), a), R.OfId(k));
    if i < j {
      FilterTwo(fs, R.OfId(k), i, j);
    } else if j < i {
      FilterTwo(fs, R.OfId(k), j, i);
    }
  }

  lemma InvConsistent(g: Geometry, m0: seq<Byte>, s: D.Slave, h: D.Hist)
    requires D.Inv(g, m0, s, h)
    ensures Consistent(s)
  {
    forall k: Id4, a: nat, i: nat, b: nat, j: nat | Holds(s.rd, a, i, k) && Holds(s.rd, b, j, k)
      ensures a == b && i == j
    {
      HoldsOnce(s.rd, h.rl, a, i, b, j, k);
    }
    forall k: Id4
      ensures s.rd.busy[k] <==> exists a: nat, i: nat :: Holds(s.rd, a, i, k)
    {
      if s.rd.busy[k] {
        var a, i := BusyHolds(s.rd, h.rl, k);
      }
      if a: nat, i: nat :| Holds(s.rd, a, i, k) {
        HoldsBusy(s.rd, h.rl, a, i, k);
      }
    }
    forall a: nat, i: nat | i < |At(s.rd.fifo, a)|
      ensures At(s.rd.fifo, a)[i].addr == a
    {
      TicketBehind(s.rd, h.rl, a, i);
    }
  }

  /** The slave and its log after any reset-free ticks. */
  ghost function Ticked(g: Geometry, m0: seq<Byte>, run: seq<D.Pins>): (r: (D.Slave, D.Hist))
    requires forall i :: 0 <= i < |run| ==> !run[i].reset
    ensures D.Inv(g, m0, r.0, r.1)
  {
    if run == [] then
      D.InitialInv(g, m0);
      (D.Initial(m0), D.EmptyHist)
    else
      var (s, h), p := Ticked(g, m0, run[..|run| - 1]), run[|run| - 1];
      D.TickKeeps(g, m0, s, h, p);
      (D.Tick(g, s, p), D.TickLog(g, s, h, p))
  }

  /** After every tick, and between any two callbacks of a tick, the slave is consistent; so a completion that DRAMSim
      owes never finds its FIFO empty, and neither assertion of the callbacks fails. */
  lemma {:induction false} AlwaysConsistent(
    g: Geometry, m0: seq<Byte>, run: seq<D.Pins>, p: D.Pins, done: seq<D.Completion>)
    requires forall i :: 0 <= i < |run| ==> !run[i].reset
    requires !p.reset
    ensures var s := Ticked(g, m0, run).0;
            Consistent(s) && Consistent(D.Update(g, D.Front(g, s, p), done))
  {
    var (s, h) := Ticked(g, m0, run);
    InvConsistent(g, m0, s, h);
    D.FrontKeeps(g, m0, s, p, h);
    var s1, h1 := D.Front(g, s, p), D.FrontLog(s, p, h);
    D.UpdateKeeps(g, m0, s1, h1, done);
    InvConsistent(g, m0, D.Update(g, s1, done), D.UpdateLog(g, s1, h1, done));
  }
}
