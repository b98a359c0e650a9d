/** How long a pending read can be overtaken by reads of other IDs. */
module Overtaking {
  import opened Seqs
  import opened Memory
  import opened Bursts
  import R = ReadPath
  import D = Dramsim
  import opened Progress
  import E = EndToEnd

  /** The read waits at place i of the pending list. */
  ghost predicate WaitsAt(h: D.Hist, t: Ticket, i: nat) {
    i < |h.rl.pend| && h.rl.pend[i] == t
  }

  /** A tick in which the read could be issued: DRAMSim accepts and the read's own ID is idle. */
  predicate Eligible(s: D.Slave, p: D.Pins, t: Ticket) {
    p.accept && !s.rd.busy[t.ar.id]
  }

  /** Pending reads of one ID are in AR order, so no read is pending twice. */
  lemma PendingInOrder(rl: R.RLog, i: nat, j: nat)
    requires R.Ordered(rl) && i < j < |rl.pend| && rl.pend[i].ar.id == rl.pend[j].ar.id
    requires forall n :: 0 <= n < |rl.ars| ==> rl.ars[n].n == n
    ensures rl.pend[i].n < rl.pend[j].n
  {
    var k := rl.pend[i].ar.id;
    var fs, all := Filter(rl.pend, R.OfId(k)), Filter(rl.ars, R.OfId(k));
    var skip := |all| - |fs|;
    forall x, y | 0 <= x < y < |fs|
      ensures E.NumberOf()(fs[x]) < E.NumberOf()(fs[y])
    {
      assert fs[x] == all[skip + x] && fs[y] == all[skip + y];
      IncreasingFilter(rl.ars, R.OfId(k), E.NumberOf(), skip + x, skip + y);
    }
    FilterIncreasing(rl.pend, R.OfId(k), E.NumberOf(), i, j);
  }

  /** After the tick's issue step, the read has gone, or waits no further back, and one place further forward if it
      was eligible. */
  lemma IssueMoves(s: D.Slave, p: D.Pins, l: R.RLog, t: Ticket, i: nat)
    requires R.Ordered(l) && s.rd.pending == Map(l.pend, R.ToReq()) && i < |l.pend| && l.pend[i] == t
    requires forall n :: 0 <= n < |l.ars| ==> l.ars[n].n == n
    ensures var pend := Issued(s, p, l);
            || (p.accept && R.FirstIdle(s.rd) == i && t !in pend)
            || (Eligible(s, p, t) && i > 0 && i - 1 < |pend| && pend[i - 1] == t)
            || (!Eligible(s, p, t) && ((i < |pend| && pend[i] == t) || (i > 0 && i - 1 < |pend| && pend[i - 1] == t)))
  {
    if p.accept {
      var f := R.FirstIdle(s.rd);
      assert s.rd.pending[i].id == t.ar.id;
      assert Eligible(s, p, t) ==> R.Idle(s.rd.busy)(s.rd.pending[i]);
      if f == i {
        forall j | 0 <= j < |l.pend| && j != i
          ensures l.pend[j] != t
        {
          if l.pend[j].ar.id == t.ar.id {
            PendingInOrder(l, if i < j then i else j, if i < j then j else i);
          }
        }
      }
    }
  }

  lemma {:induction false} PendFrame(g: Geometry, s: D.Slave, h: D.Hist, cs: seq<D.Completion>)
    ensures D.UpdateLog(g, s, h, cs).rl.pend == h.rl.pend && D.UpdateLog(g, s, h, cs).rl.ars == h.rl.ars
  {
    if cs != [] {
      PendFrame(g, s, h, cs[..|cs| - 1]);
    }
  }

  function Issued(s: D.Slave, p: D.Pins, l: R.RLog): seq<Ticket>
    requires |l.pend| == |s.rd.pending|
  {
    (if p.accept then R.IssueLog(s.rd, l) else l).pend
  }

  /** A tick only appends to what its issue step leaves pending, and what it appends is a new read. */
  lemma TickAppends(g: Geometry, s: D.Slave, h: D.Hist, p: D.Pins) returns (added: seq<Ticket>)
    requires |h.rl.pend| == |s.rd.pending|
    ensures D.TickLog(g, s, h, p).rl.pend == Issued(s, p, h.rl) + added
    ensures D.TickLog(g, s, h, p).rl.ars == h.rl.ars + added
    ensures forall t :: t in added ==> t.n == |h.rl.ars|
  {
    PendFrame(g, D.Front(g, s, p), D.FrontLog(s, p, h), p.schedule);
    var h1 := D.FrontLog(s, p, h);
    added := if D.ArFires(s, p) then [Ticket(p.ar, |h.rl.ars|, |h1.wl.beats|, |h1.ws.taken|)] else [];
  }

  /** One whole tick: the read is gone, or waits at a place j <= i, and j < i if the tick was eligible. */
  lemma TickMoves(g: Geometry, m0: seq<Byte>, s: D.Slave, h: D.Hist, p: D.Pins, t: Ticket, i: nat) returns (j: nat)
    requires D.Inv(g, m0, s, h) && !p.reset && WaitsAt(h, t, i) && t.n < |h.rl.ars|
    ensures var h' := D.TickLog(g, s, h, p);
            t.n < |h'.rl.ars| && (t !in h'.rl.pend || (WaitsAt(h', t, j) && j <= i && (Eligible(s, p, t) ==> j < i)))
  {
    var added := TickAppends(g, s, h, p);
    IssueMoves(s, p, h.rl, t, i);
    var pend := Issued(s, p, h.rl);
    if t in pend {
      j := if !Eligible(s, p, t) && i < |pend| && pend[i] == t then i else i - 1;
    } else {
      j := 0;
    }
  }

  /** A read once issued never waits again. */
  lemma GoneStaysGone(g: Geometry, s: D.Slave, h: D.Hist, p: D.Pins, t: Ticket)
    requires |h.rl.pend| == |s.rd.pending| && t !in h.rl.pend && t.n < |h.rl.ars|
    ensures t !in D.TickLog(g, s, h, p).rl.pend && t.n < |D.TickLog(g, s, h, p).rl.ars|
  {
    var added := TickAppends(g, s, h, p);
  }

  /** The eligible ticks of a run, for a read. */
  ghost function EligibleTicks(g: Geometry, s: D.Slave, ps: seq<D.Pins>, t: Ticket): nat
    decreases |ps|
  {
    if ps == [] then 0
    else (if Eligible(s, ps[0], t) then 1 else 0) + EligibleTicks(g, D.Tick(g, s, ps[0]), ps[1..], t)
  }

  lemma {:induction false} GoneForGood(
    g: Geometry, m0: seq<Byte>, s: D.Slave, h: D.Hist, ps: seq<D.Pins>, t: Ticket)
    requires D.Inv(g, m0, s, h) && forall k :: 0 <= k < |ps| ==> !ps[k].reset
    requires t !in h.rl.pend && t.n < |h.rl.ars|
    ensures t !in After(g, m0, s, h, ps).1.rl.pend
    decreases |ps|
  {
    if ps != [] {
      GoneStaysGone(g, s, h, ps[0], t);
      D.TickKeeps(g, m0, s, h, ps[0]);
      GoneForGood(g, m0, D.Tick(g, s, ps[0]), D.TickLog(g, s, h, ps[0]), ps[1..], t);
    }
  }

  /** A read waiting at place i has been issued once i + 1 of its ticks were eligible, whatever else arrives. */
  lemma {:induction false} OvertakingIsBounded(
    g: Geometry, m0: seq<Byte>, s: D.Slave, h: D.Hist, ps: seq<D.Pins>, t: Ticket, i: nat)
    requires D.Inv(g, m0, s, h) && forall k :: 0 <= k < |ps| ==> !ps[k].reset
    requires WaitsAt(h, t, i) && t.n < |h.rl.ars|
    requires EligibleTicks(g, s, ps, t) > i
    ensures t !in After(g, m0, s, h, ps).1.rl.pend
    decreases |ps|
  {
    var p := ps[0];
    var j := TickMoves(g, m0, s, h, p, t, i);
    D.TickKeeps(g, m0, s, h, p);
    var s', h' := D.Tick(g, s, p), D.TickLog(g, s, h, p);
    if t in h'.rl.pend {
      OvertakingIsBounded(g, m0, s', h', ps[1..], t, j);
    } else {
      GoneForGood(g, m0, s', h', ps[1..], t);
    }
  }
}
