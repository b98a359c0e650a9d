/** The composed system drains: with no new requests and a fair environment, every accepted request is answered. */
module Drain {
  import opened Seqs
  import opened Memory
  import opened Axi
  import opened Bursts
  import opened System
  import IdIndexer
  import opened EndToEnd
  import opened Bounds
  import R = ReadPath
  import W = WritePath
  import D = Dramsim
  import Y = UserYanker
  import P = Progress
  import Q = WriteProgress

  /** The master sends no new AR or AW, offers the W beats it owes and takes every response; DRAMSim accepts, and
      completes a read if it owes one and a write if it owes one. */
  ghost predicate FairCycle(g: Geometry, x: Sys, c: Cycle) {
    !c.arValid && !c.awValid && P.Fair(g, x.s, PinsOf(x, c)) && Q.Fair(g, x.s, PinsOf(x, c))
  }

  /** The machine and its log after more cycles. */
  function After(g: Geometry, x: Sys, l: Log, cs: seq<Cycle>): (Sys, Log)
    decreases |cs|
  {
    if cs == [] then (x, l) else After(g, Step(g, x, cs[0]), StepLog(g, x, l, cs[0]), cs[1..])
  }

  lemma {:induction false} AfterInv(g: Geometry, m0: seq<Byte>, x: Sys, l: Log, cs: seq<Cycle>)
    requires Inv(g, m0, x, l)
    ensures var (x', l') := After(g, x, l, cs); Inv(g, m0, x', l')
    decreases |cs|
  {
    if cs != [] {
      StepKeeps(g, m0, x, l, cs[0]);
      AfterInv(g, m0, Step(g, x, cs[0]), StepLog(g, x, l, cs[0]), cs[1..]);
    }
  }

  ghost predicate AllFair(g: Geometry, x: Sys, cs: seq<Cycle>)
    decreases |cs|
  {
    cs == [] || (FairCycle(g, x, cs[0]) && AllFair(g, Step(g, x, cs[0]), cs[1..]))
  }

  /** The steps still to take on both sides. */
  function Steps(x: Sys, l: Log): nat {
    P.Measure(x.s.rd, l.h.rl) + Q.Measure(x.s.wr, l.h.ws)
  }

  lemma FairTick(g: Geometry, m0: seq<Byte>, s: D.Slave, h: D.Hist, p: D.Pins)
    requires D.Inv(g, m0, s, h) && P.Fair(g, s, p) && Q.Fair(g, s, p)
    ensures var n := P.Measure(s.rd, h.rl) + Q.Measure(s.wr, h.ws);
            var s', h' := D.Tick(g, s, p), D.TickLog(g, s, h, p);
            P.Measure(s'.rd, h'.rl) + Q.Measure(s'.wr, h'.ws) <= if n == 0 then 0 else n - 1
  {
    P.FairProgress(g, m0, s, h, p);
    Q.FairProgress(g, m0, s, h, p);
  }

  lemma FairStep(g: Geometry, m0: seq<Byte>, x: Sys, l: Log, c: Cycle)
    requires D.Inv(g, m0, x.s, l.h) && FairCycle(g, x, c)
    ensures var n, n' := Steps(x, l), Steps(Step(g, x, c), StepLog(g, x, l, c)); n' <= if n == 0 then 0 else n - 1
  {
    FairTick(g, m0, x.s, l.h, PinsOf(x, c));
  }

  lemma QuietStep(g: Geometry, x: Sys, l: Log, c: Cycle)
    requires !c.arValid && !c.awValid
    ensures StepLog(g, x, l, c).ars == l.ars && StepLog(g, x, l, c).aws == l.aws
  {}

  lemma {:induction false} FairRun(g: Geometry, m0: seq<Byte>, x: Sys, l: Log, cs: seq<Cycle>)
    requires Inv(g, m0, x, l) && AllFair(g, x, cs)
    ensures var (x', l') := After(g, x, l, cs);
            && l'.ars == l.ars && l'.aws == l.aws
            && Steps(x', l') <= if |cs| < Steps(x, l) then Steps(x, l) - |cs| else 0
    decreases |cs|
  {
    if cs != [] {
      StepKeeps(g, m0, x, l, cs[0]);
      FairStep(g, m0, x, l, cs[0]);
      QuietStep(g, x, l, cs[0]);
      FairRun(g, m0, Step(g, x, cs[0]), StepLog(g, x, l, cs[0]), cs[1..]);
    }
  }

  /** Nothing is outstanding: the echo queues are empty; for each ID every AR accepted is answered, in order, and all
      its beats delivered; and for each ID every AW accepted is answered, in order. */
  ghost predicate Drained(g: Geometry, x: Sys, l: Log) {
    && (forall k: Id4 :: x.rq[k] == [] && x.wq[k] == [])
    && Indexed(l) && l.upR == UpFlatten(g, l.h.rl.done)
    && (forall k: Id4 :: Filter(Map(l.h.rl.done, R.TicketOf()), R.OfId(k)) == Filter(l.h.rl.ars, R.OfId(k)))
    && (forall k: Id4 :: Filter(l.answers, Y.EntryOfId(k)) == Y.Entered(l.wy, k))
  }

  lemma ReadsDrained(g: Geometry, x: Sys, l: Log)
    requires P.Measure(x.s.rd, l.h.rl) == 0 && R.Inv(g, x.s.rd, l.h.rl)
    ensures l.h.rl.pend == [] && l.h.rl.sent == [] && l.h.rl.m == |l.h.rl.done| && l.h.rl.c == 0
    ensures forall k: Id4 :: Filter(Map(l.h.rl.done, R.TicketOf()), R.OfId(k)) == Filter(l.h.rl.ars, R.OfId(k))
  {
    var rl := l.h.rl;
    P.SumPositive(rl.pend, P.PendingCost());
    P.SumPositive(rl.sent, P.SentCost());
    AllTaken(g, rl.done, rl.m, rl.c, rl.taken);
    forall k: Id4
      ensures Filter(Map(rl.done, R.TicketOf()), R.OfId(k)) == Filter(rl.ars, R.OfId(k))
    {
      assert R.InOrder(rl, k) == Filter(Map(rl.done, R.TicketOf()), R.OfId(k)) + [] + [];
    }
  }

  lemma AllTaken(g: Geometry, done: seq<Burst>, m: nat, c: nat, taken: seq<RBeat>)
    requires Stream(g, done, m, c, taken, [])
    ensures m == |done| && c == 0
  {}

  lemma ReadQueueEmpty(x: Sys, l: Log, k: Id4)
    requires ReadsAgree(l) && R.Ordered(l.h.rl) && Y.Tracks(x.rq, l.ry)
    requires l.h.rl.pend == [] && l.h.rl.sent == [] && l.h.rl.m == |l.h.rl.done|
    ensures x.rq[k] == []
  {
    QueueIsUnfinished(l, k);
    Y.HeadIsOldest(x.rq, l.ry, k);
    assert Unfinished(l) == [];
  }

  lemma WriteQueueEmpty(x: Sys, l: Log, k: Id4)
    requires WritesAgree(l) && Y.Tracks(x.wq, l.wy) && AnsweredInOrder(l, k)
    requires |Filter(l.h.ws.taken, IsId(k))| == |Filter(l.h.wl.aws, W.AddrOfId(k))|
    ensures x.wq[k] == [] && Filter(l.answers, Y.EntryOfId(k)) == Y.Entered(l.wy, k)
  {
    EntriesCount(l.h.wl.aws, k);
    Y.HeadIsOldest(x.wq, l.wy, k);
  }

  lemma NoStepsDrained(g: Geometry, m0: seq<Byte>, x: Sys, l: Log)
    requires Inv(g, m0, x, l) && Steps(x, l) == 0
    ensures Drained(g, x, l)
  {
    ReadsDrained(g, x, l);
    Q.NothingLeft(x.s.wr, l.h.ws, l.h.wl);
    forall k: Id4
      ensures x.rq[k] == [] && x.wq[k] == [] && Filter(l.answers, Y.EntryOfId(k)) == Y.Entered(l.wy, k)
    {
      ReadQueueEmpty(x, l, k);
      WriteQueueEmpty(x, l, k);
    }
    assert l.h.rl.done[..|l.h.rl.done|] == l.h.rl.done;
  }

  lemma {:induction false} DrainsFrom(g: Geometry, m0: seq<Byte>, x: Sys, l: Log, cs: seq<Cycle>)
    requires Inv(g, m0, x, l) && AllFair(g, x, cs) && |cs| >= Steps(x, l)
    ensures var (x', l') := After(g, x, l, cs);
            Drained(g, x', l') && l'.ars == l.ars && l'.aws == l.aws
  {
    FairRun(g, m0, x, l, cs);
    AfterInv(g, m0, x, l, cs);
    NoStepsDrained(g, m0, After(g, x, l, cs).0, After(g, x, l, cs).1);
  }

  /** From any reachable state, as many fair cycles as there are steps left answer every accepted request and empty both
      modules. */
  lemma {:induction false} SystemDrains(g: Geometry, m0: seq<Byte>, run: seq<Cycle>, cs: seq<Cycle>)
    requires var (x, l) := Reached(g, m0, run); AllFair(g, x, cs) && |cs| >= Steps(x, l)
    ensures var (x, l) := Reached(g, m0, run);
            var (x', l') := After(g, x, l, cs);
            Drained(g, x', l') && l'.ars == l.ars && l'.aws == l.aws
  {
    ReachedInv(g, m0, run);
    DrainsFrom(g, m0, Reached(g, m0, run).0, Reached(g, m0, run).1, cs);
  }

  // Conservation: the same without any fairness.

  /** The issues, completions, R beats, W beats and B responses of one cycle. */
  function StepsIn(g: Geometry, s: D.Slave, p: D.Pins): nat {
    var f := D.Front(g, s, p);
    P.Issues(s, p) + P.Takes(s, p) + P.Completes(g, f, p.schedule)
    + Q.One(D.WFires(s, p)) + Q.One(D.BFires(s, p)) + Q.Completes(g, f, p.schedule)
  }

  /** The steps of a whole run. */
  function Taken(g: Geometry, x: Sys, cs: seq<Cycle>): nat
    decreases |cs|
  {
    if cs == [] then 0 else StepsIn(g, x.s, PinsOf(x, cs[0])) + Taken(g, Step(g, x, cs[0]), cs[1..])
  }

  /** The master sends no new AR or AW; nothing else is asked of it, or of DRAMSim. */
  predicate NoRequests(cs: seq<Cycle>)
    decreases |cs|
  {
    cs == [] || (!cs[0].arValid && !cs[0].awValid && NoRequests(cs[1..]))
  }

  lemma TickConserves(g: Geometry, m0: seq<Byte>, s: D.Slave, h: D.Hist, p: D.Pins)
    requires D.Inv(g, m0, s, h) && !p.reset && !D.ArFires(s, p) && !D.AwFires(s, p)
    ensures var s', h' := D.Tick(g, s, p), D.TickLog(g, s, h, p);
            P.Measure(s'.rd, h'.rl) + Q.Measure(s'.wr, h'.ws) + StepsIn(g, s, p)
            == P.Measure(s.rd, h.rl) + Q.Measure(s.wr, h.ws)
  {
    P.TickMeasure(g, m0, s, h, p);
    Q.TickMeasure(g, m0, s, h, p);
  }

  lemma StepConserves(g: Geometry, m0: seq<Byte>, x: Sys, l: Log, c: Cycle)
    requires D.Inv(g, m0, x.s, l.h) && !c.arValid && !c.awValid
    ensures Steps(Step(g, x, c), StepLog(g, x, l, c)) + StepsIn(g, x.s, PinsOf(x, c)) == Steps(x, l)
  {
    TickConserves(g, m0, x.s, l.h, PinsOf(x, c));
  }

  /** Over any run without new requests, the steps taken and the steps left add up to the steps at the start. */
  lemma {:induction false} RunConserves(g: Geometry, m0: seq<Byte>, x: Sys, l: Log, cs: seq<Cycle>)
    requires Inv(g, m0, x, l) && NoRequests(cs)
    ensures var (x', l') := After(g, x, l, cs);
            && l'.ars == l.ars && l'.aws == l.aws
            && Steps(x', l') + Taken(g, x, cs) == Steps(x, l)
    decreases |cs|
  {
    if cs != [] {
      StepKeeps(g, m0, x, l, cs[0]);
      StepConserves(g, m0, x, l, cs[0]);
      QuietStep(g, x, l, cs[0]);
      RunConserves(g, m0, Step(g, x, cs[0]), StepLog(g, x, l, cs[0]), cs[1..]);
    }
  }

  lemma {:induction false} TakenFrom(g: Geometry, m0: seq<Byte>, x: Sys, l: Log, cs: seq<Cycle>)
    requires Inv(g, m0, x, l) && NoRequests(cs) && Taken(g, x, cs) >= Steps(x, l)
    ensures var (x', l') := After(g, x, l, cs);
            Drained(g, x', l') && l'.ars == l.ars && l'.aws == l.aws
  {
    RunConserves(g, m0, x, l, cs);
    AfterInv(g, m0, x, l, cs);
    NoStepsDrained(g, m0, After(g, x, l, cs).0, After(g, x, l, cs).1);
  }

  /** Any run without new requests that takes the steps that were left answers every accepted request and empties both
      modules, however long the master and DRAMSim wait in between. */
  lemma {:induction false} TakingAllDrains(g: Geometry, m0: seq<Byte>, run: seq<Cycle>, cs: seq<Cycle>)
    requires var (x, l) := Reached(g, m0, run); NoRequests(cs) && Taken(g, x, cs) >= Steps(x, l)
    ensures var (x, l) := Reached(g, m0, run);
            var (x', l') := After(g, x, l, cs);
            Drained(g, x', l') && l'.ars == l.ars && l'.aws == l.aws
  {
    ReachedInv(g, m0, run);
    TakenFrom(g, m0, Reached(g, m0, run).0, Reached(g, m0, run).1, cs);
  }

  // Fair cycles are always possible.

  function Quiet(w: WBeat, schedule: seq<D.Completion>): Cycle {
    var u := IdIndexer.UpAddr(0, 0, 0, 0, TlState(0, 0));
    Cycle(true, false, u, false, u, true, w, true, true, schedule)
  }

  lemma {:induction false} TwoCompletions(g: Geometry, s: D.Slave, a: nat, b: nat)
    ensures a in s.rd.owed ==> P.Completes(g, s, [D.ReadDone(a), D.WriteDone(b)]) > 0
    ensures b in s.wr.owed ==> Q.Completes(g, s, [D.ReadDone(a), D.WriteDone(b)]) > 0
  {
    var cs, one := [D.ReadDone(a), D.WriteDone(b)], [D.ReadDone(a)];
    assert cs[..1] == one && one[..0] == [];
    assert D.Update(g, s, one[..0]) == s;
    assert P.Completes(g, s, one) == if a in s.rd.owed then 1 else 0;
    assert D.Update(g, s, one).wr == s.wr;
  }

  lemma SomeOwed(owed: multiset<nat>) returns (a: nat)
    ensures owed != multiset{} ==> a in owed
  {
    if owed != multiset{} {
      a :| a in owed;
    } else {
      a := 0;
    }
  }

  lemma FairCycleExists(g: Geometry, x: Sys, w: WBeat)
    ensures exists c: Cycle :: c.w == w && FairCycle(g, x, c)
  {
    var f := D.Front(g, x.s, PinsOf(x, Quiet(w, [])));
    var a := SomeOwed(f.rd.owed);
    var b := SomeOwed(f.wr.owed);
    var c := Quiet(w, [D.ReadDone(a), D.WriteDone(b)]);
    assert D.Front(g, x.s, PinsOf(x, c)) == f;
    TwoCompletions(g, f, a, b);
    assert FairCycle(g, x, c);
  }
}
