/** The one instant at which a read burst of the composed system sees the memory. */
module Instants {
  import opened Seqs
  import opened Memory
  import opened Bursts
  import opened System
  import opened EndToEnd
  import R = ReadPath
  import D = Dramsim

  /** Callbacks answer only reads that were sent, all from one memory. */
  ghost predicate Answers(s: D.Slave, h: D.Hist, h': D.Hist) {
    && h.rl.done <= h'.rl.done
    && (forall t :: t in h'.rl.sent ==> t in h.rl.sent)
    && forall j :: |h.rl.done| <= j < |h'.rl.done| ==> h'.rl.done[j].mem == s.mem && h'.rl.done[j].t in h.rl.sent
  }

  lemma {:induction false} UpdateAnswers(g: Geometry, s: D.Slave, h: D.Hist, cs: seq<D.Completion>)
    ensures D.Update(g, s, cs).mem == s.mem && Answers(s, h, D.UpdateLog(g, s, h, cs))
  {
    if cs != [] {
      UpdateAnswers(g, s, h, cs[..|cs| - 1]);
    }
  }

  lemma AcceptedOnce(l: R.RLog, t: Ticket)
    requires R.Ordered(l) && (t in l.sent || t in l.pend)
    ensures t in l.ars
  {
    var k := t.ar.id;
    FilterIn(l.sent, R.OfId(k), t);
    FilterIn(l.pend, R.OfId(k), t);
    FilterIn(l.ars, R.OfId(k), t);
    assert t in R.InOrder(l, k);
  }

  lemma IssuedBefore(r: R.Reads, l: R.RLog, t: Ticket)
    requires |l.pend| == |r.pending| && t in R.IssueLog(r, l).sent
    ensures t in l.sent || t in l.pend
  {}

  /** What has been sent by the middle of a tick was accepted in an earlier one. */
  lemma SentEarlier(s: D.Slave, p: D.Pins, h: D.Hist, t: Ticket)
    requires |h.rl.pend| == |s.rd.pending| && R.Ordered(h.rl) && t in D.FrontLog(s, p, h).rl.sent
    ensures t in h.rl.ars
  {
    if p.accept {
      IssuedBefore(s.rd, h.rl, t);
    }
    AcceptedOnce(h.rl, t);
  }

  /** No beat of burst j has been taken. */
  predicate NotBegun(l: R.RLog, j: nat) {
    l.m < j || (l.m == j && l.c == 0)
  }

  /** The bursts that a tick answers hold the memory at its end, belong to ARs of earlier ticks, and are not begun. */
  ghost predicate ReadInTick(g: Geometry, s': D.Slave, h: D.Hist, h': D.Hist) {
    && h.rl.done <= h'.rl.done
    && forall j :: |h.rl.done| <= j < |h'.rl.done| ==>
         h'.rl.done[j].mem == s'.mem && h'.rl.done[j].t in h.rl.ars && NotBegun(h'.rl, j)
  }

  lemma FrontBegins(g: Geometry, s: D.Slave, p: D.Pins, h: D.Hist)
    requires R.Inv(g, s.rd, h.rl)
    ensures var l := D.FrontLog(s, p, h).rl; l.done == h.rl.done && NotBegun(l, |l.done|)
  {
    var wl, ws := D.WLogFront(s, p, h.wl), D.WSideFront(s, p, h.ws);
    D.ReadFrontKeeps(g, s, p, h.rl, |wl.beats|, |ws.taken|);
  }

  lemma TickAnswers(g: Geometry, s: D.Slave, h: D.Hist, p: D.Pins)
    requires R.Inv(g, s.rd, h.rl) && !p.reset
    ensures ReadInTick(g, D.Tick(g, s, p), h, D.TickLog(g, s, h, p))
  {
    var f, fl := D.Front(g, s, p), D.FrontLog(s, p, h);
    FrontBegins(g, s, p, h);
    UpdateAnswers(g, f, fl, p.schedule);
    D.UpdateLogFrame(g, f, fl, p.schedule);
    AnsweredInUpdate(g, s, h, p, f, D.UpdateLog(g, f, fl, p.schedule));
  }

  lemma AnsweredInUpdate(g: Geometry, s: D.Slave, h: D.Hist, p: D.Pins, f: D.Slave, h': D.Hist)
    requires |h.rl.pend| == |s.rd.pending| && R.Ordered(h.rl)
    requires var fl := D.FrontLog(s, p, h);
             && fl.rl.done == h.rl.done && NotBegun(fl.rl, |h.rl.done|)
             && Answers(f, fl, h') && h'.rl.m == fl.rl.m && h'.rl.c == fl.rl.c
    ensures ReadInTick(g, f, h, h')
  {
    forall j | |h.rl.done| <= j < |h'.rl.done|
      ensures h'.rl.done[j].t in h.rl.ars
    {
      SentEarlier(s, p, h, h'.rl.done[j].t);
    }
  }

  // Whole runs.

  /** The read burst `b`, delivered after `ahead` other beats, was read from the memory of the moment `now`: its AR had
      been accepted by the moment before, and no beat of it had been delivered. */
  ghost predicate ReadNow(before: (Sys, Log), now: (Sys, Log), b: Burst, ahead: nat) {
    b.t in before.1.h.rl.ars && b.mem == now.0.s.mem && |now.1.upR| <= ahead
  }

  /** Burst j of a run was read at the end of cycle k. */
  ghost predicate ReadInCycle(g: Geometry, ms: seq<(Sys, Log)>, done: seq<Burst>, j: nat, k: nat)
    requires j < |done| && k + 1 < |ms|
  {
    ReadNow(ms[k], ms[k + 1], done[j], |UpFlatten(g, done[..j])|)
  }

  lemma {:induction false} NothingDelivered(g: Geometry, l: Log, j: nat)
    requires UpStream(g, l.h.rl.done, l.h.rl.m, l.h.rl.c, l.upR) && j <= |l.h.rl.done| && NotBegun(l.h.rl, j)
    ensures |l.upR| <= |UpFlatten(g, l.h.rl.done[..j])|
  {
    var done, m := l.h.rl.done, l.h.rl.m;
    assert done[..j][..m] == done[..m];
    UpFlattenPrefix(g, done[..j], m);
  }

  lemma {:induction false} StepReads(g: Geometry, m0: seq<Byte>, x: Sys, l: Log, c: Cycle, j: nat)
    requires Inv(g, m0, x, l)
    ensures var l' := StepLog(g, x, l, c);
            && l.h.rl.done <= l'.h.rl.done
            && (|l.h.rl.done| <= j < |l'.h.rl.done| ==>
                  ReadNow((x, l), (Step(g, x, c), l'), l'.h.rl.done[j], |UpFlatten(g, l'.h.rl.done[..j])|))
  {
    var l' := StepLog(g, x, l, c);
    TickAnswers(g, x.s, l.h, PinsOf(x, c));
    if |l.h.rl.done| <= j < |l'.h.rl.done| {
      StepDelivers(g, m0, x, l, c);
      NothingDelivered(g, l', j);
    }
  }

  lemma StepDelivers(g: Geometry, m0: seq<Byte>, x: Sys, l: Log, c: Cycle)
    requires Inv(g, m0, x, l)
    ensures var l' := StepLog(g, x, l, c); UpStream(g, l'.h.rl.done, l'.h.rl.m, l'.h.rl.c, l'.upR)
  {
    StepKeeps(g, m0, x, l, c);
  }

  lemma EarlierCycle(g: Geometry, ms: seq<(Sys, Log)>, ms': seq<(Sys, Log)>,
                                        done: seq<Burst>, done': seq<Burst>, j: nat, k: nat)
    requires ms <= ms' && done <= done' && j < |done| && k + 1 < |ms| && ReadInCycle(g, ms, done, j, k)
    ensures ReadInCycle(g, ms', done', j, k)
  {
    assert done'[..j] == done[..j];
  }

  ghost predicate ReadOnce(g: Geometry, ms: seq<(Sys, Log)>, done: seq<Burst>, j: nat)
    requires j < |done|
  {
    exists k :: 0 <= k < |ms| - 1 && ReadInCycle(g, ms, done, j, k)
  }

  lemma {:induction false} NextMoment(g: Geometry, ms: seq<(Sys, Log)>, y: (Sys, Log), j: nat)
    requires ms != []
    requires var (l, l') := (ms[|ms| - 1].1, y.1);
             && l.h.rl.done <= l'.h.rl.done && j < |l'.h.rl.done|
             && (j < |l.h.rl.done| ==> ReadOnce(g, ms, l.h.rl.done, j))
             && (|l.h.rl.done| <= j ==>
                   ReadNow(ms[|ms| - 1], y, l'.h.rl.done[j], |UpFlatten(g, l'.h.rl.done[..j])|))
    ensures ReadOnce(g, ms + [y], y.1.h.rl.done, j)
  {
    var n, done := |ms| - 1, ms[|ms| - 1].1.h.rl.done;
    if j < |done| {
      var k :| 0 <= k < n && ReadInCycle(g, ms, done, j, k);
      EarlierCycle(g, ms, ms + [y], done, y.1.h.rl.done, j, k);
    } else {
      assert ReadInCycle(g, ms + [y], y.1.h.rl.done, j, n);
    }
  }

  /** The moment that the last cycle of a run adds, and what that cycle reads. */
  lemma LastMoment(g: Geometry, m0: seq<Byte>, run: seq<Cycle>, j: nat) returns (y: (Sys, Log))
    requires run != []
    ensures var ms := Moments(g, m0, run[..|run| - 1]);
            var l, done := ms[|run| - 1].1, y.1.h.rl.done;
            && Moments(g, m0, run) == ms + [y]
            && l.h.rl.done <= done
            && (|l.h.rl.done| <= j < |done| ==> ReadNow(ms[|run| - 1], y, done[j], |UpFlatten(g, done[..j])|))
  {
    var n := |run| - 1;
    var (x, l) := Moments(g, m0, run[..n])[n];
    ReachedInv(g, m0, run[..n]);
    StepReads(g, m0, x, l, run[n], j);
    y := (Step(g, x, run[n]), StepLog(g, x, l, run[n]));
  }

  /** Over any run, every answered burst was read at the end of one cycle, after the cycle of its AR and before its
      first beat was delivered. */
  lemma {:induction false} ReadsAtOneInstant(g: Geometry, m0: seq<Byte>, run: seq<Cycle>, j: nat)
    requires j < |Reached(g, m0, run).1.h.rl.done|
    ensures ReadOnce(g, Moments(g, m0, run), Reached(g, m0, run).1.h.rl.done, j)
    decreases |run|
  {
    if run != [] {
      var n := |run| - 1;
      var y := LastMoment(g, m0, run, j);
      var ms := Moments(g, m0, run[..n]);
      if j < |ms[n].1.h.rl.done| {
        ReadsAtOneInstant(g, m0, run[..n], j);
      }
      NextMoment(g, ms, y, j);
    }
  }
}
