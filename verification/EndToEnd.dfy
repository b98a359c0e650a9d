/** What an upstream master sees over any run of the composed memory path. */
module EndToEnd {
  import opened Seqs
  import opened Memory
  import opened Axi
  import opened Stores
  import opened Bursts
  import opened IdIndexer
  import opened System
  import R = ReadPath
  import D = Dramsim
  import Y = UserYanker

  /** A run of reset-free cycles: moment k is the machine and its log after the first k of them. */
  function Moments(g: Geometry, m0: seq<Byte>, run: seq<Cycle>): (r: seq<(Sys, Log)>)
    ensures |r| == |run| + 1
  {
    if run == [] then [(Initial(m0), EmptyLog)]
    else
      var n := |run| - 1;
      var ms := Moments(g, m0, run[..n]);
      ms + [(Step(g, ms[n].0, run[n]), StepLog(g, ms[n].0, ms[n].1, run[n]))]
  }

  /** The machine and its log after a whole run. */
  function Reached(g: Geometry, m0: seq<Byte>, run: seq<Cycle>): (Sys, Log) {
    Moments(g, m0, run)[|run|]
  }

  /** The invariant holds after every run. */
  lemma {:induction false} ReachedInv(g: Geometry, m0: seq<Byte>, run: seq<Cycle>)
    ensures var (x, l) := Reached(g, m0, run); Inv(g, m0, x, l)
  {
    if run == [] {
      InitialInv(g, m0);
    } else {
      var front, c := run[..|run| - 1], run[|run| - 1];
      ReachedInv(g, m0, front);
      StepKeeps(g, m0, Reached(g, m0, front).0, Reached(g, m0, front).1, c);
    }
  }

  lemma InitialInv(g: Geometry, m0: seq<Byte>)
    ensures Inv(g, m0, Initial(m0), EmptyLog)
  {
    D.InitialInv(g, m0);
    Y.RunTracks([]);
    assert Map(EmptyLog.h.rl.ars, EntryOfTicket()) == [];
    forall k: Id4
      ensures AnsweredInOrder(EmptyLog, k)
    {
    }
  }

  // Reads.

  /** What section A3.4.1 of ARM IHI 0022E asks of a full-width INCR burst, with the master's own ID and state. */
  function ExpectedBurst(g: Geometry, u: UpAddr, mem: seq<Byte>): (r: seq<UpRBeat>)
    ensures |r| == u.len + 1
  {
    seq(u.len + 1, i requires 0 <= i <= u.len =>
      UpRBeat(u.id, WordAt(g, mem, Aligned(g, u.addr) + i * g.Word()), i == u.len, u.state))
  }

  /** Burst j answers the AR number from[j] out of the memory mems[j]. */
  function ExpectedStream(g: Geometry, ars: seq<UpAddr>, from: seq<nat>, mems: seq<seq<Byte>>): seq<UpRBeat>
    requires |from| == |mems| && forall j :: 0 <= j < |from| ==> from[j] < |ars|
  {
    if from == [] then []
    else
      var n := |from| - 1;
      ExpectedStream(g, ars, from[..n], mems[..n]) + ExpectedBurst(g, ars[from[n]], mems[n])
  }

  /** Each AR answered at most once, and in AR order within each ID, as section A5.3 of ARM IHI 0022E asks. */
  ghost predicate InIdOrder(ars: seq<UpAddr>, from: seq<nat>) {
    && (forall j :: 0 <= j < |from| ==> from[j] < |ars|)
    && (forall i, j :: 0 <= i < j < |from| ==> from[i] != from[j])
    && (forall i, j :: 0 <= i < j < |from| && ars[from[i]].id == ars[from[j]].id ==> from[i] < from[j])
  }

  function NumberOf(): Ticket -> int {
    (t: Ticket) => t.n
  }

  function From(done: seq<Burst>): (r: seq<nat>)
    ensures |r| == |done|
    ensures forall j :: 0 <= j < |done| ==> r[j] == done[j].t.n
  {
    Map(done, (b: Burst) => b.t.n)
  }

  function Mems(done: seq<Burst>): (r: seq<seq<Byte>>)
    ensures |r| == |done|
    ensures forall j :: 0 <= j < |done| ==> r[j] == done[j].mem
  {
    Map(done, (b: Burst) => b.mem)
  }

  lemma DoneIsAccepted(rl: R.RLog, j: nat)
    requires R.Ordered(rl) && j < |rl.done| && forall i :: 0 <= i < |rl.ars| ==> rl.ars[i].n == i
    ensures rl.done[j].t.n < |rl.ars| && rl.ars[rl.done[j].t.n] == rl.done[j].t
  {
    var t := rl.done[j].t;
    var k, ts := t.ar.id, Map(rl.done, R.TicketOf());
    assert ts[j] == t;
    FilterIn(ts, R.OfId(k), t);
    FilterIn(rl.ars, R.OfId(k), t);
    assert t in R.InOrder(rl, k);
  }

  /** Two answered reads of one ID were accepted in the order they were answered. */
  lemma DoneInOrder(rl: R.RLog, i: nat, j: nat)
    requires R.Ordered(rl) && i < j < |rl.done| && forall n :: 0 <= n < |rl.ars| ==> rl.ars[n].n == n
    requires rl.done[i].t.ar.id == rl.done[j].t.ar.id
    ensures rl.done[i].t.n < rl.done[j].t.n
  {
    var k, ts := rl.done[i].t.ar.id, Map(rl.done, R.TicketOf());
    var fs := Filter(ts, R.OfId(k));
    forall x, y | 0 <= x < y < |fs|
      ensures NumberOf()(fs[x]) < NumberOf()(fs[y])
    {
      assert fs[x] == Filter(rl.ars, R.OfId(k))[x] && fs[y] == Filter(rl.ars, R.OfId(k))[y];
      IncreasingFilter(rl.ars, R.OfId(k), NumberOf(), x, y);
    }
    assert ts[i] == rl.done[i].t && ts[j] == rl.done[j].t;
    FilterIncreasing(ts, R.OfId(k), NumberOf(), i, j);
  }

  lemma BurstIsExpected(g: Geometry, b: Burst, u: UpAddr)
    requires b.t.ar == Down(u)
    ensures UpBeats(g, b) == ExpectedBurst(g, u, b.mem)
  {
    forall i | 0 <= i <= u.len
      ensures UpBeats(g, b)[i] == ExpectedBurst(g, u, b.mem)[i]
    {
      RoundTrip(u, BeatsOf(g, b)[i]);
    }
  }

  lemma {:induction false} StreamIsExpected(g: Geometry, ars: seq<UpAddr>, done: seq<Burst>)
    requires forall j :: 0 <= j < |done| ==> done[j].t.n < |ars| && done[j].t.ar == Down(ars[done[j].t.n])
    ensures ExpectedStream(g, ars, From(done), Mems(done)) == UpFlatten(g, done)
  {
    if done != [] {
      var n := |done| - 1;
      StreamIsExpected(g, ars, done[..n]);
      assert From(done)[..n] == From(done[..n]) && Mems(done)[..n] == Mems(done[..n]);
      BurstIsExpected(g, done[n], ars[done[n].t.n]);
    }
  }

  lemma {:induction false} UpFlattenPrefix(g: Geometry, done: seq<Burst>, m: nat)
    requires m <= |done|
    ensures UpFlatten(g, done[..m]) <= UpFlatten(g, done)
    ensures m < |done| ==> UpFlatten(g, done[..m]) + UpBeats(g, done[m]) <= UpFlatten(g, done)
  {
    if m == |done| {
      assert done[..m] == done;
    } else {
      var n := |done| - 1;
      assert done[..n][..m] == done[..m];
      UpFlattenPrefix(g, done[..n], m);
    }
  }

  /** The R beats delivered upstream are a prefix of whole, uninterleaved bursts; each burst answers its own AR, with
      its own five-bit ID, state and length and `last` on its final beat; no AR is answered twice; and bursts keep AR
      order within each ID. */
  ghost predicate ReadsDelivered(g: Geometry, l: Log) {
    var from, mems := From(l.h.rl.done), Mems(l.h.rl.done);
    InIdOrder(l.ars, from) && l.upR <= ExpectedStream(g, l.ars, from, mems)
  }

  lemma ReadsOrdered(l: Log)
    requires R.Ordered(l.h.rl) && Indexed(l)
    requires forall n :: 0 <= n < |l.h.rl.ars| ==> l.h.rl.ars[n].n == n
    ensures InIdOrder(l.ars, From(l.h.rl.done))
    ensures forall j :: 0 <= j < |l.h.rl.done| ==>
      l.h.rl.done[j].t.n < |l.ars| && l.h.rl.done[j].t.ar == Down(l.ars[l.h.rl.done[j].t.n])
  {
    var rl := l.h.rl;
    forall j | 0 <= j < |rl.done|
      ensures rl.done[j].t.n < |l.ars| && rl.done[j].t.ar == Down(l.ars[rl.done[j].t.n])
    {
      DoneIsAccepted(rl, j);
    }
    forall i, j | 0 <= i < j < |rl.done| && rl.done[i].t.ar.id == rl.done[j].t.ar.id
      ensures rl.done[i].t.n < rl.done[j].t.n
    {
      DoneInOrder(rl, i, j);
    }
  }

  lemma ReadsFromInv(g: Geometry, l: Log)
    requires R.Ordered(l.h.rl) && Indexed(l) && UpStream(g, l.h.rl.done, l.h.rl.m, l.h.rl.c, l.upR)
    requires forall n :: 0 <= n < |l.h.rl.ars| ==> l.h.rl.ars[n].n == n
    ensures ReadsDelivered(g, l)
  {
    ReadsOrdered(l);
    StreamIsExpected(g, l.ars, l.h.rl.done);
    UpFlattenPrefix(g, l.h.rl.done, l.h.rl.m);
  }

  /** Over any run, whatever order DRAMSim completes the reads in. */
  lemma ReadsEndToEnd(g: Geometry, m0: seq<Byte>, run: seq<Cycle>)
    ensures ReadsDelivered(g, Reached(g, m0, run).1)
  {
    ReachedInv(g, m0, run);
    ReadsFromInv(g, Reached(g, m0, run).1);
  }

  /** Burst j is one instant of the reference memory: after every W beat accepted up to and including its AR's tick,
      so after every write whose B response the master had taken by then. */
  ghost predicate ReadIsFresh(g: Geometry, m0: seq<Byte>, l: Log, b: Burst) {
    var wl := l.h.wl;
    && b.t in l.h.rl.ars
    && b.t.beats <= b.beats <= |wl.beats| && b.mem == MemoryAfter(g, m0, wl.aws, wl.beats[..b.beats])
    && b.t.answers <= |l.answers|
    && forall i :: 0 <= i < b.t.answers ==> Covered(wl, l.answers[i].n, b.beats)
  }

  lemma FreshFromInv(g: Geometry, m0: seq<Byte>, l: Log, j: nat)
    requires R.Ordered(l.h.rl) && j < |l.h.rl.done| && SeesAnswered(l) && D.Fresh(g, m0, l.h)
    requires forall n :: 0 <= n < |l.h.rl.ars| ==> l.h.rl.ars[n].n == n
    ensures ReadIsFresh(g, m0, l, l.h.rl.done[j])
  {
    var b := l.h.rl.done[j];
    DoneIsAccepted(l.h.rl, j);
    assert D.FreshBurst(g, m0, l.h.wl, b);
    assert Sees(l, l.h.rl.ars[b.t.n]);
  }

  lemma ReadsAreFresh(g: Geometry, m0: seq<Byte>, run: seq<Cycle>, b: Burst)
    requires b in Reached(g, m0, run).1.h.rl.done
    ensures ReadIsFresh(g, m0, Reached(g, m0, run).1, b)
  {
    ReachedInv(g, m0, run);
    var l := Reached(g, m0, run).1;
    var j :| 0 <= j < |l.h.rl.done| && l.h.rl.done[j] == b;
    FreshFromInv(g, m0, l, j);
  }

  // Writes.

  function Numbers(es: seq<Y.Entry>): (r: seq<nat>)
    ensures |r| == |es|
    ensures forall j :: 0 <= j < |es| ==> r[j] == es[j].n
  {
    Map(es, (e: Y.Entry) => e.n)
  }

  function EntryNumber(): Y.Entry -> int {
    (e: Y.Entry) => e.n
  }

  lemma AnswersInOrder(l: Log, i: nat, j: nat)
    requires WritesAgree(l) && Answered(l) && i < j < |l.answers| && l.answers[i].id == l.answers[j].id
    ensures l.answers[i].n < l.answers[j].n
  {
    var k := l.answers[i].id;
    assert AnsweredInOrder(l, k);
    var fs := Filter(l.answers, Y.EntryOfId(k));
    forall x, y | 0 <= x < y < |fs|
      ensures EntryNumber()(fs[x]) < EntryNumber()(fs[y])
    {
      assert fs[x] == Y.Entered(l.wy, k)[x] && fs[y] == Y.Entered(l.wy, k)[y];
      IncreasingFilter(l.wy.entered, Y.EntryOfId(k), EntryNumber(), x, y);
    }
    FilterIncreasing(l.answers, Y.EntryOfId(k), EntryNumber(), i, j);
  }

  /** B response j answers AW number answers[j].n, with that AW's own five-bit ID and state; no AW is answered twice
      and AW order is kept within each ID; and every W beat of an answered burst is already part of the memory. */
  ghost predicate WritesAnswered(g: Geometry, m0: seq<Byte>, mem: seq<Byte>, l: Log) {
    var to, wl := Numbers(l.answers), l.h.wl;
    && InIdOrder(l.aws, to) && |l.upB| == |to|
    && wl.aws == Map(l.aws, (u: UpAddr) => Down(u)) && mem == MemoryAfter(g, m0, wl.aws, wl.beats)
    && forall j :: 0 <= j < |to| ==>
         && l.upB[j] == UpB(l.aws[to[j]].id, l.aws[to[j]].state)
         && Beats(wl.aws[..to[j] + 1]) <= |wl.beats|
  }

  lemma AnswerIsOwn(l: Log, j: nat)
    requires Answered(l) && Indexed(l) && j < |l.answers|
    ensures var n := l.answers[j].n;
            && n < |l.aws| && l.answers[j].id == Down(l.aws[n]).id
            && l.upB[j] == UpB(l.aws[n].id, l.aws[n].state) && Beats(l.h.wl.aws[..n + 1]) <= |l.h.wl.beats|
  {
    var n := l.answers[j].n;
    assert Covered(l.h.wl, n, |l.h.wl.beats|);
    assert l.h.wl.aws[n] == Down(l.aws[n]);
    RoundTrip(l.aws[n], RBeat(Down(l.aws[n]).id, [], true));
  }

  lemma AnswersOrdered(l: Log)
    requires WritesAgree(l) && Answered(l)
    requires forall j :: 0 <= j < |l.answers| ==>
               l.answers[j].n < |l.aws| && l.answers[j].id == Down(l.aws[l.answers[j].n]).id
    ensures InIdOrder(l.aws, Numbers(l.answers))
  {
    forall i, j | 0 <= i < j < |l.answers| && l.answers[i].id == l.answers[j].id
      ensures l.answers[i].n < l.answers[j].n
    {
      AnswersInOrder(l, i, j);
    }
  }

  lemma WritesFromInv(g: Geometry, m0: seq<Byte>, mem: seq<Byte>, l: Log)
    requires WritesAgree(l) && Answered(l) && Indexed(l) && mem == MemoryAfter(g, m0, l.h.wl.aws, l.h.wl.beats)
    ensures WritesAnswered(g, m0, mem, l)
  {
    forall j | 0 <= j < |l.answers|
      ensures var n := l.answers[j].n;
              && n < |l.aws| && l.answers[j].id == Down(l.aws[n]).id
              && l.upB[j] == UpB(l.aws[n].id, l.aws[n].state) && Beats(l.h.wl.aws[..n + 1]) <= |l.h.wl.beats|
    {
      AnswerIsOwn(l, j);
    }
    AnswersOrdered(l);
  }

  /** Over any run, although DRAMSim may complete the writes of one ID in any order. */
  lemma WritesEndToEnd(g: Geometry, m0: seq<Byte>, run: seq<Cycle>)
    ensures var (x, l) := Reached(g, m0, run); WritesAnswered(g, m0, x.s.mem, l)
  {
    ReachedInv(g, m0, run);
    var (x, l) := Reached(g, m0, run);
    WritesFromInv(g, m0, x.s.mem, l);
  }

  /** Neither "Q must be ready" assertion of AXI4UserYanker can fire in the composed system. */
  lemma AssertionsNeverFire(g: Geometry, m0: seq<Byte>, run: seq<Cycle>, c: Cycle)
    ensures var x := Reached(g, m0, run).0;
            Y.AssertionHolds(x.rq, ReadSignals(x, c)) && Y.AssertionHolds(x.wq, WriteSignals(x, c))
  {
    ReachedInv(g, m0, run);
    var (x, l) := Reached(g, m0, run);
    StepTracks(g, m0, x, l, c);
  }
}
