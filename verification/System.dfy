/** AXI4IdIndexer, AXI4UserYanker and mm_dramsim2_t as one machine, clocked together. */
module System {
  import opened Seqs
  import opened Memory
  import opened Axi
  import opened Stores
  import opened Bursts
  import opened IdIndexer
  import R = ReadPath
  import W = WritePath
  import D = Dramsim
  import Y = UserYanker

  datatype Sys = Sys(rq: Y.Queues, wq: Y.Queues, s: D.Slave)

  /** What the upstream master, DRAMSim's readiness and DRAMSim's completions do in one cycle. */
  datatype Cycle = Cycle(
    accept: bool, arValid: bool, ar: UpAddr, awValid: bool, aw: UpAddr,
    wValid: bool, w: WBeat, rReady: bool, bReady: bool, schedule: seq<D.Completion>)

  function ReadSignals(x: Sys, c: Cycle): Y.Signals {
    var r := x.s.rd.resp;
    var head := if r == [] then RBeat(0, [], false) else r[0];
    Y.Signals(c.arValid, Down(c.ar).id, Down(c.ar).echo, c.accept, r != [], head.id, head.last, c.rReady)
  }

  function WriteSignals(x: Sys, c: Cycle): Y.Signals {
    var b := x.s.wr.resp;
    Y.Signals(c.awValid, Down(c.aw).id, Down(c.aw).echo, c.accept && !x.s.wr.store.inflight,
              b != [], if b == [] then 0 else b[0], true, c.bReady)
  }

  /** The slave's pins: valid is gated by the yanker's room, everything else passes through. */
  function PinsOf(x: Sys, c: Cycle): D.Pins {
    D.Pins(false, c.accept,
           Y.OutValid(x.rq, ReadSignals(x, c)), Down(c.ar), Y.OutValid(x.wq, WriteSignals(x, c)), Down(c.aw),
           c.wValid, c.w, c.rReady, c.bReady, c.schedule)
  }

  function Step(g: Geometry, x: Sys, c: Cycle): Sys {
    Sys(Y.Next(x.rq, ReadSignals(x, c)), Y.Next(x.wq, WriteSignals(x, c)), D.Tick(g, x.s, PinsOf(x, c)))
  }

  function Initial(mem: seq<Byte>): Sys {
    Sys(Y.QueuesAfter([]), Y.QueuesAfter([]), D.Initial(mem))
  }

  // The log of a run: the slave's, the yanker's, and what crossed the upstream port.

  /** `answers[j]` is the AW that the j-th upstream B response answers. */
  datatype Log = Log(h: D.Hist, ry: Y.Log, wy: Y.Log,
                     ars: seq<UpAddr>, aws: seq<UpAddr>, upR: seq<UpRBeat>, upB: seq<UpB>, answers: seq<Y.Entry>)

  function OldestEntry(l: Y.Log, k: Id4): Y.Entry {
    if Y.Owed(l, k) then Y.Entered(l, k)[Y.Left(l, k)] else Y.Entry(k, Echo(TlState(0, 0), false), 0)
  }

  function StepLog(g: Geometry, x: Sys, l: Log, c: Cycle): Log {
    var p, rs, ws := PinsOf(x, c), ReadSignals(x, c), WriteSignals(x, c);
    Log(D.TickLog(g, x.s, l.h, p), Y.NextLog(x.rq, rs, l.ry), Y.NextLog(x.wq, ws, l.wy),
        if Y.Enters(x.rq, rs) then l.ars + [c.ar] else l.ars,
        if Y.Enters(x.wq, ws) then l.aws + [c.aw] else l.aws,
        if D.RFires(x.s, p) then l.upR + [UpR(x.s.rd.resp[0], Y.HeadEcho(x.rq, rs.respId))] else l.upR,
        if D.BFires(x.s, p) then l.upB + [UpBResp(ws.respId, Y.HeadEcho(x.wq, ws.respId))] else l.upB,
        if D.BFires(x.s, p) then l.answers + [OldestEntry(l.wy, ws.respId)] else l.answers)
  }

  const EmptyLog := Log(D.EmptyHist, Y.Log([], []), Y.Log([], []), [], [], [], [], [])

  // Linking the yanker's log to the slave's.

  function EntryOfTicket(): Ticket -> Y.Entry {
    (t: Ticket) => Y.Entry(t.ar.id, t.ar.echo, t.n)
  }

  function IdOfBurst(): Burst -> Id4 {
    (b: Burst) => b.t.ar.id
  }

  function EntriesOf(aws: seq<Addr>): (r: seq<Y.Entry>)
    ensures |r| == |aws|
  {
    seq(|aws|, i requires 0 <= i < |aws| => Y.Entry(aws[i].id, aws[i].echo, i))
  }

  /** Both modules agree on which ARs went through and which bursts are over. */
  ghost predicate ReadsAgree(l: Log) {
    && l.ry.entered == Map(l.h.rl.ars, EntryOfTicket())
    && l.h.rl.m <= |l.h.rl.done|
    && l.ry.left == Map(l.h.rl.done[..l.h.rl.m], IdOfBurst())
  }

  ghost predicate WritesAgree(l: Log) {
    l.wy.entered == EntriesOf(l.h.wl.aws) && l.wy.left == l.h.ws.taken
  }

  /** The slave's requests are the indexed upstream ones. */
  ghost predicate Indexed(l: Log) {
    && |l.ars| == |l.h.rl.ars| && (forall i :: 0 <= i < |l.ars| ==> l.h.rl.ars[i].ar == Down(l.ars[i]))
    && |l.aws| == |l.h.wl.aws| && (forall i :: 0 <= i < |l.aws| ==> l.h.wl.aws[i] == Down(l.aws[i]))
  }

  function UpBeats(g: Geometry, b: Burst): (r: seq<UpRBeat>)
    ensures |r| == b.t.ar.Beats()
  {
    Map(BeatsOf(g, b), (x: RBeat) => UpR(x, b.t.ar.echo))
  }

  function UpFlatten(g: Geometry, bs: seq<Burst>): seq<UpRBeat> {
    if bs == [] then [] else UpFlatten(g, bs[..|bs| - 1]) + UpBeats(g, bs[|bs| - 1])
  }

  /** m whole bursts and c beats of the next, every beat with its own AR's echo. */
  ghost predicate UpStream(g: Geometry, done: seq<Burst>, m: nat, c: nat, upR: seq<UpRBeat>) {
    && m <= |done|
    && (if m < |done| then c < done[m].t.ar.Beats() else c == 0)
    && upR == UpFlatten(g, done[..m]) + if m < |done| then UpBeats(g, done[m])[..c] else []
  }

  ghost predicate Covered(l: WLog, n: nat, beats: nat) {
    n < l.finished <= |l.aws| && Beats(l.aws[..n + 1]) <= beats
  }

  /** For each ID, the AWs answered are the first ones of that ID, in AW order. */
  ghost predicate AnsweredInOrder(l: Log, k: Id4) {
    && Y.Left(l.wy, k) <= |Y.Entered(l.wy, k)|
    && Filter(l.answers, Y.EntryOfId(k)) == Y.Entered(l.wy, k)[..Y.Left(l.wy, k)]
  }

  /** Upstream B responses answer finished bursts, in AW order within each ID, with the burst's own echo. */
  ghost predicate Answered(l: Log) {
    && |l.upB| == |l.answers| == |l.h.ws.taken|
    && (forall k: Id4 :: AnsweredInOrder(l, k))
    && (forall j :: 0 <= j < |l.answers| ==>
         && Covered(l.h.wl, l.answers[j].n, |l.h.wl.beats|)
         && l.upB[j] == UpBResp(l.answers[j].id, l.answers[j].echo)
         && l.answers[j] == EntriesOf(l.h.wl.aws)[l.answers[j].n])
  }

  /** An AR's W-beat count covers every write whose B had been taken by then. */
  ghost predicate Sees(l: Log, t: Ticket) {
    t.answers <= |l.answers| && forall j :: 0 <= j < t.answers ==> Covered(l.h.wl, l.answers[j].n, t.beats)
  }

  ghost predicate SeesAnswered(l: Log) {
    forall i :: 0 <= i < |l.h.rl.ars| ==> Sees(l, l.h.rl.ars[i])
  }

  ghost predicate Inv(g: Geometry, m0: seq<Byte>, x: Sys, l: Log) {
    && D.Inv(g, m0, x.s, l.h)
    && Y.Tracks(x.rq, l.ry) && Y.Tracks(x.wq, l.wy)
    && ReadsAgree(l) && WritesAgree(l) && Indexed(l)
    && UpStream(g, l.h.rl.done, l.h.rl.m, l.h.rl.c, l.upR)
    && Answered(l)
    && SeesAnswered(l)
  }

  // The slave keeps the yanker's contract.

  lemma TicketsAhead(rl: R.RLog, k: Id4)
    requires R.Ordered(rl) && rl.m <= |rl.done|
    ensures var ts, d := Filter(rl.ars, R.OfId(k)), Map(rl.done[..rl.m], R.TicketOf());
            && |Filter(d, R.OfId(k))| <= |ts|
            && (rl.m < |rl.done| && k == rl.done[rl.m].t.ar.id ==>
                 |Filter(d, R.OfId(k))| < |ts| && ts[|Filter(d, R.OfId(k))|] == rl.done[rl.m].t)
  {
    var all := Map(rl.done, R.TicketOf());
    var m := rl.m;
    assert all[..m] == Map(rl.done[..m], R.TicketOf());
    FilterPrefix(all, m, R.OfId(k));
    if m < |rl.done| {
      assert all[..m + 1] == all[..m] + [rl.done[m].t];
      FilterPrefix(all, m + 1, R.OfId(k));
      FilterSnoc(all[..m], rl.done[m].t, R.OfId(k));
    }
  }

  lemma ReadEntries(l: Log, k: Id4)
    requires ReadsAgree(l)
    ensures Y.Entered(l.ry, k) == Map(Filter(l.h.rl.ars, R.OfId(k)), EntryOfTicket())
    ensures Y.Left(l.ry, k) == |Filter(Map(l.h.rl.done[..l.h.rl.m], R.TicketOf()), R.OfId(k))|
  {
    FilterMap(l.h.rl.ars, EntryOfTicket(), Y.EntryOfId(k), R.OfId(k));
    var d := l.h.rl.done[..l.h.rl.m];
    FilterMap(d, IdOfBurst(), IsId(k), (b: Burst) => b.t.ar.id == k);
    FilterMap(d, R.TicketOf(), R.OfId(k), (b: Burst) => b.t.ar.id == k);
  }

  ghost predicate ReadHead(g: Geometry, x: Sys, l: Log)
    requires x.s.rd.resp != []
  {
    var rl, beat := l.h.rl, x.s.rd.resp[0];
    && rl.m < |rl.done| && rl.c < rl.done[rl.m].t.ar.Beats() && beat == BeatsOf(g, rl.done[rl.m])[rl.c]
    && Y.Owed(l.ry, beat.id) && Y.HeadEcho(x.rq, beat.id) == rl.done[rl.m].t.ar.echo
  }

  /** A beat at the slave's R port belongs to the oldest unfinished AR of its ID, whose echo the yanker shows. */
  lemma ReadOwed(g: Geometry, m0: seq<Byte>, x: Sys, l: Log)
    requires Inv(g, m0, x, l) && x.s.rd.resp != []
    ensures ReadHead(g, x, l)
  {
    var rl, k := l.h.rl, x.s.rd.resp[0].id;
    StreamHead(g, rl.done, rl.m, rl.c, rl.taken, x.s.rd.resp);
    TicketsAhead(rl, k);
    ReadEntries(l, k);
    Y.HeadIsOldest(x.rq, l.ry, k);
  }

  lemma {:induction false} EntriesCount(aws: seq<Addr>, k: Id4)
    ensures |Filter(EntriesOf(aws), Y.EntryOfId(k))| == |Filter(aws, W.AddrOfId(k))|
  {
    if aws != [] {
      var front := aws[..|aws| - 1];
      EntriesCount(front, k);
      assert EntriesOf(aws)[..|aws| - 1] == EntriesOf(front);
    }
  }

  /** The first entries of an ID, as many as it has finished bursts, are finished bursts. */
  lemma FinishedFirst(wl: WLog, k: Id4, i: nat)
    requires wl.finished <= |wl.aws| && i < |Filter(wl.aws[..wl.finished], W.AddrOfId(k))|
    ensures var es := Filter(EntriesOf(wl.aws), Y.EntryOfId(k));
            i < |es| && es[i].n < wl.finished && es[i].id == k && es[i] == EntriesOf(wl.aws)[es[i].n]
  {
    var f := wl.finished;
    var es, p := EntriesOf(wl.aws), Y.EntryOfId(k);
    assert es[..f] == EntriesOf(wl.aws[..f]);
    EntriesCount(wl.aws[..f], k);
    FilterPrefix(es, f, p);
    var e := Filter(es[..f], p)[i];
    assert e in Filter(es[..f], p);
    FilterIn(es[..f], p, e);
  }

  ghost predicate WriteHead(x: Sys, l: Log)
    requires x.s.wr.resp != []
  {
    var k := x.s.wr.resp[0];
    var e := OldestEntry(l.wy, k);
    && Y.Owed(l.wy, k) && e.id == k && Y.HeadEcho(x.wq, k) == e.echo
    && e.n < l.h.wl.finished <= |l.h.wl.aws| && e == EntriesOf(l.h.wl.aws)[e.n]
  }

  /** A queued B means a finished burst of its ID whose B has not been taken. */
  lemma {:induction false} QueuedIsFinished(ws: W.WSide, resp: seq<Id4>, finished: seq<Addr>)
    requires resp != [] && ws.answered == ws.taken + resp && W.Counts(ws, finished)
    ensures |Filter(ws.taken, IsId(resp[0]))| < |Filter(finished, W.AddrOfId(resp[0]))|
  {
    var k := resp[0];
    assert ws.answered[..|ws.taken| + 1] == ws.taken + [k];
    FilterSnoc(ws.taken, k, IsId(k));
    FilterPrefix(ws.answered, |ws.taken| + 1, IsId(k));
  }

  lemma OldestIsFinished(x: Sys, l: Log)
    requires WritesAgree(l) && Y.Tracks(x.wq, l.wy) && x.s.wr.resp != []
    requires W.Inv(x.s.wr, l.h.ws, l.h.wl)
    ensures WriteHead(x, l)
  {
    var k := x.s.wr.resp[0];
    QueuedIsFinished(l.h.ws, x.s.wr.resp, l.h.wl.aws[..l.h.wl.finished]);
    FinishedFirst(l.h.wl, k, Y.Left(l.wy, k));
    Y.HeadIsOldest(x.wq, l.wy, k);
  }

  /** A B at the slave's port answers the oldest unanswered AW of its ID, and that burst is finished. */
  lemma WriteOwed(g: Geometry, m0: seq<Byte>, x: Sys, l: Log)
    requires Inv(g, m0, x, l) && x.s.wr.resp != []
    ensures WriteHead(x, l)
  {
    OldestIsFinished(x, l);
  }

  // One cycle.

  lemma {:induction false} FlattenSnocUp(g: Geometry, bs: seq<Burst>, b: Burst)
    ensures UpFlatten(g, bs + [b]) == UpFlatten(g, bs) + UpBeats(g, b)
  {
    assert (bs + [b])[..|bs|] == bs;
  }

  lemma UpStreamGrows(g: Geometry, done: seq<Burst>, m: nat, c: nat, upR: seq<UpRBeat>, done': seq<Burst>)
    requires UpStream(g, done, m, c, upR) && done <= done'
    ensures UpStream(g, done', m, c, upR)
  {
    assert done'[..m] == done[..m];
  }

  lemma UpStreamPop(g: Geometry, done: seq<Burst>, m: nat, c: nat, upR: seq<UpRBeat>)
    requires UpStream(g, done, m, c, upR) && m < |done|
    ensures var up := upR + [UpR(BeatsOf(g, done[m])[c], done[m].t.ar.echo)];
            if c + 1 == done[m].t.ar.Beats() then UpStream(g, done, m + 1, 0, up) else UpStream(g, done, m, c + 1, up)
  {
    var us := UpBeats(g, done[m]);
    assert us[..c] + [us[c]] == us[..c + 1];
    if c + 1 == |us| {
      assert us[..c + 1] == us;
      assert done[..m + 1] == done[..m] + [done[m]];
      FlattenSnocUp(g, done[..m], done[m]);
    }
  }

  /** What one cycle does to the log, with the slave's tick reduced to its handshakes. */
  ghost predicate Moves(x: Sys, c: Cycle, l: Log, l': Log) {
    var p, rs, ws := PinsOf(x, c), ReadSignals(x, c), WriteSignals(x, c);
    && D.Handshakes(x.s, p, l.h, l'.h)
    && l'.ry == Y.NextLog(x.rq, rs, l.ry) && l'.wy == Y.NextLog(x.wq, ws, l.wy)
    && l'.ars == l.ars + (if Y.Enters(x.rq, rs) then [c.ar] else [])
    && l'.aws == l.aws + (if Y.Enters(x.wq, ws) then [c.aw] else [])
    && l'.upR == l.upR + (if D.RFires(x.s, p) then [UpR(x.s.rd.resp[0], Y.HeadEcho(x.rq, rs.respId))] else [])
    && l'.upB == l.upB + (if D.BFires(x.s, p) then [UpBResp(ws.respId, Y.HeadEcho(x.wq, ws.respId))] else [])
    && l'.answers == l.answers + (if D.BFires(x.s, p) then [OldestEntry(l.wy, ws.respId)] else [])
  }

  lemma StepMoves(g: Geometry, x: Sys, l: Log, c: Cycle)
    requires |l.h.rl.pend| == |x.s.rd.pending|
    ensures Moves(x, c, l, StepLog(g, x, l, c))
  {
    D.TickLogFrame(g, x.s, l.h, PinsOf(x, c));
  }

  lemma MoveUpStream(g: Geometry, x: Sys, c: Cycle, l: Log, l': Log)
    requires Moves(x, c, l, l') && (x.s.rd.resp != [] ==> ReadHead(g, x, l))
    requires UpStream(g, l.h.rl.done, l.h.rl.m, l.h.rl.c, l.upR)
    ensures UpStream(g, l'.h.rl.done, l'.h.rl.m, l'.h.rl.c, l'.upR)
  {
    var rl, rl' := l.h.rl, l'.h.rl;
    if D.RFires(x.s, PinsOf(x, c)) {
      UpStreamPop(g, rl.done, rl.m, rl.c, l.upR);
    }
    UpStreamGrows(g, rl.done, rl'.m, rl'.c, l'.upR, rl'.done);
  }

  lemma MoveReadsAgree(g: Geometry, x: Sys, c: Cycle, l: Log, l': Log)
    requires Moves(x, c, l, l') && (x.s.rd.resp != [] ==> ReadHead(g, x, l))
    requires ReadsAgree(l)
    ensures ReadsAgree(l')
  {
    var p, rl, rl' := PinsOf(x, c), l.h.rl, l'.h.rl;
    if D.ArFires(x.s, p) {
      MapSnoc(rl.ars, Ticket(p.ar, |rl.ars|, |l'.h.wl.beats|, |l'.h.ws.taken|), EntryOfTicket());
    }
    assert rl'.done[..rl.m] == rl.done[..rl.m];
    if Y.Leaves(ReadSignals(x, c)) {
      assert rl'.done[..rl.m + 1] == rl.done[..rl.m] + [rl.done[rl.m]];
      MapSnoc(rl.done[..rl.m], rl.done[rl.m], IdOfBurst());
    }
  }

  lemma MoveWritesAgree(x: Sys, c: Cycle, l: Log, l': Log)
    requires Moves(x, c, l, l') && WritesAgree(l) && Indexed(l)
    ensures WritesAgree(l') && Indexed(l')
  {
    var p := PinsOf(x, c);
    if D.AwFires(x.s, p) {
      assert EntriesOf(l.h.wl.aws + [p.aw])
          == EntriesOf(l.h.wl.aws) + [Y.Entry(p.aw.id, p.aw.echo, |l.h.wl.aws|)];
    }
  }

  lemma StepTracks(g: Geometry, m0: seq<Byte>, x: Sys, l: Log, c: Cycle)
    requires Inv(g, m0, x, l)
    ensures Y.Tracks(Step(g, x, c).rq, Y.NextLog(x.rq, ReadSignals(x, c), l.ry))
    ensures Y.Tracks(Step(g, x, c).wq, Y.NextLog(x.wq, WriteSignals(x, c), l.wy))
    ensures Y.AssertionHolds(x.rq, ReadSignals(x, c)) && Y.AssertionHolds(x.wq, WriteSignals(x, c))
  {
    var rs, ws := ReadSignals(x, c), WriteSignals(x, c);
    if rs.respValid {
      ReadOwed(g, m0, x, l);
      Y.HeadIsOldest(x.rq, l.ry, rs.respId);
    }
    if ws.respValid {
      WriteOwed(g, m0, x, l);
      Y.HeadIsOldest(x.wq, l.wy, ws.respId);
    }
    Y.NextTracks(x.rq, rs, l.ry);
    Y.NextTracks(x.wq, ws, l.wy);
  }

  lemma CoveredGrows(s: D.Slave, p: D.Pins, wl: WLog, n: nat, beats: nat)
    requires Covered(wl, n, beats) && Counted(s.wr.store, wl)
    ensures Covered(D.WLogFront(s, p, wl), n, beats)
    ensures Covered(D.WLogFront(s, p, wl), n, |D.WLogFront(s, p, wl).beats|) <== beats <= |wl.beats|
  {
    assert D.WLogFront(s, p, wl).aws[..n + 1] == wl.aws[..n + 1];
  }

  /** A finished burst has had all its W beats. */
  lemma FinishedCovered(st: Store, wl: WLog, n: nat)
    requires Counted(st, wl) && n < wl.finished
    ensures Covered(wl, n, |wl.beats|)
  {
    var aws := wl.aws[..wl.finished];
    assert aws == wl.aws[..n + 1] + wl.aws[n + 1..wl.finished];
    SumAppend(wl.aws[..n + 1], wl.aws[n + 1..wl.finished], (a: Addr) => a.Beats());
  }

  lemma MoveAnswered(x: Sys, c: Cycle, l: Log, l': Log)
    requires Moves(x, c, l, l') && (x.s.wr.resp != [] ==> WriteHead(x, l)) && Counted(x.s.wr.store, l.h.wl)
    requires Answered(l)
    ensures Answered(l')
  {
    var p, wl, wl' := PinsOf(x, c), l.h.wl, l'.h.wl;
    forall j | 0 <= j < |l'.answers|
      ensures && Covered(wl', l'.answers[j].n, |wl'.beats|)
              && l'.upB[j] == UpBResp(l'.answers[j].id, l'.answers[j].echo)
              && l'.answers[j] == EntriesOf(wl'.aws)[l'.answers[j].n]
    {
      if j == |l.answers| {
        FinishedCovered(x.s.wr.store, wl, l'.answers[j].n);
      }
      CoveredGrows(x.s, p, wl, l'.answers[j].n, |wl.beats|);
    }
    forall k: Id4
      ensures AnsweredInOrder(l', k)
    {
      MoveAnsweredOne(x, c, l, l', k);
    }
  }

  lemma {:induction false} AnswerOne(answers: seq<Y.Entry>, left: seq<Id4>, es: seq<Y.Entry>, e: Y.Entry, k: Id4)
    requires |Filter(left, IsId(k))| <= |es|
    requires Filter(answers, Y.EntryOfId(k)) == es[..|Filter(left, IsId(k))|]
    requires k == e.id ==> |Filter(left, IsId(k))| < |es| && e == es[|Filter(left, IsId(k))|]
    ensures |Filter(left + [e.id], IsId(k))| <= |es|
    ensures Filter(answers + [e], Y.EntryOfId(k)) == es[..|Filter(left + [e.id], IsId(k))|]
  {
    FilterSnoc(answers, e, Y.EntryOfId(k));
    FilterSnoc(left, e.id, IsId(k));
  }

  lemma MoveAnsweredOne(x: Sys, c: Cycle, l: Log, l': Log, k: Id4)
    requires Moves(x, c, l, l') && (x.s.wr.resp != [] ==> WriteHead(x, l))
    requires AnsweredInOrder(l, k)
    ensures AnsweredInOrder(l', k)
  {
    var ws := WriteSignals(x, c);
    var es, es', n := Y.Entered(l.wy, k), Y.Entered(l'.wy, k), Y.Left(l.wy, k);
    assert es <= es' by {
      FilterSnoc(l.wy.entered, Y.Entry(ws.id, ws.echo, |l.wy.entered|), Y.EntryOfId(k));
    }
    assert es'[..n] == es[..n];
    if Y.Leaves(ws) {
      AnswerOne(l.answers, l.wy.left, es', OldestEntry(l.wy, ws.respId), k);
    } else {
      assert l'.answers == l.answers;
    }
  }

  lemma MoveSees(x: Sys, c: Cycle, l: Log, l': Log)
    requires Moves(x, c, l, l') && Counted(x.s.wr.store, l.h.wl)
    requires SeesAnswered(l) && Answered(l')
    ensures SeesAnswered(l')
  {
    forall i | 0 <= i < |l'.h.rl.ars|
      ensures Sees(l', l'.h.rl.ars[i])
    {
      if i < |l.h.rl.ars| {
        var t := l.h.rl.ars[i];
        assert Sees(l, t);
        forall j | 0 <= j < t.answers
          ensures Covered(l'.h.wl, l'.answers[j].n, t.beats)
        {
          CoveredGrows(x.s, PinsOf(x, c), l.h.wl, l.answers[j].n, t.beats);
        }
      }
    }
  }

  lemma StepKeeps(g: Geometry, m0: seq<Byte>, x: Sys, l: Log, c: Cycle)
    requires Inv(g, m0, x, l)
    ensures Inv(g, m0, Step(g, x, c), StepLog(g, x, l, c))
  {
    var l' := StepLog(g, x, l, c);
    StepMoves(g, x, l, c);
    D.TickKeeps(g, m0, x.s, l.h, PinsOf(x, c));
    StepTracks(g, m0, x, l, c);
    if x.s.rd.resp != [] {
      ReadOwed(g, m0, x, l);
    }
    if x.s.wr.resp != [] {
      WriteOwed(g, m0, x, l);
    }
    MoveReadsAgree(g, x, c, l, l');
    MoveWritesAgree(x, c, l, l');
    MoveUpStream(g, x, c, l, l');
    MoveAnswered(x, c, l, l');
    MoveSees(x, c, l, l');
  }
}
