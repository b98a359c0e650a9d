/** mm_dramsim2_t as a step machine, with DRAMSim as an adversary that completes what it owes in any order. */
module Dramsim {
  import opened Seqs
  import opened Bits
  import opened Memory
  import opened Axi
  import opened Stores
  import opened Bursts
  import opened AddressFifos
  import R = ReadPath
  import W = WritePath

  datatype Slave = Slave(mem: seq<Byte>, rd: R.Reads, wr: W.Writes)

  /** A completion DRAMSim proposes; one it does not owe is passed over, so every schedule is legal and every
      legal order of completions is some schedule. */
  datatype Completion = ReadDone(addr: nat) | WriteDone(addr: nat)

  /** The inputs of one tick: the channel signals, DRAMSim's willAcceptTransaction and what its update completes. */
  datatype Pins = Pins(
    reset: bool, accept: bool, arValid: bool, ar: Addr, awValid: bool, aw: Addr,
    wValid: bool, w: WBeat, rReady: bool, bReady: bool, schedule: seq<Completion>)

  // All fire flags are taken from the state before the tick.

  predicate ArFires(s: Slave, p: Pins) {
    !p.reset && p.arValid && p.accept
  }

  predicate AwFires(s: Slave, p: Pins) {
    !p.reset && p.awValid && p.accept && !s.wr.store.inflight
  }

  predicate WFires(s: Slave, p: Pins) {
    !p.reset && p.wValid && s.wr.store.inflight
  }

  predicate RFires(s: Slave, p: Pins) {
    !p.reset && s.rd.resp != [] && p.rReady
  }

  predicate BFires(s: Slave, p: Pins) {
    !p.reset && s.wr.resp != [] && p.bReady
  }

  function ReadStep(r: R.Reads, accept: bool, arFire: bool, rFire: bool, ar: Addr): R.Reads
    requires rFire ==> r.resp != []
  {
    var issued := if accept then R.Issue(r) else r;
    var accepted := if arFire then R.Accept(issued, ar) else issued;
    if rFire then R.PopBeat(accepted) else accepted
  }

  function WriteStep(w: W.Writes, awFire: bool, wFire: bool, bFire: bool, aw: Addr): W.Writes
    requires bFire ==> w.resp != []
  {
    var started := if awFire then W.Start(w, aw) else w;
    var stored := if wFire then W.Beat(started) else started;
    if bFire then W.PopResp(stored) else stored
  }

  function ReadFront(s: Slave, p: Pins): R.Reads {
    ReadStep(s.rd, p.accept, ArFires(s, p), RFires(s, p), p.ar)
  }

  function WriteFront(s: Slave, p: Pins): W.Writes {
    WriteStep(s.wr, AwFires(s, p), WFires(s, p), BFires(s, p), p.aw)
  }

  function MemFront(g: Geometry, s: Slave, p: Pins): seq<Byte> {
    if WFires(s, p) then Stored(g, s.mem, s.wr.store.addr, p.w.data, p.w.strb, s.wr.store.size) else s.mem
  }

  /** Everything before mem->update(). */
  function Front(g: Geometry, s: Slave, p: Pins): Slave {
    Slave(MemFront(g, s, p), ReadFront(s, p), WriteFront(s, p))
  }

  function Callback(g: Geometry, s: Slave, c: Completion): Slave {
    match c
    case ReadDone(a) => if a in s.rd.owed then s.(rd := R.Complete(g, s.mem, s.rd, a)) else s
    case WriteDone(a) => if a in s.wr.owed then s.(wr := W.Complete(s.wr, a)) else s
  }

  function Update(g: Geometry, s: Slave, cs: seq<Completion>): Slave {
    if cs == [] then s else Callback(g, Update(g, s, cs[..|cs| - 1]), cs[|cs| - 1])
  }

  /** `reset` drops the two response queues and nothing else. */
  function Reset(s: Slave): Slave {
    s.(rd := s.rd.(resp := []), wr := s.wr.(resp := []))
  }

  function Tick(g: Geometry, s: Slave, p: Pins): Slave {
    var s' := Update(g, Front(g, s, p), p.schedule);
    if p.reset then Reset(s') else s'
  }

  function Initial(mem: seq<Byte>): Slave {
    Slave(mem, R.Reads([], seq(16, _ => false), map[], multiset{}, []),
          W.Writes(Store(false, 0, 0, 0, 0), map[], multiset{}, []))
  }

  // The log of a run.

  datatype Hist = Hist(rl: R.RLog, wl: WLog, ws: W.WSide)

  function ReadFrontLog(s: Slave, p: Pins, l: R.RLog, beats: nat, answers: nat): R.RLog {
    var issued := if p.accept then R.IssueLog(s.rd, l) else l;
    var accepted := if ArFires(s, p) then R.AcceptLog(issued, p.ar, beats, answers) else issued;
    if RFires(s, p) then R.PopLog(s.rd, accepted) else accepted
  }

  function WLogFront(s: Slave, p: Pins, l: WLog): WLog {
    if AwFires(s, p) then LogAw(l, p.aw) else if WFires(s, p) then LogW(s.wr.store, l, p.w) else l
  }

  function WSideFront(s: Slave, p: Pins, d: W.WSide): W.WSide {
    var stored := if WFires(s, p) then W.BeatLog(s.wr, d) else d;
    if BFires(s, p) then W.PopLog(s.wr, stored) else stored
  }

  function FrontLog(s: Slave, p: Pins, h: Hist): Hist {
    var wl, ws := WLogFront(s, p, h.wl), WSideFront(s, p, h.ws);
    Hist(ReadFrontLog(s, p, h.rl, |wl.beats|, |ws.taken|), wl, ws)
  }

  function CallbackLog(s: Slave, h: Hist, c: Completion): Hist {
    match c
    case ReadDone(a) =>
      if a in s.rd.owed then h.(rl := R.CompleteLog(s.mem, |h.wl.beats|, h.rl, a)) else h
    case WriteDone(a) =>
      if a in s.wr.owed then h.(ws := W.CompleteLog(h.ws, a)) else h
  }

  function UpdateLog(g: Geometry, s: Slave, h: Hist, cs: seq<Completion>): Hist {
    if cs == [] then h
    else
      var front := cs[..|cs| - 1];
      CallbackLog(Update(g, s, front), UpdateLog(g, s, h, front), cs[|cs| - 1])
  }

  function TickLog(g: Geometry, s: Slave, h: Hist, p: Pins): Hist {
    UpdateLog(g, Front(g, s, p), FrontLog(s, p, h), p.schedule)
  }

  const EmptyHist := Hist(R.RLog([], [], [], [], 0, 0, []), WLog([], [], 0), W.WSide([], [], []))

  // Invariants.

  /** Every read burst was answered from the reference memory after the first `beats` W beats, its AR's tick included.
       */
  ghost predicate Fresh(g: Geometry, m0: seq<Byte>, h: Hist) {
    && (forall i :: 0 <= i < |h.rl.ars| ==>
         h.rl.ars[i].beats <= |h.wl.beats| && h.rl.ars[i].answers <= |h.ws.taken|)
    && (forall j :: 0 <= j < |h.rl.done| ==> FreshBurst(g, m0, h.wl, h.rl.done[j]))
  }

  ghost predicate FreshBurst(g: Geometry, m0: seq<Byte>, l: WLog, b: Burst) {
    b.t.beats <= b.beats <= |l.beats| && b.mem == MemoryAfter(g, m0, l.aws, l.beats[..b.beats])
  }

  ghost predicate Inv(g: Geometry, m0: seq<Byte>, s: Slave, h: Hist) {
    && R.Inv(g, s.rd, h.rl)
    && W.Inv(s.wr, h.ws, h.wl)
    && EngineInv(g, m0, s.mem, s.wr.store, h.wl)
    && Fresh(g, m0, h)
  }

  lemma InitialInv(g: Geometry, m0: seq<Byte>)
    ensures Inv(g, m0, Initial(m0), EmptyHist)
  {
    var s, h := Initial(m0), EmptyHist;
    assert Beats(h.wl.aws) == 0;
    forall k: Id4
      ensures Filter(h.rl.sent, R.OfId(k)) == []
      ensures Filter(h.rl.ars, R.OfId(k)) == R.InOrder(h.rl, k)
      ensures W.Counts(h.ws, [])
    {
    }
    assert Flatten(g, h.rl.done) == [];
  }

  lemma ReadFrontKeeps(g: Geometry, s: Slave, p: Pins, l: R.RLog, beats: nat, answers: nat)
    requires R.Inv(g, s.rd, l)
    ensures R.Inv(g, ReadFront(s, p), ReadFrontLog(s, p, l, beats, answers))
  {
    var r1, l1 := if p.accept then R.Issue(s.rd) else s.rd, if p.accept then R.IssueLog(s.rd, l) else l;
    if p.accept {
      R.IssueKeeps(g, s.rd, l);
    }
    var r2 := if ArFires(s, p) then R.Accept(r1, p.ar) else r1;
    var l2 := if ArFires(s, p) then R.AcceptLog(l1, p.ar, beats, answers) else l1;
    if ArFires(s, p) {
      R.AcceptKeeps(g, r1, l1, p.ar, beats, answers);
    }
    if RFires(s, p) {
      R.PopKeeps(g, r2, l2);
    }
  }

  lemma EngineFrontKeeps(g: Geometry, m0: seq<Byte>, s: Slave, p: Pins, l: WLog)
    requires EngineInv(g, m0, s.mem, s.wr.store, l)
    ensures EngineInv(g, m0, MemFront(g, s, p), WriteFront(s, p).store, WLogFront(s, p, l))
  {
    if AwFires(s, p) {
      BeginKeeps(g, m0, s.mem, s.wr.store, l, p.aw);
    } else if WFires(s, p) {
      AdvanceKeeps(g, m0, s.mem, s.wr.store, l, p.w);
    }
  }

  lemma WriteFrontKeeps(s: Slave, p: Pins, d: W.WSide, l: WLog)
    requires W.Inv(s.wr, d, l) && Counted(s.wr.store, l)
    ensures W.Inv(WriteFront(s, p), WSideFront(s, p, d), WLogFront(s, p, l))
  {
    var w1 := if AwFires(s, p) then W.Start(s.wr, p.aw) else if WFires(s, p) then W.Beat(s.wr) else s.wr;
    var d1 := if WFires(s, p) then W.BeatLog(s.wr, d) else d;
    if AwFires(s, p) {
      W.StartKeeps(s.wr, d, l, p.aw);
    } else if WFires(s, p) {
      W.BeatKeeps(s.wr, d, l, p.w);
    }
    if BFires(s, p) {
      W.PopKeeps(w1, d1, WLogFront(s, p, l));
    }
  }

  lemma FreshGrows(g: Geometry, m0: seq<Byte>, l: WLog, l': WLog, b: Burst)
    requires FreshBurst(g, m0, l, b) && l.aws <= l'.aws && l.beats <= l'.beats && |l.beats| <= Beats(l.aws)
    ensures FreshBurst(g, m0, l', b)
  {
    assert l'.beats[..b.beats] == l.beats[..b.beats];
    EffectsMoreBursts(l.aws, l'.aws, l.beats[..b.beats]);
  }

  lemma FreshLater(g: Geometry, m0: seq<Byte>, h: Hist, h': Hist, ar: Addr)
    requires Fresh(g, m0, h) && |h.wl.beats| <= Beats(h.wl.aws)
    requires h'.rl.done == h.rl.done && h.wl.aws <= h'.wl.aws && h.wl.beats <= h'.wl.beats
    requires |h.ws.taken| <= |h'.ws.taken|
    requires || h'.rl.ars == h.rl.ars
             || h'.rl.ars == h.rl.ars + [Ticket(ar, |h.rl.ars|, |h'.wl.beats|, |h'.ws.taken|)]
    ensures Fresh(g, m0, h')
  {
    forall j | 0 <= j < |h'.rl.done|
      ensures FreshBurst(g, m0, h'.wl, h'.rl.done[j])
    {
      FreshGrows(g, m0, h.wl, h'.wl, h.rl.done[j]);
    }
  }

  /** The first half of a tick answers no read, and accepts an AR only with the counts of this tick. */
  lemma FrontLogFrame(s: Slave, p: Pins, h: Hist)
    requires |h.rl.pend| == |s.rd.pending|
    ensures var h' := FrontLog(s, p, h);
            && h'.rl.done == h.rl.done && h.wl.aws <= h'.wl.aws && h.wl.beats <= h'.wl.beats
            && |h.ws.taken| <= |h'.ws.taken|
            && (h'.rl.ars == h.rl.ars
                || h'.rl.ars == h.rl.ars + [Ticket(p.ar, |h.rl.ars|, |h'.wl.beats|, |h'.ws.taken|)])
  {}

  lemma FrontFresh(g: Geometry, m0: seq<Byte>, s: Slave, p: Pins, h: Hist)
    requires |h.rl.pend| == |s.rd.pending| && Fresh(g, m0, h) && Counted(s.wr.store, h.wl)
    ensures Fresh(g, m0, FrontLog(s, p, h))
  {
    FrontLogFrame(s, p, h);
    BeatsWithin(s.wr.store, h.wl);
    FreshLater(g, m0, h, FrontLog(s, p, h), p.ar);
  }

  lemma FrontKeeps(g: Geometry, m0: seq<Byte>, s: Slave, p: Pins, h: Hist)
    requires Inv(g, m0, s, h)
    ensures Inv(g, m0, Front(g, s, p), FrontLog(s, p, h))
  {
    var wl, ws := WLogFront(s, p, h.wl), WSideFront(s, p, h.ws);
    ReadFrontKeeps(g, s, p, h.rl, |wl.beats|, |ws.taken|);
    EngineFrontKeeps(g, m0, s, p, h.wl);
    WriteFrontKeeps(s, p, h.ws, h.wl);
    FrontFresh(g, m0, s, p, h);
  }

  /** A sent read was accepted, so its W-beat count is in the past. */
  lemma SentIsAccepted(l: R.RLog, i: nat)
    requires R.Ordered(l) && i < |l.sent|
    ensures l.sent[i] in l.ars
  {
    var t := l.sent[i];
    var k := t.ar.id;
    FilterIn(l.sent, R.OfId(k), t);
    FilterIn(l.ars, R.OfId(k), t);
    assert t in R.InOrder(l, k);
  }

  lemma CallbackKeeps(g: Geometry, m0: seq<Byte>, s: Slave, h: Hist, c: Completion)
    requires Inv(g, m0, s, h)
    ensures Inv(g, m0, Callback(g, s, c), CallbackLog(s, h, c))
  {
    match c
    case ReadDone(a) =>
      if a in s.rd.owed {
        R.CompleteKeeps(g, s.mem, |h.wl.beats|, s.rd, h.rl, a);
        CompletionFresh(g, m0, s, h, a);
      }
    case WriteDone(a) =>
      if a in s.wr.owed {
        W.CompleteKeeps(s.wr, h.ws, h.wl, a);
      }
  }

  lemma CompletionFresh(g: Geometry, m0: seq<Byte>, s: Slave, h: Hist, a: nat)
    requires Fresh(g, m0, h) && R.Ordered(h.rl) && s.mem == MemoryAfter(g, m0, h.wl.aws, h.wl.beats)
    ensures Fresh(g, m0, h.(rl := R.CompleteLog(s.mem, |h.wl.beats|, h.rl, a)))
  {
    var i := Oldest(h.rl.sent, R.AddrOf(), a);
    if i < |h.rl.sent| {
      SentIsAccepted(h.rl, i);
      assert h.wl.beats[..|h.wl.beats|] == h.wl.beats;
      assert FreshBurst(g, m0, h.wl, Burst(h.rl.sent[i], s.mem, |h.wl.beats|));
    }
  }

  lemma {:induction false} UpdateKeeps(g: Geometry, m0: seq<Byte>, s: Slave, h: Hist, cs: seq<Completion>)
    requires Inv(g, m0, s, h)
    ensures Inv(g, m0, Update(g, s, cs), UpdateLog(g, s, h, cs))
  {
    if cs != [] {
      var front := cs[..|cs| - 1];
      UpdateKeeps(g, m0, s, h, front);
      CallbackKeeps(g, m0, Update(g, s, front), UpdateLog(g, s, h, front), cs[|cs| - 1]);
    }
  }

  /** Every reset-free tick keeps the invariant, whatever the bus does and however DRAMSim reorders completions. */
  lemma TickKeeps(g: Geometry, m0: seq<Byte>, s: Slave, h: Hist, p: Pins)
    requires Inv(g, m0, s, h) && !p.reset
    ensures Inv(g, m0, Tick(g, s, p), TickLog(g, s, h, p))
  {
    FrontKeeps(g, m0, s, p, h);
    UpdateKeeps(g, m0, Front(g, s, p), FrontLog(s, p, h), p.schedule);
  }

  /** DRAMSim's callbacks only ever answer reads and writes; what was accepted and what was taken is settled before. */
  lemma {:induction false} UpdateLogFrame(g: Geometry, s: Slave, h: Hist, cs: seq<Completion>)
    ensures var h' := UpdateLog(g, s, h, cs);
            && h'.wl == h.wl && h'.ws.taken == h.ws.taken
            && h'.rl.ars == h.rl.ars && h'.rl.m == h.rl.m && h'.rl.c == h.rl.c && h'.rl.taken == h.rl.taken
            && h.rl.done <= h'.rl.done
  {
    if cs != [] {
      UpdateLogFrame(g, s, h, cs[..|cs| - 1]);
    }
  }

  /** What a tick's handshakes do to the log, whatever DRAMSim completes in it. */
  ghost predicate Handshakes(s: Slave, p: Pins, h: Hist, h': Hist) {
    && h'.wl == WLogFront(s, p, h.wl)
    && h'.ws.taken == h.ws.taken + (if BFires(s, p) then [s.wr.resp[0]] else [])
    && h'.rl.ars == h.rl.ars + (if ArFires(s, p)
                                then [Ticket(p.ar, |h.rl.ars|, |h'.wl.beats|, |h'.ws.taken|)] else [])
    && h'.rl.taken == h.rl.taken + (if RFires(s, p) then [s.rd.resp[0]] else [])
    && (h'.rl.m, h'.rl.c) == (if !RFires(s, p) then (h.rl.m, h.rl.c)
                              else if s.rd.resp[0].last then (h.rl.m + 1, 0) else (h.rl.m, h.rl.c + 1))
    && h.rl.done <= h'.rl.done
  }

  lemma FrontHandshakes(s: Slave, p: Pins, h: Hist)
    requires |h.rl.pend| == |s.rd.pending|
    ensures Handshakes(s, p, h, FrontLog(s, p, h))
  {}

  lemma HandshakesLater(s: Slave, p: Pins, h: Hist, h1: Hist, h2: Hist)
    requires Handshakes(s, p, h, h1) && h2.wl == h1.wl && h2.ws.taken == h1.ws.taken
    requires h2.rl.ars == h1.rl.ars && h2.rl.m == h1.rl.m && h2.rl.c == h1.rl.c && h2.rl.taken == h1.rl.taken
    requires h1.rl.done <= h2.rl.done
    ensures Handshakes(s, p, h, h2)
  {}

  lemma TickLogFrame(g: Geometry, s: Slave, h: Hist, p: Pins)
    requires |h.rl.pend| == |s.rd.pending|
    ensures Handshakes(s, p, h, TickLog(g, s, h, p))
  {
    FrontHandshakes(s, p, h);
    UpdateLogFrame(g, Front(g, s, p), FrontLog(s, p, h), p.schedule);
    HandshakesLater(s, p, h, FrontLog(s, p, h), TickLog(g, s, h, p));
  }

  /** The five handshakes of a tick, by the pins: an AR or AW when DRAMSim accepts (and no burst is in flight), a W beat
      when one is in flight, R and B beats when there is one and the master is ready. */
  lemma TickHandshakes(g: Geometry, s: Slave, h: Hist, p: Pins)
    requires |h.rl.pend| == |s.rd.pending| && !p.reset
    ensures var h' := TickLog(g, s, h, p);
            && |h'.rl.ars| == |h.rl.ars| + (if p.arValid && p.accept then 1 else 0)
            && (p.arValid && p.accept ==> h'.rl.ars[|h.rl.ars|].ar == p.ar)
            && h'.wl.aws == h.wl.aws + (if p.awValid && p.accept && !s.wr.store.inflight then [p.aw] else [])
            && h'.wl.beats == h.wl.beats + (if p.wValid && s.wr.store.inflight then [p.w] else [])
            && h'.rl.taken == h.rl.taken + (if p.rReady && s.rd.resp != [] then [s.rd.resp[0]] else [])
            && h'.ws.taken == h.ws.taken + (if p.bReady && s.wr.resp != [] then [s.wr.resp[0]] else [])
  {
    TickLogFrame(g, s, h, p);
  }

  /** What is sent to DRAMSim in the first half of a tick: the address of the read that is issued, and, with the last W
      beat of a burst, the address just past it. */
  lemma ReadSent(s: Slave, p: Pins, l: R.RLog)
    requires s.rd.pending == Map(l.pend, R.ToReq())
    ensures var i := R.FirstIdle(s.rd);
            ReadFront(s, p).owed ==
            if p.accept && i < |s.rd.pending| then s.rd.owed + multiset{l.pend[i].ar.addr} else s.rd.owed
  {}

  lemma WriteSent(s: Slave, p: Pins, l: WLog)
    requires Counted(s.wr.store, l) && !p.reset
    ensures WriteFront(s, p).owed ==
            if p.wValid && s.wr.store.inflight && s.wr.store.count == 1
            then s.wr.owed + multiset{PastEnd(l.aws[l.finished])}
            else s.wr.owed
  {
    if s.wr.store.inflight && s.wr.store.count == 1 {
      NextBeat(l.aws[l.finished], l.aws[l.finished].len);
    }
  }

  /** addr + (len + 1) * 2^size */
  function PastEnd(aw: Addr): nat {
    aw.addr + (aw.len + 1) * Pow2(aw.size)
  }

  /** A tick under reset is one in which no pin is raised, followed by the loss of the two response queues and of
      nothing else: pending reads, busy bits, FIFOs and the write engine stay. */
  lemma ResetExactly(g: Geometry, s: Slave, p: Pins)
    requires p.reset
    ensures var idle := p.(reset := false, arValid := false, awValid := false, wValid := false, rReady := false,
                           bReady := false);
            var s', i := Tick(g, s, p), Tick(g, s, idle);
            && s'.rd.resp == [] && s'.wr.resp == [] && s'.mem == i.mem
            && s'.rd.pending == i.rd.pending && s'.rd.busy == i.rd.busy && s'.rd.fifo == i.rd.fifo
            && s'.rd.owed == i.rd.owed
            && s'.wr.store == i.wr.store && s'.wr.fifo == i.wr.fifo && s'.wr.owed == i.wr.owed
  {
    var idle := p.(reset := false, arValid := false, awValid := false, wValid := false, rReady := false,
                   bReady := false);
    assert Front(g, s, p) == Front(g, s, idle);
  }
}
