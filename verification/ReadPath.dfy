/** The read side of mm_dramsim2_t: pending list, busy bits, per-address FIFOs, response queue. */
module ReadPath {
  import opened Seqs
  import opened Memory
  import opened Axi
  import opened Bursts
  import opened AddressFifos

  /** mm_req_t: `len` is the number of beats. */
  datatype Req = Req(id: Id4, size: nat, len: nat, addr: nat)

  type Busy = b: seq<bool> | |b| == 16 witness seq(16, _ => false)

  /** rreq_queue, read_id_busy, rreq, the completions DRAMSim owes for reads, and rresp. */
  datatype Reads = Reads(pending: seq<Req>, busy: Busy, fifo: Fifos<Req>, owed: multiset<nat>, resp: seq<RBeat>)

  function Idle(busy: Busy): Req -> bool {
    (r: Req) => !busy[r.id]
  }

  function FirstIdle(r: Reads): nat {
    FirstIndex(r.pending, Idle(r.busy))
  }

  /** Send the first pending read whose ID is idle. */
  function Issue(r: Reads): Reads {
    var i := FirstIdle(r);
    if i == |r.pending| then r
    else
      var q := r.pending[i];
      r.(pending := RemoveAt(r.pending, i), busy := r.busy[q.id := true],
         fifo := Push(r.fifo, q.addr, q), owed := r.owed + multiset{q.addr})
  }

  function ToReq(): Ticket -> Req {
    (t: Ticket) => Req(t.ar.id, t.ar.Bytes(), t.ar.Beats(), t.ar.addr)
  }

  function Accept(r: Reads, ar: Addr): Reads {
    r.(pending := r.pending + [Req(ar.id, ar.Bytes(), ar.Beats(), ar.addr)])
  }

  function PopBeat(r: Reads): Reads
    requires r.resp != []
  {
    r.(resp := r.resp[1..])
  }

  /** read_complete: answer the oldest request sent for this address from the memory as it is now. */
  function Complete(g: Geometry, m: seq<Byte>, r: Reads, a: nat): Reads {
    if At(r.fifo, a) == [] then r
    else
      var q := At(r.fifo, a)[0];
      r.(resp := r.resp + ReadBeats(g, m, q.id, q.addr, q.len), busy := r.busy[q.id := false],
         fifo := Pop(r.fifo, a), owed := r.owed - multiset{a})
  }

  // The log of a run.

  /** Accepted ARs in order; where each now is: pending, sent, or answered; and the R beats taken,
      of which m whole bursts and c beats of the next. */
  datatype RLog = RLog(ars: seq<Ticket>, pend: seq<Ticket>, sent: seq<Ticket>, done: seq<Burst>,
                       m: nat, c: nat, taken: seq<RBeat>)

  function AddrOf(): Ticket -> nat {
    (t: Ticket) => t.ar.addr
  }

  function OfId(k: Id4): Ticket -> bool {
    (t: Ticket) => t.ar.id == k
  }

  function TicketOf(): Burst -> Ticket {
    (b: Burst) => b.t
  }

  /** The tickets of ID k, in AR order, as the log has them answered, then sent, then pending. */
  function InOrder(l: RLog, k: Id4): seq<Ticket> {
    Filter(Map(l.done, TicketOf()), OfId(k)) + Filter(l.sent, OfId(k)) + Filter(l.pend, OfId(k))
  }

  /** Reads keep their order within each ID, whatever order DRAMSim completes them in: the ARs accepted for an ID
      are, in order, those answered, then the one sent, then those pending. */
  ghost predicate Ordered(l: RLog) {
    forall k: Id4 :: Filter(l.ars, OfId(k)) == InOrder(l, k)
  }

  /** An ID is busy exactly when one read of that ID is in the per-address FIFOs, and then only one is. */
  ghost predicate OneInFlight(busy: Busy, l: RLog) {
    forall k: Id4 :: |Filter(l.sent, OfId(k))| == if busy[k] then 1 else 0
  }

  ghost predicate Inv(g: Geometry, r: Reads, l: RLog) {
    && r.pending == Map(l.pend, ToReq())
    && Mirrors(r.fifo, r.owed, l.sent, AddrOf(), ToReq())
    && OneInFlight(r.busy, l)
    && Ordered(l)
    && Stream(g, l.done, l.m, l.c, l.taken, r.resp)
    && (forall i :: 0 <= i < |l.ars| ==> l.ars[i].n == i)
  }

  // Each step on the log.

  /** `pend` mirrors the pending list, request by request. */
  function IssueLog(r: Reads, l: RLog): RLog {
    var i := FirstIdle(r);
    if i >= |l.pend| then l else l.(pend := RemoveAt(l.pend, i), sent := l.sent + [l.pend[i]])
  }

  function AcceptLog(l: RLog, ar: Addr, beats: nat, answers: nat): RLog {
    var t := Ticket(ar, |l.ars|, beats, answers);
    l.(ars := l.ars + [t], pend := l.pend + [t])
  }

  function PopLog(r: Reads, l: RLog): RLog
    requires r.resp != []
  {
    if r.resp[0].last then l.(taken := l.taken + [r.resp[0]], m := l.m + 1, c := 0)
    else l.(taken := l.taken + [r.resp[0]], c := l.c + 1)
  }

  function CompleteLog(m: seq<Byte>, beats: nat, l: RLog, a: nat): RLog {
    var i := Oldest(l.sent, AddrOf(), a);
    if i == |l.sent| then l
    else l.(sent := RemoveAt(l.sent, i), done := l.done + [Burst(l.sent[i], m, beats)])
  }

  lemma FirstIdleIsFirstOfItsId(r: Reads, l: RLog)
    requires r.pending == Map(l.pend, ToReq()) && FirstIdle(r) < |r.pending|
    ensures Filter(l.pend[..FirstIdle(r)], OfId(r.pending[FirstIdle(r)].id)) == []
  {
    var i := FirstIdle(r);
    var p := OfId(r.pending[i].id);
    forall j | 0 <= j < i
      ensures !p(l.pend[..i][j])
    {
      assert !Idle(r.busy)(r.pending[j]) && Idle(r.busy)(r.pending[i]);
    }
    FilterNone(l.pend[..i], p);
  }

  lemma IssueOneId(l: RLog, i: nat, k: Id4)
    requires i < |l.pend| && Filter(l.pend[..i], OfId(l.pend[i].ar.id)) == []
    requires k == l.pend[i].ar.id ==> Filter(l.sent, OfId(k)) == []
    ensures var t := l.pend[i];
            var l' := l.(pend := RemoveAt(l.pend, i), sent := l.sent + [t]);
            && InOrder(l', k) == InOrder(l, k)
            && Filter(l'.sent, OfId(k)) == if k == t.ar.id then [t] else Filter(l.sent, OfId(k))
  {
    var t := l.pend[i];
    FilterSnoc(l.sent, t, OfId(k));
    if k == t.ar.id {
      var fd, fp := Filter(Map(l.done, TicketOf()), OfId(k)), Filter(RemoveAt(l.pend, i), OfId(k));
      assert Filter(l.pend, OfId(k)) == [t] + fp by { FilterRemoveFirst(l.pend, i, OfId(k)); }
      assert Filter(l.sent + [t], OfId(k)) == [t];
      Regroup(fd, t, fp);
    } else {
      FilterRemoveOther(l.pend, i, OfId(k));
    }
  }

  lemma IssueOrders(r: Reads, l: RLog)
    requires r.pending == Map(l.pend, ToReq()) && FirstIdle(r) < |r.pending|
    requires OneInFlight(r.busy, l) && Ordered(l)
    ensures OneInFlight(Issue(r).busy, IssueLog(r, l)) && Ordered(IssueLog(r, l))
  {
    var i := FirstIdle(r);
    var t, l' := l.pend[i], IssueLog(r, l);
    assert r.pending[i].id == t.ar.id && !r.busy[t.ar.id];
    FirstIdleIsFirstOfItsId(r, l);
    forall k: Id4
      ensures |Filter(l'.sent, OfId(k))| == if Issue(r).busy[k] then 1 else 0
      ensures Filter(l'.ars, OfId(k)) == InOrder(l', k)
    {
      IssueOneId(l, i, k);
    }
  }

  lemma IssueKeeps(g: Geometry, r: Reads, l: RLog)
    requires Inv(g, r, l)
    ensures Inv(g, Issue(r), IssueLog(r, l))
  {
    var i := FirstIdle(r);
    if i < |r.pending| {
      var t, r', l' := l.pend[i], Issue(r), IssueLog(r, l);
      assert Mirrors(r'.fifo, r'.owed, l'.sent, AddrOf(), ToReq()) by {
        assert r.pending[i] == ToReq()(t);
        PushMirrors(r.fifo, r.owed, l.sent, AddrOf(), ToReq(), t);
      }
      assert OneInFlight(r'.busy, l') && Ordered(l') by { IssueOrders(r, l); }
      MapRemoveAt(l.pend, i, ToReq());
    }
  }

  lemma AcceptOrders(l: RLog, t: Ticket)
    requires Ordered(l)
    ensures Ordered(l.(ars := l.ars + [t], pend := l.pend + [t]))
  {
    var l' := l.(ars := l.ars + [t], pend := l.pend + [t]);
    forall k: Id4
      ensures Filter(l'.ars, OfId(k)) == InOrder(l', k)
    {
      FilterSnoc(l.ars, t, OfId(k));
      FilterSnoc(l.pend, t, OfId(k));
    }
  }

  lemma AcceptKeeps(g: Geometry, r: Reads, l: RLog, ar: Addr, beats: nat, answers: nat)
    requires Inv(g, r, l)
    ensures Inv(g, Accept(r, ar), AcceptLog(l, ar, beats, answers))
  {
    var t := Ticket(ar, |l.ars|, beats, answers);
    MapSnoc(l.pend, t, ToReq());
    AcceptOrders(l, t);
  }

  lemma PopKeeps(g: Geometry, r: Reads, l: RLog)
    requires Inv(g, r, l) && r.resp != []
    ensures Inv(g, PopBeat(r), PopLog(r, l))
  {
    StreamPop(g, l.done, l.m, l.c, l.taken, r.resp);
    forall k: Id4
      ensures InOrder(PopLog(r, l), k) == InOrder(l, k)
    {}
  }

  /** The completed read is the oldest sent for its address, and the FIFOs hold what is left. */
  lemma CompleteFifo(r: Reads, l: RLog, a: nat)
    requires Mirrors(r.fifo, r.owed, l.sent, AddrOf(), ToReq()) && a in r.owed
    ensures var i := Oldest(l.sent, AddrOf(), a);
            && At(r.fifo, a) != [] && i < |l.sent| && At(r.fifo, a)[0] == ToReq()(l.sent[i])
            && Mirrors(Pop(r.fifo, a), r.owed - multiset{a}, RemoveAt(l.sent, i), AddrOf(), ToReq())
  {
    OldestExists(r.fifo, r.owed, l.sent, AddrOf(), ToReq(), a);
    PopMirrors(r.fifo, r.owed, l.sent, AddrOf(), ToReq(), a);
  }

  lemma CompleteOrders(busy: Busy, l: RLog, i: nat, b: Burst)
    requires i < |l.sent| && b.t == l.sent[i] && OneInFlight(busy, l) && Ordered(l)
    ensures var l' := l.(sent := RemoveAt(l.sent, i), done := l.done + [b]);
            OneInFlight(busy[b.t.ar.id := false], l') && Ordered(l')
  {
    forall k: Id4
      ensures var l' := l.(sent := RemoveAt(l.sent, i), done := l.done + [b]);
              && |Filter(l'.sent, OfId(k))| == (if busy[b.t.ar.id := false][k] then 1 else 0)
              && Filter(l'.ars, OfId(k)) == InOrder(l', k)
    {
      CompleteOneId(l, i, b, k);
    }
  }

  lemma CompleteKeeps(g: Geometry, m: seq<Byte>, beats: nat, r: Reads, l: RLog, a: nat)
    requires Inv(g, r, l) && a in r.owed
    ensures At(r.fifo, a) != []
    ensures Inv(g, Complete(g, m, r, a), CompleteLog(m, beats, l, a))
  {
    CompleteFifo(r, l, a);
    var i := Oldest(l.sent, AddrOf(), a);
    var b := Burst(l.sent[i], m, beats);
    CompleteOrders(r.busy, l, i, b);
    StreamPush(g, l.done, l.m, l.c, l.taken, r.resp, b);
  }

  /** The only read of its ID in flight leaves the head of what is left of that ID. */
  lemma CompleteOneId(l: RLog, i: nat, b: Burst, k: Id4)
    requires i < |l.sent| && b.t == l.sent[i] && |Filter(l.sent, OfId(k))| <= 1
    ensures var l' := l.(sent := RemoveAt(l.sent, i), done := l.done + [b]);
            && InOrder(l', k) == InOrder(l, k)
            && Filter(l'.sent, OfId(k)) == if k == b.t.ar.id then [] else Filter(l.sent, OfId(k))
  {
    var t, d := l.sent[i], Map(l.done, TicketOf());
    MapSnoc(l.done, b, TicketOf());
    FilterSnoc(d, t, OfId(k));
    if k == t.ar.id {
      FilterRemoveOnly(l.sent, i, OfId(k));
      Regroup(Filter(d, OfId(k)), t, Filter(l.pend, OfId(k)));
    } else {
      FilterRemoveOther(l.sent, i, OfId(k));
    }
  }
}
