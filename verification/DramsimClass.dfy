/** mm_dramsim2_t as the class it is, with its fields, its scan and its callbacks, against the step machine. */
module DramsimClass {
  import opened Memory
  import opened Axi
  import opened Bursts
  import opened AddressFifos
  import opened Stores
  import opened MagicMemory
  import R = ReadPath
  import W = WritePath
  import D = Dramsim

  predicate InRange(g: Geometry, q: R.Req) {
    q.len >= 1 && g.Covers(Aligned(g, q.addr), q.len * g.Word())
  }

  /** Every FIFO is as long as the completions DRAMSim owes for its address. */
  ghost predicate Owing<T>(f: Fifos<T>, owed: multiset<nat>) {
    forall a: nat :: owed[a] == |At(f, a)|
  }

  ghost predicate Ok(g: Geometry, s: D.Slave) {
    && Owing(s.rd.fifo, s.rd.owed) && Owing(s.wr.fifo, s.wr.owed)
    && (forall q :: q in s.rd.pending ==> InRange(g, q))
    && (forall a: nat, q :: q in At(s.rd.fifo, a) ==> InRange(g, q))
  }

  /** What the assertions of the source ask of the bus: bursts inside the memory, and `last` where a burst ends. */
  predicate Demanded(g: Geometry, s: D.Slave, p: D.Pins) {
    && (D.ArFires(s, p) ==> g.Covers(Aligned(g, p.ar.addr), p.ar.Beats() * g.Word()))
    && (D.WFires(s, p) ==>
         && g.Covers(s.wr.store.addr, 1) && s.wr.store.size <= 64 && |p.w.data| == g.Word()
         && (s.wr.store.count == 1 ==> p.w.last))
  }

  lemma PushOwing<T>(f: Fifos<T>, owed: multiset<nat>, a: nat, x: T)
    requires Owing(f, owed)
    ensures Owing(Push(f, a, x), owed + multiset{a})
  {}

  lemma PopOwing<T>(f: Fifos<T>, owed: multiset<nat>, a: nat)
    requires Owing(f, owed) && At(f, a) != []
    ensures Owing(Pop(f, a), owed - multiset{a})
  {}

  lemma IssueOk(g: Geometry, r: R.Reads)
    requires Owing(r.fifo, r.owed)
    requires forall q :: q in r.pending ==> InRange(g, q)
    requires forall a: nat, q :: q in At(r.fifo, a) ==> InRange(g, q)
    ensures var r' := R.Issue(r);
            && Owing(r'.fifo, r'.owed)
            && (forall q :: q in r'.pending ==> InRange(g, q))
            && (forall a: nat, q :: q in At(r'.fifo, a) ==> InRange(g, q))
  {
    var i := R.FirstIdle(r);
    if i < |r.pending| {
      PushOwing(r.fifo, r.owed, r.pending[i].addr, r.pending[i]);
    }
  }

  lemma ReadFrontOk(g: Geometry, s: D.Slave, p: D.Pins)
    requires Ok(g, s) && Demanded(g, s, p)
    ensures var r := D.ReadFront(s, p);
            && Owing(r.fifo, r.owed)
            && (forall q :: q in r.pending ==> InRange(g, q))
            && (forall a: nat, q :: q in At(r.fifo, a) ==> InRange(g, q))
  {
    IssueOk(g, s.rd);
  }

  lemma WriteFrontOk(s: D.Slave, p: D.Pins)
    requires Owing(s.wr.fifo, s.wr.owed)
    ensures Owing(D.WriteFront(s, p).fifo, D.WriteFront(s, p).owed)
  {
    var st := Advance(s.wr.store);
    PushOwing(s.wr.fifo, s.wr.owed, st.addr, st.id);
  }

  lemma FrontOk(g: Geometry, s: D.Slave, p: D.Pins)
    requires Ok(g, s) && Demanded(g, s, p)
    ensures Ok(g, D.Front(g, s, p))
  {
    ReadFrontOk(g, s, p);
    WriteFrontOk(s, p);
  }

  lemma CallbackOk(g: Geometry, s: D.Slave, c: D.Completion)
    requires Ok(g, s)
    ensures Ok(g, D.Callback(g, s, c))
  {
    match c
    case ReadDone(a) =>
      if At(s.rd.fifo, a) != [] {
        PopOwing(s.rd.fifo, s.rd.owed, a);
      }
    case WriteDone(a) =>
      if At(s.wr.fifo, a) != [] {
        PopOwing(s.wr.fifo, s.wr.owed, a);
      }
  }

  class DramsimMm {
    const mm: Mm
    const readIdBusy: array<bool>
    var storeInflight: bool
    var storeAddr: nat
    var storeId: Id4
    var storeSize: nat
    var storeCount: int
    var bresp: seq<Id4>
    var rresp: seq<RBeat>
    var wreq: map<nat, seq<Id4>>
    var rreq: map<nat, seq<R.Req>>
    var rreqQueue: seq<R.Req>

    /** The transactions inside DRAMSim: the addresses it still owes a callback for. */
    var owedReads: multiset<nat>
    var owedWrites: multiset<nat>

    ghost predicate Shape() {
      mm.Valid() && readIdBusy.Length == 16 && readIdBusy as object != mm.data as object
    }

    ghost function Reads(): R.Reads
      requires Shape()
      reads this`rreqQueue, this`rreq, this`owedReads, this`rresp, readIdBusy
    {
      R.Reads(rreqQueue, readIdBusy[..], rreq, owedReads, rresp)
    }

    ghost function Writes(): W.Writes
      reads this`storeInflight, this`storeAddr, this`storeId, this`storeSize, this`storeCount,
        this`wreq, this`owedWrites, this`bresp
    {
      W.Writes(Store(storeInflight, storeAddr, storeId, storeSize, storeCount), wreq, owedWrites, bresp)
    }

    ghost function Abs(): D.Slave
      requires Shape()
      reads this, readIdBusy, mm.data
    {
      D.Slave(mm.data[..], Reads(), Writes())
    }

    ghost predicate Valid()
      reads this, readIdBusy, mm.data
    {
      Shape() && Ok(mm.g, Abs())
    }

    constructor (mm: Mm)
      requires mm.Valid()
      ensures Valid() && this.mm == mm && fresh(readIdBusy) && Abs() == D.Initial(mm.data[..])
    {
      this.mm := mm;
      storeInflight, storeAddr, storeId, storeSize, storeCount := false, 0, 0, 0, 0;
      bresp, rresp, wreq, rreq, rreqQueue := [], [], map[], map[], [];
      readIdBusy := new bool[16](_ => false);
      owedReads, owedWrites := multiset{}, multiset{};
    }

    /** Scan the pending list for the first read whose ID is idle. */
    method FindIdle() returns (i: nat)
      requires Shape()
      ensures i == R.FirstIdle(Reads())
    {
      i := 0;
      while i < |rreqQueue| && readIdBusy[rreqQueue[i].id]
        invariant 0 <= i <= |rreqQueue|
        invariant forall j :: 0 <= j < i ==> readIdBusy[rreqQueue[j].id]
      {
        i := i + 1;
      }
      ghost var r := Reads();
      ghost var f := R.FirstIdle(r);
      assert f < |r.pending| ==> R.Idle(r.busy)(r.pending[f]);
      assert forall j :: 0 <= j < f ==> !R.Idle(r.busy)(r.pending[j]);
    }

    /** Send the first pending read whose ID is idle, if any. */
    method Issue()
      requires Shape()
      modifies this`rreqQueue, this`rreq, this`owedReads, readIdBusy
      ensures Reads() == R.Issue(old(Reads()))
    {
      var i := FindIdle();
      if i < |rreqQueue| {
        var q := rreqQueue[i];
        readIdBusy[q.id] := true;
        rreq := Push(rreq, q.addr, q);
        owedReads := owedReads + multiset{q.addr};
        rreqQueue := rreqQueue[..i] + rreqQueue[i + 1..];
      }
    }

    /** The word loop of a completed read. */
    method PushBurst(q: R.Req)
      requires Shape() && InRange(mm.g, q)
      modifies this`rresp
      ensures rresp == old(rresp) + ReadBeats(mm.g, mm.data[..], q.id, q.addr, q.len)
    {
      var start := Aligned(mm.g, q.addr);
      ghost var beats := ReadBeats(mm.g, mm.data[..], q.id, q.addr, q.len);
      for i := 0 to q.len
        invariant rresp == old(rresp) + beats[..i]
      {
        WordInBurst(mm.g, start, i, q.len);
        var dat := mm.Read(start + i * mm.g.Word());
        assert beats[..i + 1] == beats[..i] + [beats[i]];
        rresp := rresp + [RBeat(q.id, dat, i == q.len - 1)];
      }
      assert beats[..q.len] == beats;
    }

    /** The callback for a completed read; its FIFO must not be empty. */
    method ReadComplete(a: nat)
      requires Shape() && At(rreq, a) != [] && InRange(mm.g, At(rreq, a)[0])
      modifies this`rresp, this`rreq, this`owedReads, readIdBusy
      ensures Reads() == R.Complete(mm.g, mm.data[..], old(Reads()), a)
    {
      var q := At(rreq, a)[0];
      PushBurst(q);
      readIdBusy[q.id] := false;
      rreq := Pop(rreq, a);
      owedReads := owedReads - multiset{a};
    }

    /** The callback for a completed write; its FIFO must not be empty. */
    method WriteComplete(a: nat)
      requires Shape() && At(wreq, a) != []
      modifies this`bresp, this`wreq, this`owedWrites
      ensures Writes() == W.Complete(old(Writes()), a)
    {
      bresp := bresp + [At(wreq, a)[0]];
      wreq := Pop(wreq, a);
      owedWrites := owedWrites - multiset{a};
    }

    /** A completion that DRAMSim owes always finds its request. */
    method Complete(c: D.Completion)
      requires Valid()
      modifies this`rresp, this`rreq, this`owedReads, this`bresp, this`wreq, this`owedWrites, readIdBusy
      ensures Abs() == D.Callback(mm.g, old(Abs()), c)
    {
      match c
      case ReadDone(a) =>
        if a in owedReads {
          assert At(rreq, a) != [] && InRange(mm.g, At(rreq, a)[0]);
          ReadComplete(a);
        }
      case WriteDone(a) =>
        if a in owedWrites {
          assert At(wreq, a) != [];
          WriteComplete(a);
        }
    }

    /** mem->update(): DRAMSim completes what the schedule names and it owes, in that order. */
    method Update(schedule: seq<D.Completion>)
      requires Valid()
      modifies this`rresp, this`rreq, this`owedReads, this`bresp, this`wreq, this`owedWrites, readIdBusy
      ensures Valid() && Abs() == D.Update(mm.g, old(Abs()), schedule)
    {
      for i := 0 to |schedule|
        invariant Valid() && Abs() == D.Update(mm.g, old(Abs()), schedule[..i])
      {
        CallbackOk(mm.g, Abs(), schedule[i]);
        Complete(schedule[i]);
        assert schedule[..i + 1][..i] == schedule[..i];
      }
      assert schedule[..|schedule|] == schedule;
    }

    /** One W beat: store it, move on, and send the write after the last. */
    method StoreBeat(w: WBeat)
      requires Shape() && mm.g.Covers(storeAddr, 1) && storeSize <= 64 && |w.data| == mm.g.Word()
      requires storeInflight && (storeCount == 1 ==> w.last)
      modifies this`storeInflight, this`storeAddr, this`storeCount, this`wreq, this`owedWrites, mm.data
      ensures Writes() == W.Beat(old(Writes())) && storeCount == old(storeCount) - 1
      ensures mm.data[..] == Stored(mm.g, old(mm.data[..]), old(storeAddr), w.data, w.strb, storeSize)
    {
      mm.Write(storeAddr, w.data, w.strb, storeSize);
      NextBeat();
      assert storeCount == 0 ==> w.last;
    }

    method NextBeat()
      requires storeInflight
      modifies this`storeInflight, this`storeAddr, this`storeCount, this`wreq, this`owedWrites
      ensures Writes() == W.Beat(old(Writes())) && storeCount == old(storeCount) - 1
    {
      storeAddr, storeCount := storeAddr + storeSize, storeCount - 1;
      if storeCount == 0 {
        Send();
      }
    }

    /** The end of a burst: one write transaction, for the address after it. */
    method Send()
      modifies this`storeInflight, this`wreq, this`owedWrites
      ensures !storeInflight && owedWrites == old(owedWrites) + multiset{storeAddr}
      ensures wreq == Push(old(wreq), storeAddr, storeId)
    {
      storeInflight := false;
      owedWrites := owedWrites + multiset{storeAddr};
      wreq := Push(wreq, storeAddr, storeId);
    }

    method AcceptAw(aw: Addr)
      modifies this`storeInflight, this`storeAddr, this`storeId, this`storeSize, this`storeCount
      ensures Writes() == W.Start(old(Writes()), aw)
    {
      storeAddr, storeId, storeCount := aw.addr, aw.id, aw.len + 1;
      storeSize, storeInflight := aw.Bytes(), true;
    }

    /** The tick up to mem->update(), every fire flag taken from the state at its start. */
    method Front(p: D.Pins, ghost s: D.Slave)
      requires Shape() && s == Abs() && Demanded(mm.g, s, p)
      modifies this, readIdBusy, mm.data
      ensures Reads() == D.ReadFront(s, p) && Writes() == D.WriteFront(s, p) && mm.data[..] == D.MemFront(mm.g, s, p)
    {
      var arFire := !p.reset && p.arValid && p.accept;
      var awFire := !p.reset && p.awValid && p.accept && !storeInflight;
      var wFire := !p.reset && p.wValid && storeInflight;
      var rFire := !p.reset && rresp != [] && p.rReady;
      var bFire := !p.reset && bresp != [] && p.bReady;
      FrontReads(p, arFire, rFire, s);
      FrontWrites(p, awFire, wFire, bFire, s);
    }

    method FrontReads(p: D.Pins, arFire: bool, rFire: bool, ghost s: D.Slave)
      requires Shape() && Reads() == s.rd && arFire == D.ArFires(s, p) && rFire == D.RFires(s, p)
      modifies this`rreqQueue, this`rreq, this`owedReads, this`rresp, readIdBusy
      ensures Reads() == D.ReadFront(s, p) && Writes() == old(Writes()) && mm.data[..] == old(mm.data[..])
    {
      ReadPart(p.accept, arFire, rFire, p.ar);
    }

    method FrontWrites(p: D.Pins, awFire: bool, wFire: bool, bFire: bool, ghost s: D.Slave)
      requires Shape() && Writes() == s.wr && mm.data[..] == s.mem && Demanded(mm.g, s, p)
      requires awFire == D.AwFires(s, p) && wFire == D.WFires(s, p) && bFire == D.BFires(s, p)
      modifies this`storeInflight, this`storeAddr, this`storeId, this`storeSize, this`storeCount,
        this`wreq, this`owedWrites, this`bresp, mm.data
      ensures Writes() == D.WriteFront(s, p) && mm.data[..] == D.MemFront(mm.g, s, p) && Reads() == old(Reads())
    {
      WritePart(awFire, wFire, bFire, p.aw, p.w);
    }

    method ReadPart(accept: bool, arFire: bool, rFire: bool, ar: Addr)
      requires Shape() && (rFire ==> rresp != [])
      modifies this`rreqQueue, this`rreq, this`owedReads, this`rresp, readIdBusy
      ensures Reads() == D.ReadStep(old(Reads()), accept, arFire, rFire, ar)
    {
      if accept {
        Issue();
      }
      if arFire {
        rreqQueue := rreqQueue + [R.Req(ar.id, ar.Bytes(), ar.Beats(), ar.addr)];
      }
      if rFire {
        rresp := rresp[1..];
      }
    }

    method WritePart(awFire: bool, wFire: bool, bFire: bool, aw: Addr, w: WBeat)
      requires Shape() && (bFire ==> bresp != []) && !(awFire && wFire)
      requires wFire ==> mm.g.Covers(storeAddr, 1) && storeSize <= 64 && |w.data| == mm.g.Word()
      requires wFire ==> storeInflight && (storeCount == 1 ==> w.last)
      modifies this`storeInflight, this`storeAddr, this`storeId, this`storeSize, this`storeCount,
        this`wreq, this`owedWrites, this`bresp, mm.data
      ensures Writes() == D.WriteStep(old(Writes()), awFire, wFire, bFire, aw)
      ensures wFire ==> mm.data[..] == Stored(mm.g, old(mm.data[..]), old(storeAddr), w.data, w.strb, old(storeSize))
      ensures !wFire ==> mm.data[..] == old(mm.data[..])
    {
      if awFire {
        AcceptAw(aw);
      }
      if wFire {
        StoreBeat(w);
      }
      if bFire {
        bresp := bresp[1..];
      }
    }

    method Tick(p: D.Pins)
      requires Valid() && Demanded(mm.g, Abs(), p)
      modifies this, readIdBusy, mm.data
      ensures Valid() && Abs() == D.Tick(mm.g, old(Abs()), p)
    {
      FrontOk(mm.g, Abs(), p);
      Front(p, Abs());
      Update(p.schedule);
      if p.reset {
        bresp, rresp := [], [];
      }
    }
  }
}
