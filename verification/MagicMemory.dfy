/** mm_magic_t: the slave that answers at once. */
module MagicMemory {
  import opened Arithmetic
  import opened Seqs
  import opened Memory
  import opened Axi
  import opened Stores
  import opened Bursts

  datatype State = State(mem: seq<Byte>, store: Store, rresp: seq<RBeat>, bresp: seq<Id4>)

  datatype Pins = Pins(
    reset: bool, arValid: bool, ar: Addr, awValid: bool, aw: Addr, wValid: bool, w: WBeat, rReady: bool, bReady: bool)

  // All fire flags are taken from the state before the tick; ar_ready is constantly true.

  predicate ArFires(p: Pins) {
    !p.reset && p.arValid
  }

  predicate AwFires(s: State, p: Pins) {
    !p.reset && p.awValid && !s.store.inflight
  }

  predicate WFires(s: State, p: Pins) {
    !p.reset && p.wValid && s.store.inflight
  }

  predicate RFires(s: State, p: Pins) {
    !p.reset && s.rresp != [] && p.rReady
  }

  predicate BFires(s: State, p: Pins) {
    !p.reset && s.bresp != [] && p.bReady
  }

  /** An AR reads the memory before the same tick's W beat is stored. */
  function Tick(g: Geometry, s: State, p: Pins): State {
    var rs := if ArFires(p) then s.rresp + ReadBeats(g, s.mem, p.ar.id, p.ar.addr, p.ar.Beats()) else s.rresp;
    var st := if AwFires(s, p) then Begin(p.aw) else if WFires(s, p) then Advance(s.store) else s.store;
    var mem := if WFires(s, p) then Stored(g, s.mem, s.store.addr, p.w.data, p.w.strb, s.store.size) else s.mem;
    var bs := if WFires(s, p) && st.count == 0 then s.bresp + [st.id] else s.bresp;
    if p.reset then State(mem, st, [], [])
    else State(mem, st, if RFires(s, p) then rs[1..] else rs, if BFires(s, p) then bs[1..] else bs)
  }

  /** What the assertions of the source ask of the bus: reads and stores inside the memory, transfers the strobe can
      describe, and `last` on the beat that ends a burst. */
  predicate Asked(g: Geometry, s: State, p: Pins) {
    && (ArFires(p) ==> g.Covers(Aligned(g, p.ar.addr), p.ar.Beats() * g.Word()))
    && (WFires(s, p) ==>
         && g.Covers(s.store.addr, 1) && s.store.size <= 64 && |p.w.data| == g.Word()
         && (s.store.count == 1 ==> p.w.last))
  }

  function Initial(mem: seq<Byte>): State {
    State(mem, Store(false, 0, 0, 0, 0), [], [])
  }

  // Runs against an atomic byte memory.

  /** Accepted writes; the bursts of the accepted ARs, in AR order, of which m whole ones and c beats of the next were
      taken; and the R beats and B IDs taken. */
  datatype Log = Log(wl: WLog, ars: seq<Addr>, bursts: seq<Burst>, m: nat, c: nat, rTaken: seq<RBeat>, bTaken: seq<Id4>)

  function IdOf(): Addr -> Id4 {
    (a: Addr) => a.id
  }

  function ArOf(): Burst -> Addr {
    (b: Burst) => b.t.ar
  }

  function TickLog(s: State, l: Log, p: Pins): Log {
    var wl := if AwFires(s, p) then LogAw(l.wl, p.aw) else if WFires(s, p) then LogW(s.store, l.wl, p.w) else l.wl;
    var t := Ticket(p.ar, |l.ars|, |l.wl.beats|, |l.bTaken|);
    var last := RFires(s, p) && s.rresp[0].last;
    Log(wl,
        if ArFires(p) then l.ars + [p.ar] else l.ars,
        if ArFires(p) then l.bursts + [Burst(t, s.mem, |l.wl.beats|)] else l.bursts,
        if last then l.m + 1 else l.m,
        if last then 0 else if RFires(s, p) then l.c + 1 else l.c,
        if RFires(s, p) then l.rTaken + [s.rresp[0]] else l.rTaken,
        if BFires(s, p) then l.bTaken + [s.bresp[0]] else l.bTaken)
  }

  const EmptyLog := Log(WLog([], [], 0), [], [], 0, 0, [], [])

  /** The burst was read from the reference memory as it was at the end of the tick before its AR's. */
  ghost predicate Snapshot(g: Geometry, m0: seq<Byte>, wl: WLog, b: Burst) {
    b.beats == b.t.beats <= |wl.beats| && b.mem == MemoryAfter(g, m0, wl.aws, wl.beats[..b.beats])
  }

  /** Burst j answers AR j. */
  ghost predicate Snapshots(g: Geometry, m0: seq<Byte>, l: Log) {
    l.ars == Map(l.bursts, ArOf()) && forall j :: 0 <= j < |l.bursts| ==> Snapshot(g, m0, l.wl, l.bursts[j])
  }

  /** Responses to finished bursts, in AW order. */
  ghost predicate Responses(s: State, l: Log) {
    l.wl.finished <= |l.wl.aws| && l.bTaken + s.bresp == Map(l.wl.aws[..l.wl.finished], IdOf())
  }

  ghost predicate Inv(g: Geometry, m0: seq<Byte>, s: State, l: Log) {
    && EngineInv(g, m0, s.mem, s.store, l.wl)
    && Stream(g, l.bursts, l.m, l.c, l.rTaken, s.rresp)
    && Responses(s, l)
    && Snapshots(g, m0, l)
  }

  lemma TickEngine(g: Geometry, m0: seq<Byte>, s: State, l: Log, p: Pins)
    requires EngineInv(g, m0, s.mem, s.store, l.wl) && !p.reset
    ensures EngineInv(g, m0, Tick(g, s, p).mem, Tick(g, s, p).store, TickLog(s, l, p).wl)
  {
    if AwFires(s, p) {
      BeginKeeps(g, m0, s.mem, s.store, l.wl, p.aw);
    } else if WFires(s, p) {
      AdvanceKeeps(g, m0, s.mem, s.store, l.wl, p.w);
    }
  }

  lemma TailOfSum<T>(a: seq<T>, b: seq<T>)
    requires a != []
    ensures (a + b)[1..] == a[1..] + b
  {}

  function Popped(s: State, p: Pins): seq<RBeat> {
    if RFires(s, p) then s.rresp[1..] else s.rresp
  }

  lemma TickResp(g: Geometry, s: State, p: Pins)
    requires !p.reset
    ensures Tick(g, s, p).rresp
            == if ArFires(p) then Popped(s, p) + ReadBeats(g, s.mem, p.ar.id, p.ar.addr, p.ar.Beats()) else Popped(s, p)
  {
    if RFires(s, p) {
      TailOfSum(s.rresp, ReadBeats(g, s.mem, p.ar.id, p.ar.addr, p.ar.Beats()));
    }
  }

  lemma PoppedStream(g: Geometry, s: State, l: Log, p: Pins)
    requires Stream(g, l.bursts, l.m, l.c, l.rTaken, s.rresp)
    ensures var l' := TickLog(s, l, p); Stream(g, l.bursts, l'.m, l'.c, l'.rTaken, Popped(s, p))
  {
    if RFires(s, p) {
      StreamPop(g, l.bursts, l.m, l.c, l.rTaken, s.rresp);
    }
  }

  lemma TickStream(g: Geometry, s: State, l: Log, p: Pins)
    requires Stream(g, l.bursts, l.m, l.c, l.rTaken, s.rresp) && !p.reset
    ensures var l' := TickLog(s, l, p); Stream(g, l'.bursts, l'.m, l'.c, l'.rTaken, Tick(g, s, p).rresp)
  {
    var l' := TickLog(s, l, p);
    PoppedStream(g, s, l, p);
    TickResp(g, s, p);
    if ArFires(p) {
      StreamPush(g, l.bursts, l'.m, l'.c, l'.rTaken, Popped(s, p), l'.bursts[|l.bursts|]);
    }
  }

  /** The B queue with the B of a burst that the tick finishes. */
  function Answered(s: State, p: Pins): seq<Id4> {
    if WFires(s, p) && s.store.count == 1 then s.bresp + [s.store.id] else s.bresp
  }

  lemma TickAnswers(s: State, l: Log, p: Pins)
    requires Responses(s, l) && Counted(s.store, l.wl) && !p.reset
    ensures var wl' := TickLog(s, l, p).wl;
            wl'.finished <= |wl'.aws| && l.bTaken + Answered(s, p) == Map(wl'.aws[..wl'.finished], IdOf())
  {
    var n, wl' := l.wl.finished, TickLog(s, l, p).wl;
    if AwFires(s, p) {
      assert wl'.aws[..n] == l.wl.aws[..n];
    } else if WFires(s, p) && s.store.count == 1 {
      assert l.wl.aws[..n + 1] == l.wl.aws[..n] + [l.wl.aws[n]];
      MapSnoc(l.wl.aws[..n], l.wl.aws[n], IdOf());
    }
  }

  lemma TakeFirst(taken: seq<Id4>, queued: seq<Id4>, first: Id4)
    requires queued != [] && queued[0] == first
    ensures taken + [first] + queued[1..] == taken + queued
  {}

  lemma TickResponses(g: Geometry, s: State, l: Log, p: Pins)
    requires Responses(s, l) && Counted(s.store, l.wl) && !p.reset
    ensures Responses(Tick(g, s, p), TickLog(s, l, p))
  {
    TickAnswers(s, l, p);
    if BFires(s, p) {
      TakeFirst(l.bTaken, Answered(s, p), s.bresp[0]);
    }
  }

  lemma SnapshotGrows(g: Geometry, m0: seq<Byte>, wl: WLog, wl': WLog, b: Burst)
    requires Snapshot(g, m0, wl, b) && wl.aws <= wl'.aws && wl.beats <= wl'.beats && |wl.beats| <= Beats(wl.aws)
    ensures Snapshot(g, m0, wl', b)
  {
    assert wl'.beats[..b.beats] == wl.beats[..b.beats];
    EffectsMoreBursts(wl.aws, wl'.aws, wl.beats[..b.beats]);
  }

  lemma NewSnapshot(g: Geometry, m0: seq<Byte>, wl: WLog, b: Burst)
    requires b.mem == MemoryAfter(g, m0, wl.aws, wl.beats) && b.t.beats == b.beats == |wl.beats|
    ensures Snapshot(g, m0, wl, b)
  {
    assert wl.beats[..b.beats] == wl.beats;
  }

  lemma TickSnapshots(g: Geometry, m0: seq<Byte>, s: State, l: Log, p: Pins)
    requires Snapshots(g, m0, l) && EngineInv(g, m0, s.mem, s.store, l.wl) && !p.reset
    ensures Snapshots(g, m0, TickLog(s, l, p))
  {
    var l' := TickLog(s, l, p);
    BeatsWithin(s.store, l.wl);
    forall j | 0 <= j < |l.bursts|
      ensures Snapshot(g, m0, l'.wl, l.bursts[j])
    {
      SnapshotGrows(g, m0, l.wl, l'.wl, l.bursts[j]);
    }
    if ArFires(p) {
      var b := l'.bursts[|l.bursts|];
      MapSnoc(l.bursts, b, ArOf());
      NewSnapshot(g, m0, l.wl, b);
      SnapshotGrows(g, m0, l.wl, l'.wl, b);
    }
  }

  lemma TickKeeps(g: Geometry, m0: seq<Byte>, s: State, l: Log, p: Pins)
    requires Inv(g, m0, s, l) && !p.reset
    ensures Inv(g, m0, Tick(g, s, p), TickLog(s, l, p))
  {
    TickEngine(g, m0, s, l, p);
    TickStream(g, s, l, p);
    TickResponses(g, s, l, p);
    TickSnapshots(g, m0, s, l, p);
  }

  /** Moment k of a run is the slave and its log after the first k ticks. */
  function Moments(g: Geometry, m0: seq<Byte>, run: seq<Pins>): (r: seq<(State, Log)>)
    ensures |r| == |run| + 1
  {
    if run == [] then [(Initial(m0), EmptyLog)]
    else
      var n := |run| - 1;
      var ms := Moments(g, m0, run[..n]);
      ms + [(Tick(g, ms[n].0, run[n]), TickLog(ms[n].0, ms[n].1, run[n]))]
  }

  function Ran(g: Geometry, m0: seq<Byte>, run: seq<Pins>): (State, Log) {
    Moments(g, m0, run)[|run|]
  }

  lemma {:induction false} RanInv(g: Geometry, m0: seq<Byte>, run: seq<Pins>)
    requires forall i :: 0 <= i < |run| ==> !run[i].reset
    ensures Inv(g, m0, Ran(g, m0, run).0, Ran(g, m0, run).1)
  {
    if run == [] {
      assert Beats(EmptyLog.wl.aws) == 0;
    } else {
      var n := |run| - 1;
      RanInv(g, m0, run[..n]);
      TickKeeps(g, m0, Ran(g, m0, run[..n]).0, Ran(g, m0, run[..n]).1, run[n]);
    }
  }

  /** The array is the reference memory after all accepted W beats; the R beats delivered are a prefix of the ARs'
      bursts, in AR order, each read from the memory as it was at the end of the previous tick; and the B IDs delivered
      are a prefix of the finished AWs' IDs, in AW order. */
  ghost predicate Refines(g: Geometry, m0: seq<Byte>, s: State, l: Log) {
    && s.mem == MemoryAfter(g, m0, l.wl.aws, l.wl.beats)
    && Snapshots(g, m0, l) && l.rTaken <= Flatten(g, l.bursts)
    && l.wl.finished <= |l.wl.aws| && l.bTaken <= Map(l.wl.aws[..l.wl.finished], IdOf())
  }

  lemma {:induction false} StreamIsPrefix(g: Geometry, l: Log, queued: seq<RBeat>)
    requires Stream(g, l.bursts, l.m, l.c, l.rTaken, queued)
    ensures l.rTaken <= Flatten(g, l.bursts)
  {
    FlattenSplit(g, l.bursts, l.m);
  }

  /** The AR of burst j is accepted in tick k, and the burst holds the memory as it was when that tick began. */
  predicate ReadInTick(ms: seq<(State, Log)>, j: nat, b: Burst, k: nat)
    requires k + 1 < |ms|
  {
    && |ms[k].1.ars| == j && |ms[k + 1].1.ars| == j + 1
    && b.mem == ms[k].0.mem
  }

  ghost predicate ReadOnce(ms: seq<(State, Log)>, j: nat, b: Burst) {
    exists k :: 0 <= k < |ms| - 1 && ReadInTick(ms, j, b, k)
  }

  lemma NextMoment(ms: seq<(State, Log)>, y: (State, Log), j: nat, b: Burst)
    requires ms != [] && (ReadOnce(ms, j, b) || ReadInTick([ms[|ms| - 1], y], j, b, 0))
    ensures ReadOnce(ms + [y], j, b)
  {
    var n := |ms| - 1;
    if ReadInTick([ms[n], y], j, b, 0) {
      assert ReadInTick(ms + [y], j, b, n);
    } else {
      var k :| 0 <= k < n && ReadInTick(ms, j, b, k);
      assert ReadInTick(ms + [y], j, b, k);
    }
  }

  lemma TickReads(g: Geometry, s: State, l: Log, p: Pins, j: nat)
    requires |l.ars| == |l.bursts| <= j < |TickLog(s, l, p).bursts|
    ensures ReadInTick([(s, l), (Tick(g, s, p), TickLog(s, l, p))], j, TickLog(s, l, p).bursts[j], 0)
  {}

  /** Every burst of a run holds the memory of the end of the tick before its AR's. */
  lemma {:induction false} ReadsPreviousTick(g: Geometry, m0: seq<Byte>, run: seq<Pins>, j: nat)
    requires forall i :: 0 <= i < |run| ==> !run[i].reset
    requires j < |Ran(g, m0, run).1.bursts|
    ensures ReadOnce(Moments(g, m0, run), j, Ran(g, m0, run).1.bursts[j])
    decreases |run|
  {
    if run != [] {
      var n := |run| - 1;
      var ms := Moments(g, m0, run[..n]);
      var (s, l) := ms[n];
      RanInv(g, m0, run[..n]);
      if j < |l.bursts| {
        ReadsPreviousTick(g, m0, run[..n], j);
      } else {
        TickReads(g, s, l, run[n], j);
      }
      NextMoment(ms, (Tick(g, s, run[n]), TickLog(s, l, run[n])), j, Ran(g, m0, run).1.bursts[j]);
    }
  }

  /** What a tick accepts and delivers, by its pins: every AR; an AW when no burst is in flight, a W beat when one is; R
      and B beats when there is one and the master is ready. */
  lemma TickHandshakes(s: State, l: Log, p: Pins)
    requires !p.reset
    ensures var l' := TickLog(s, l, p);
            && l'.ars == l.ars + (if p.arValid then [p.ar] else [])
            && l'.wl.aws == l.wl.aws + (if p.awValid && !s.store.inflight then [p.aw] else [])
            && l'.wl.beats == l.wl.beats + (if p.wValid && s.store.inflight then [p.w] else [])
            && l'.rTaken == l.rTaken + (if p.rReady && s.rresp != [] then [s.rresp[0]] else [])
            && l'.bTaken == l.bTaken + (if p.bReady && s.bresp != [] then [s.bresp[0]] else [])
  {}

  /** Without a W beat on the wires the memory stays, and without a ready master so does the queue it would take from.
       */
  lemma IdleTick(g: Geometry, s: State, p: Pins)
    requires !p.reset
    ensures !p.wValid ==> Tick(g, s, p).mem == s.mem
    ensures !p.rReady && !p.arValid ==> Tick(g, s, p).rresp == s.rresp
    ensures !p.bReady && !p.wValid ==> Tick(g, s, p).bresp == s.bresp
  {}

  /** Under reset nothing is accepted, and the response queues are lost. */
  lemma ResetTick(g: Geometry, s: State, p: Pins)
    requires p.reset
    ensures Tick(g, s, p) == State(s.mem, s.store, [], [])
  {}

  /** Every run refines an atomic byte memory. */
  lemma RefinesByteMemory(g: Geometry, m0: seq<Byte>, run: seq<Pins>)
    requires forall i :: 0 <= i < |run| ==> !run[i].reset
    ensures Refines(g, m0, Ran(g, m0, run).0, Ran(g, m0, run).1)
  {
    RanInv(g, m0, run);
    var (s, l) := Ran(g, m0, run);
    StreamIsPrefix(g, l, s.rresp);
  }

  // The class.

  class MagicMm {
    const mm: Mm
    var storeInflight: bool
    var storeAddr: nat
    var storeId: Id4
    var storeSize: nat
    var storeCount: int
    var bresp: seq<Id4>
    var rresp: seq<RBeat>

    ghost predicate Valid() {
      mm.Valid()
    }

    ghost function Abs(): State
      reads this, mm.data
    {
      State(mm.data[..], Store(storeInflight, storeAddr, storeId, storeSize, storeCount), rresp, bresp)
    }

    constructor (mm: Mm)
      requires mm.Valid()
      ensures Valid() && this.mm == mm && Abs() == Initial(mm.data[..])
    {
      this.mm := mm;
      storeInflight, storeAddr, storeId, storeSize, storeCount := false, 0, 0, 0, 0;
      bresp, rresp := [], [];
    }

    /** The word loop of an AR. */
    method PushBurst(ar: Addr)
      requires Valid() && mm.g.Covers(Aligned(mm.g, ar.addr), ar.Beats() * mm.g.Word())
      modifies this`rresp
      ensures rresp == old(rresp) + ReadBeats(mm.g, mm.data[..], ar.id, ar.addr, ar.Beats())
    {
      var start := Aligned(mm.g, ar.addr);
      ghost var beats := ReadBeats(mm.g, mm.data[..], ar.id, ar.addr, ar.Beats());
      for i := 0 to ar.Beats()
        invariant rresp == old(rresp) + beats[..i]
      {
        WordInBurst(mm.g, start, i, ar.Beats());
        var dat := mm.Read(start + i * mm.g.Word());
        assert beats[..i + 1] == beats[..i] + [beats[i]];
        rresp := rresp + [RBeat(ar.id, dat, i == ar.len)];
      }
      assert beats[..ar.Beats()] == beats;
    }

    /** One W beat: store it, move on, and respond after the last. */
    method StoreBeat(w: WBeat)
      requires Valid() && mm.g.Covers(storeAddr, 1) && storeSize <= 64 && |w.data| == mm.g.Word()
      requires storeInflight && (storeCount == 1 ==> w.last)
      modifies this`storeInflight, this`storeAddr, this`storeCount, this`bresp, mm.data
      ensures mm.data[..] == Stored(mm.g, old(mm.data[..]), old(storeAddr), w.data, w.strb, storeSize)
      ensures Store(storeInflight, storeAddr, storeId, storeSize, storeCount) == Advance(old(Abs().store))
      ensures bresp == if storeCount == 0 then old(bresp) + [storeId] else old(bresp)
    {
      mm.Write(storeAddr, w.data, w.strb, storeSize);
      storeAddr, storeCount := storeAddr + storeSize, storeCount - 1;
      if storeCount == 0 {
        storeInflight, bresp := false, bresp + [storeId];
        assert w.last;
      }
    }

    method WritePart(awFire: bool, wFire: bool, bFire: bool, aw: Addr, w: WBeat)
      requires Valid() && (bFire ==> bresp != []) && !(awFire && wFire)
      requires wFire ==> mm.g.Covers(storeAddr, 1) && storeSize <= 64 && |w.data| == mm.g.Word()
      requires wFire ==> storeInflight && (storeCount == 1 ==> w.last)
      modifies this`storeInflight, this`storeAddr, this`storeId, this`storeSize, this`storeCount, this`bresp, mm.data
      ensures mm.data[..] ==
              if wFire then Stored(mm.g, old(mm.data[..]), old(storeAddr), w.data, w.strb, old(storeSize))
              else old(mm.data[..])
      ensures Abs().store == if awFire then Begin(aw) else if wFire then Advance(old(Abs().store)) else old(Abs().store)
      ensures var bs := if wFire && storeCount == 0 then old(bresp) + [storeId] else old(bresp);
              bresp == if bFire then bs[1..] else bs
    {
      if awFire {
        storeAddr, storeId, storeCount := aw.addr, aw.id, aw.len + 1;
        storeSize, storeInflight := aw.Bytes(), true;
      }
      if wFire {
        StoreBeat(w);
      }
      if bFire {
        bresp := bresp[1..];
      }
    }

    /** The write side of a tick from state s. */
    method WriteFront(p: Pins, awFire: bool, wFire: bool, bFire: bool, ghost s: State)
      requires Valid() && Asked(mm.g, s, p) && Abs() == s.(rresp := rresp)
      requires awFire == AwFires(s, p) && wFire == WFires(s, p) && bFire == BFires(s, p)
      modifies this`storeInflight, this`storeAddr, this`storeId, this`storeSize, this`storeCount, this`bresp, mm.data
      ensures !p.reset ==> Abs() == Tick(mm.g, s, p).(rresp := rresp)
      ensures p.reset ==> Abs() == s.(rresp := rresp)
    {
      WritePart(awFire, wFire, bFire, p.aw, p.w);
    }

    method Step(p: Pins)
      requires Valid() && Asked(mm.g, Abs(), p)
      modifies this, mm.data
      ensures Abs() == Tick(mm.g, old(Abs()), p)
    {
      var arFire := !p.reset && p.arValid;
      var awFire := !p.reset && p.awValid && !storeInflight;
      var wFire := !p.reset && p.wValid && storeInflight;
      var rFire := !p.reset && rresp != [] && p.rReady;
      var bFire := !p.reset && bresp != [] && p.bReady;
      ghost var s := Abs();
      if arFire {
        PushBurst(p.ar);
      }
      WriteFront(p, awFire, wFire, bFire, s);
      if rFire {
        rresp := rresp[1..];
      }
      if p.reset {
        bresp, rresp := [], [];
      }
    }
  }

  lemma WordInBurst(g: Geometry, start: nat, i: nat, n: nat)
    requires g.Covers(start, n * g.Word()) && i < n
    ensures 0 <= i * g.Word() && g.Covers(start + i * g.Word(), g.Word())
  {
    MulLe(i + 1, n, g.Word());
    assert (i + 1) * g.Word() == i * g.Word() + g.Word();
  }
}
