/** What an upstream write leaves in the slave's memory, in terms of the upstream AW and the W beats on the wires. */
module WriteLands {
  import opened Arithmetic
  import opened Bits
  import opened Memory
  import opened Axi
  import opened Stores
  import opened Footprint
  import FP = Footprint
  import opened IdIndexer
  import opened System
  import opened EndToEnd
  import opened Ports

  /** The W beats that upstream AWs call for. */
  function BeatsBefore(aws: seq<UpAddr>): nat {
    if aws == [] then 0 else BeatsBefore(aws[..|aws| - 1]) + aws[|aws| - 1].len + 1
  }

  lemma {:induction false} BeatsAreUp(aws: seq<Addr>, ups: seq<UpAddr>)
    requires |aws| == |ups| && forall i :: 0 <= i < |aws| ==> aws[i] == Down(ups[i])
    ensures Beats(aws) == BeatsBefore(ups)
    decreases |aws|
  {
    if aws != [] {
      BeatsAreUp(aws[..|aws| - 1], ups[..|ups| - 1]);
    }
  }

  lemma WritesGrow(ms: seq<(Sys, Log)>, y: (Sys, Log), k: nat)
    requires k < |ms|
    requires var a, z := ms[k].1.h.wl, ms[|ms| - 1].1.h.wl; a.aws <= z.aws && a.beats <= z.beats
    requires ms[|ms| - 1].1.h.wl.aws <= y.1.h.wl.aws && ms[|ms| - 1].1.h.wl.beats <= y.1.h.wl.beats
    ensures var a, z := (ms + [y])[k].1.h.wl, y.1.h.wl; a.aws <= z.aws && a.beats <= z.beats
  {}

  /** Earlier moments have shorter logs. */
  lemma {:induction false} MomentGrows(g: Geometry, m0: seq<Byte>, run: seq<Cycle>, k: nat)
    requires k <= |run|
    ensures var ms := Moments(g, m0, run);
            var a, z := ms[k].1.h.wl, ms[|run|].1.h.wl; a.aws <= z.aws && a.beats <= z.beats
    decreases |run|
  {
    if k < |run| {
      var y := LastWrites(g, m0, run);
      MomentGrows(g, m0, run[..|run| - 1], k);
      WritesGrow(Moments(g, m0, run[..|run| - 1]), y, k);
    }
  }

  /** The memory of each moment is the replay of its own log. */
  lemma {:induction false} MomentEngine(g: Geometry, m0: seq<Byte>, run: seq<Cycle>, k: nat)
    requires k <= |run|
    ensures var (x, l) := Moments(g, m0, run)[k]; EngineInv(g, m0, x.s.mem, x.s.wr.store, l.h.wl)
    decreases |run|
  {
    if k == |run| {
      RunEngine(g, m0, run);
    } else {
      var y := LastWrites(g, m0, run);
      MomentEngine(g, m0, run[..|run| - 1], k);
    }
  }

  lemma {:induction false} RunEngine(g: Geometry, m0: seq<Byte>, run: seq<Cycle>)
    ensures var (x, l) := Moments(g, m0, run)[|run|]; EngineInv(g, m0, x.s.mem, x.s.wr.store, l.h.wl)
  {
    ReachedInv(g, m0, run);
  }

  /** The memory of a moment is the replay of its beats with all AWs of the run. */
  lemma ReplayOf(g: Geometry, m0: seq<Byte>, mem: seq<Byte>, st: Store, a: WLog, z: WLog)
    requires EngineInv(g, m0, mem, st, a) && a.aws <= z.aws && a.beats <= z.beats
    ensures mem == MemoryAfter(g, m0, z.aws, z.beats[..|a.beats|])
  {
    BeatsWithin(st, a);
    assert z.beats[..|a.beats|] == a.beats;
    EffectsMoreBursts(a.aws, z.aws, a.beats);
  }

  lemma {:induction false} MomentReplay(g: Geometry, m0: seq<Byte>, run: seq<Cycle>, k: nat)
    requires k <= |run|
    ensures var ms := Moments(g, m0, run);
            var wl := ms[|run|].1.h.wl;
            && |ms[k].1.h.wl.beats| <= |wl.beats|
            && ms[k].0.s.mem == MemoryAfter(g, m0, wl.aws, wl.beats[..|ms[k].1.h.wl.beats|])
  {
    var ms := Moments(g, m0, run);
    MomentGrows(g, m0, run, k);
    MomentEngine(g, m0, run, k);
    ReplayOf(g, m0, ms[k].0.s.mem, ms[k].0.s.wr.store, ms[k].1.h.wl, ms[|run|].1.h.wl);
  }

  /** The upstream write is size-aligned, no wider than the bus, and inside the memory. */
  predicate Storable(g: Geometry, u: UpAddr) {
    && g.Ok() && u.size <= g.lgWord && u.addr % Pow2(u.size) == 0
    && g.base <= u.addr && u.addr + (u.len + 1) * Pow2(u.size) <= g.base + g.size
  }

  /** Byte p of the memory after a write burst: its lane of beat (at - addr) / 2^size if that was strobed, and otherwise
      what it was before; `lo` W beats came before the burst. */
  function Expected(g: Geometry, u: UpAddr, beats: seq<WBeat>, lo: nat, before: Byte, p: nat): Byte
    requires lo + u.len + 1 <= |beats| && p % g.Word() < WIDTH
  {
    var at, b, lane := g.base + p, Pow2(u.size), p % g.Word();
    if u.addr <= at < u.addr + (u.len + 1) * b then
      Quotient(at - u.addr, u.len + 1, b);
      var w := beats[lo + (at - u.addr) / b];
      if w.strb[lane] then ByteAt(w.data, lane) else before
    else before
  }

  lemma Quotient(d: nat, n: nat, b: nat)
    requires b >= 1
    ensures 0 <= d / b && (d < n * b ==> d / b < n)
  {
    DivMod(d, b);
    if d < n * b {
      MulLt(d / b, n, b);
    }
  }

  lemma LaneFits(g: Geometry, p: nat)
    requires g.Ok()
    ensures p % g.Word() < WIDTH
  {
    Pow2Grows(g.lgWord, 6);
    assert Pow2(6) == WIDTH;
  }

  /** The byte rule of one burst, from the form on the slave's AW to the form on the upstream one. */
  lemma ByteIs(
    g: Geometry, m: seq<Byte>, u: UpAddr, aw: Addr, beats: seq<WBeat>, lo: nat, p: nat)
    requires aw.addr == u.addr && aw.size == u.size && aw.len == u.len && p < |m|
    requires lo + u.len + 1 <= |beats| && p % g.Word() < WIDTH
    ensures ByteAfter(g, m, aw, beats[lo..lo + u.len + 1], aw.Beats(), p) == Expected(g, u, beats, lo, m[p], p)
  {
    if aw.addr <= g.base + p {
      SlotWindow(aw, g.base + p, aw.Beats());
    }
  }

  lemma DownFields(u: UpAddr)
    ensures Down(u).addr == u.addr && Down(u).size == u.size && Down(u).len == u.len
  {}

  /** From moment i, with exactly the W beats of the AWs before AW n taken, to moment j, with its own as well, byte p of
      the slave's memory changes as the upstream AW and the beats on the wires say. */
  ghost predicate Lands(g: Geometry, ms: seq<(Sys, Log)>, run: seq<Cycle>, n: nat, i: nat, j: nat, p: nat)
    requires |ms| == |run| + 1 && i <= |run| && j <= |run| && n < |ms[|run|].1.aws|
  {
    var u, lo, beats := ms[|run|].1.aws[n], BeatsBefore(ms[|run|].1.aws[..n]), TakenW(ms, run);
    var before, after := ms[i].0.s.mem, ms[j].0.s.mem;
    |TakenW(ms, run[..i])| == lo && |TakenW(ms, run[..j])| == lo + u.len + 1 ==>
      && lo + u.len + 1 <= |beats| && p % g.Word() < WIDTH && p < |before| == |after|
      && after[p] == Expected(g, u, beats, lo, before[p], p)
  }

  lemma {:induction false} LandsIn(
    g: Geometry, m0: seq<Byte>, ms: seq<(Sys, Log)>, run: seq<Cycle>, n: nat, i: nat, j: nat, p: nat)
    requires |ms| == |run| + 1 && i <= |run| && j <= |run| && n < |ms[|run|].1.aws|
    requires Storable(g, ms[|run|].1.aws[n]) && p < |m0|
    requires MemoryAt(g, m0, ms, run, i) && MemoryAt(g, m0, ms, run, j)
    requires Indexed(ms[|run|].1) && ms[|run|].1.h.wl.beats == TakenW(ms, run)
    ensures Lands(g, ms, run, n, i, j, p)
  {
    var z := ms[|run|].1;
    var u, lo := z.aws[n], BeatsBefore(z.aws[..n]);
    UpBounds(z, n);
    if |TakenW(ms, run[..i])| == lo && |TakenW(ms, run[..j])| == lo + u.len + 1 {
      LandsFrom(g, m0, z.h.wl, u, n, lo, ms[i].0.s.mem, ms[j].0.s.mem, p);
    }
  }

  /** The memory of a moment, by the number of W beats taken until then. */
  ghost predicate MemoryAt(g: Geometry, m0: seq<Byte>, ms: seq<(Sys, Log)>, run: seq<Cycle>, k: nat)
    requires |ms| == |run| + 1 && k <= |run|
  {
    var wl, taken := ms[|run|].1.h.wl, |TakenW(ms, run[..k])|;
    taken <= |wl.beats| && ms[k].0.s.mem == MemoryAfter(g, m0, wl.aws, wl.beats[..taken])
  }

  /** Over any run, any accepted upstream AW that is aligned, fits the bus and lies in the memory lands: its strobed
      bytes of [addr, addr + (len + 1) * 2^size), and no others. */
  lemma {:induction false} UpstreamWriteLands(
    g: Geometry, m0: seq<Byte>, run: seq<Cycle>, n: nat, i: nat, j: nat, p: nat)
    requires i <= |run| && j <= |run| && p < |m0|
    requires n < |Moments(g, m0, run)[|run|].1.aws| && Storable(g, Moments(g, m0, run)[|run|].1.aws[n])
    ensures Lands(g, Moments(g, m0, run), run, n, i, j, p)
  {
    MomentMemory(g, m0, run, i);
    MomentMemory(g, m0, run, j);
    RunWrites(g, m0, run);
    LandsIn(g, m0, Moments(g, m0, run), run, n, i, j, p);
  }

  lemma {:induction false} MomentMemory(g: Geometry, m0: seq<Byte>, run: seq<Cycle>, k: nat)
    requires k <= |run|
    ensures MemoryAt(g, m0, Moments(g, m0, run), run, k)
  {
    BeatsExactly(g, m0, run, k);
    MomentReplay(g, m0, run, k);
  }

  lemma {:induction false} RunWrites(g: Geometry, m0: seq<Byte>, run: seq<Cycle>)
    ensures var ms := Moments(g, m0, run); Indexed(ms[|run|].1) && ms[|run|].1.h.wl.beats == TakenW(ms, run)
  {
    ReachedInv(g, m0, run);
    BeatsExactly(g, m0, run, |run|);
    assert run[..|run|] == run;
  }

  lemma LandsFrom(g: Geometry, m0: seq<Byte>, wl: WLog, u: UpAddr, n: nat, lo: nat, mem: seq<Byte>, mem': seq<Byte>,
                  p: nat)
    requires n < |wl.aws| && wl.aws[n] == Down(u) && Storable(g, u) && p < |m0|
    requires Beats(wl.aws[..n]) == lo && Beats(wl.aws[..n + 1]) == lo + u.len + 1 <= |wl.beats|
    requires mem == MemoryAfter(g, m0, wl.aws, wl.beats[..lo])
    requires mem' == MemoryAfter(g, m0, wl.aws, wl.beats[..lo + u.len + 1])
    ensures p % g.Word() < WIDTH && |mem| == |mem'| == |m0| && mem'[p] == Expected(g, u, wl.beats, lo, mem[p], p)
  {
    LandsOne(g, m0, wl, u, n, lo, p);
  }

  lemma LandsOne(g: Geometry, m0: seq<Byte>, wl: WLog, u: UpAddr, n: nat, lo: nat, p: nat)
    requires n < |wl.aws| && wl.aws[n] == Down(u) && Storable(g, u) && p < |m0|
    requires Beats(wl.aws[..n]) == lo && Beats(wl.aws[..n + 1]) == lo + u.len + 1 <= |wl.beats|
    ensures p % g.Word() < WIDTH
    ensures MemoryAfter(g, m0, wl.aws, wl.beats[..lo + u.len + 1])[p] ==
            Expected(g, u, wl.beats, lo, MemoryAfter(g, m0, wl.aws, wl.beats[..lo])[p], p)
  {
    LaneFits(g, p);
    StorableDown(g, u);
    RunLands(g, m0, wl.aws, wl.beats, n, p);
    LandsAt(g, MemoryAfter(g, m0, wl.aws, wl.beats[..lo]), MemoryAfter(g, m0, wl.aws, wl.beats[..lo + u.len + 1]),
            u, wl.beats, lo, p);
  }

  lemma StorableDown(g: Geometry, u: UpAddr)
    requires Storable(g, u)
    ensures FP.Proper(g, Down(u))
  {
    DownFields(u);
  }

  lemma LandsAt(g: Geometry, m: seq<Byte>, m': seq<Byte>, u: UpAddr, beats: seq<WBeat>, lo: nat, p: nat)
    requires lo + u.len + 1 <= |beats| && p % g.Word() < WIDTH && p < |m| == |m'|
    requires m'[p] == ByteAfter(g, m, Down(u), beats[lo..lo + u.len + 1], Down(u).Beats(), p)
    ensures m'[p] == Expected(g, u, beats, lo, m[p], p)
  {
    DownFields(u);
    ByteIs(g, m, u, Down(u), beats, lo, p);
  }

  /** Where the burst of an upstream AW begins and ends among the W beats. */
  lemma UpBounds(l: Log, n: nat)
    requires Indexed(l) && n < |l.aws|
    ensures Beats(l.h.wl.aws[..n]) == BeatsBefore(l.aws[..n]) && l.h.wl.aws[n] == Down(l.aws[n])
    ensures Beats(l.h.wl.aws[..n + 1]) == BeatsBefore(l.aws[..n]) + l.aws[n].len + 1
  {
    BeatsAreUp(l.h.wl.aws[..n], l.aws[..n]);
    BeatsAreUp(l.h.wl.aws[..n + 1], l.aws[..n + 1]);
    assert l.aws[..n + 1][..n] == l.aws[..n];
  }
}
