/** What a read of the composed system returns after a write whose response has been taken, byte by byte. */
module ReadAfterWrite {
  import opened Memory
  import opened Axi
  import opened Stores
  import opened Bursts
  import opened Footprint
  import opened System
  import opened EndToEnd

  /** The memory a read burst saw holds all W beats of AW n; and if the write is size-aligned and no later beat touched
      byte p before the read, then p holds the write's own strobed lane, or what was there before the write where p is
      outside its window or not strobed. */
  ghost predicate SeesWrite(g: Geometry, m0: seq<Byte>, wl: WLog, b: Burst, n: nat, p: nat) {
    && n < |wl.aws|
    && var lo, hi := Beats(wl.aws[..n]), Beats(wl.aws[..n + 1]);
       && lo + wl.aws[n].Beats() == hi <= b.beats <= |wl.beats| && |b.mem| == |m0|
       && (Proper(g, wl.aws[n]) && p < |m0| && Untouched(g, wl.aws, wl.beats, hi, b.beats, p) ==>
             b.mem[p] == ByteAfter(g, MemoryAfter(g, m0, wl.aws, wl.beats[..lo]), wl.aws[n], wl.beats[lo..hi],
                                   wl.aws[n].Beats(), p))
  }

  lemma MemorySees(g: Geometry, m0: seq<Byte>, wl: WLog, b: Burst, n: nat, p: nat)
    requires n < |wl.aws| && Beats(wl.aws[..n + 1]) <= b.beats <= |wl.beats|
    requires b.mem == MemoryAfter(g, m0, wl.aws, wl.beats[..b.beats])
    ensures SeesWrite(g, m0, wl, b, n, p)
  {
    var hi := Beats(wl.aws[..n + 1]);
    EffectsOfBurst(wl.aws, wl.beats, n);
    if Proper(g, wl.aws[n]) && p < |m0| && Untouched(g, wl.aws, wl.beats, hi, b.beats, p) {
      RunLands(g, m0, wl.aws, wl.beats, n, p);
      UntouchedKeeps(g, m0, wl.aws, wl.beats, hi, b.beats, p);
    }
  }

  lemma FreshSees(g: Geometry, m0: seq<Byte>, l: Log, b: Burst, i: nat, p: nat)
    requires ReadIsFresh(g, m0, l, b) && i < b.t.answers
    ensures i < |l.answers| && SeesWrite(g, m0, l.h.wl, b, l.answers[i].n, p)
  {
    assert Covered(l.h.wl, l.answers[i].n, b.beats);
    MemorySees(g, m0, l.h.wl, b, l.answers[i].n, p);
  }

  /** Over any run, a read whose AR was accepted after the B of a write had been taken sees that write, byte by byte. */
  lemma ReadAfterB(g: Geometry, m0: seq<Byte>, run: seq<Cycle>, b: Burst, i: nat, p: nat)
    requires b in Reached(g, m0, run).1.h.rl.done && i < b.t.answers
    ensures var l := Reached(g, m0, run).1;
            i < |l.answers| && SeesWrite(g, m0, l.h.wl, b, l.answers[i].n, p)
  {
    ReadsAreFresh(g, m0, run, b);
    FreshSees(g, m0, Reached(g, m0, run).1, b, i, p);
  }
}
