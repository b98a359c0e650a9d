/** Which bytes a write burst touches, against the INCR byte-lane rule of section A3.4.1 of ARM IHI 0022E. */
module Footprint {
  import opened Arithmetic
  import opened Seqs
  import opened Bits
  import opened Memory
  import opened Axi
  import opened Stores

  /** A size-aligned burst of transfers no wider than the bus, inside the memory. */
  predicate Proper(g: Geometry, aw: Addr) {
    && g.Ok() && aw.size <= g.lgWord
    && aw.addr % aw.Bytes() == 0
    && g.Covers(aw.addr, aw.Beats() * aw.Bytes())
  }

  // Arithmetic of aligned transfers.

  /** A multiple of b below W, b dividing W, leaves room for b more. */
  lemma RoomInWord(b: nat, c: nat, off: nat)
    requires b >= 1 && off % b == 0 && off < b * c
    ensures off + b <= b * c
  {
    DivMod(off, b);
    var d := off / b;
    MulLt(d, c, b);
    MulLe(d + 1, c, b);
  }

  lemma AddMultiple(r: nat, k: nat, b: nat)
    requires b >= 1
    ensures (k * b + r) % b == r % b
  {
    DivMod(r, b);
    Distribute(k, r / b, b);
    DivUnique(k * b + r, k + r / b, r % b, b);
  }

  lemma Associate(x: int, y: int, b: int)
    ensures x * (b * y) == (x * y) * b
  {}

  lemma ModOfMultiple(a: nat, b: nat, c: nat)
    requires b >= 1 && b * c >= 1
    ensures (a % (b * c)) % b == a % b
  {
    DivMod(a, b * c);
    Associate(a / (b * c), c, b);
    AddMultiple(a % (b * c), (a / (b * c)) * c, b);
  }

  /** An aligned transfer stays in its word. */
  lemma {:induction false} AlignedFits(g: Geometry, size: nat, rel: nat)
    requires size <= g.lgWord && rel % Pow2(size) == 0
    ensures rel % g.Word() + Pow2(size) <= g.Word()
  {
    var b, c := Pow2(size), Pow2(g.lgWord - size);
    Pow2Splits(size, g.lgWord);
    ModOfMultiple(rel, b, c);
    RoomInWord(b, c, rel % g.Word());
  }

  lemma MultipleMinus(n: nat, m: nat, b: nat)
    requires b >= 1 && m <= n && n % b == 0 && m % b == 0
    ensures (n - m) % b == 0
  {
    DivMod(n, b);
    DivMod(m, b);
    Distribute(n / b, 1, b);
    MulLt(m / b, n / b + 1, b);
    Distribute(n / b - m / b, m / b, b);
    DivUnique(n - m, n / b - m / b, 0, b);
  }

  lemma {:induction false} BaseAligned(g: Geometry, size: nat, addr: nat)
    requires g.Ok() && size <= g.lgWord && g.base <= addr && addr % Pow2(size) == 0
    ensures (addr - g.base) % Pow2(size) == 0
  {
    Pow2Splits(size, g.lgWord);
    ModOfMultiple(g.base, Pow2(size), Pow2(g.lgWord - size));
    MultipleMinus(addr, g.base, Pow2(size));
  }

  /** An aligned transfer stores exactly the strobed bytes of [addr, addr + size). */
  lemma {:induction false} AlignedHits(g: Geometry, addr: nat, strb: Word64, size: nat, p: nat)
    requires g.Ok() && size <= g.lgWord && g.base <= addr && addr % Pow2(size) == 0
    ensures p % g.Word() < WIDTH
    ensures Hits(g, addr, strb, Pow2(size), p) <==>
            addr <= g.base + p < addr + Pow2(size) && strb[p % g.Word()]
  {
    var w, b, rel := g.Word(), Pow2(size), addr - g.base;
    BaseAligned(g, size, addr);
    AlignedFits(g, size, rel);
    SameWord(w, p, rel);
    Pow2Grows(g.lgWord, 6);
    assert Pow2(6) == WIDTH;
    DivMod(p, w);
    DivMod(rel, w);
  }

  // Whole bursts.

  /** The beat of a burst that carries address `at`. */
  function Slot(aw: Addr, at: nat): nat
    requires aw.addr <= at
  {
    DivMod(at - aw.addr, aw.Bytes());
    (at - aw.addr) / aw.Bytes()
  }

  /** The first k beats of a burst cover [addr, addr + k * size). */
  lemma SlotWindow(aw: Addr, at: nat, k: nat)
    requires aw.addr <= at
    ensures Slot(aw, at) < k <==> at < aw.addr + k * aw.Bytes()
    ensures Slot(aw, at) == k <==> aw.addr + k * aw.Bytes() <= at < aw.addr + k * aw.Bytes() + aw.Bytes()
  {
    var d, b := at - aw.addr, aw.Bytes();
    DivMod(d, b);
    Distribute(d / b, 1, b);
    if d / b < k {
      MulLe(d / b + 1, k, b);
    } else {
      MulLe(k, d / b, b);
    }
    if k * b <= d < k * b + b {
      DivUnique(d, k, d - k * b, b);
    }
  }

  /** Byte p after the first k beats of a burst. */
  function ByteAfter(g: Geometry, m: seq<Byte>, aw: Addr, beats: seq<WBeat>, k: nat, p: nat): Byte
    requires k <= |beats|
  {
    var at, lane := g.base + p, p % g.Word();
    if aw.addr <= at && Slot(aw, at) < k && lane < WIDTH && beats[Slot(aw, at)].strb[lane]
    then ByteAt(beats[Slot(aw, at)].data, lane)
    else ByteAt(m, p)
  }

  lemma BeatAligned(aw: Addr, k: nat)
    requires aw.addr % aw.Bytes() == 0
    ensures (aw.addr + k * aw.Bytes()) % aw.Bytes() == 0
  {
    AddMultiple(aw.addr, k, aw.Bytes());
  }

  /** Beat k stores byte p exactly when p is in slot k and its lane's strobe is set. */
  lemma BeatHits(g: Geometry, aw: Addr, k: nat, strb: Word64, p: nat)
    requires Proper(g, aw)
    ensures p % g.Word() < WIDTH
    ensures Hits(g, BeatAddr(aw, k), strb, aw.Bytes(), p) <==>
            aw.addr <= g.base + p && Slot(aw, g.base + p) == k && strb[p % g.Word()]
  {
    BeatAligned(aw, k);
    AlignedHits(g, BeatAddr(aw, k), strb, aw.size, p);
    if aw.addr <= g.base + p {
      SlotWindow(aw, g.base + p, k);
    }
  }

  lemma OneBeatLands(g: Geometry, m: seq<Byte>, m': seq<Byte>, aw: Addr, beats: seq<WBeat>, k: nat, p: nat)
    requires Proper(g, aw) && k < |beats| && p < |m| == |m'|
    requires m'[p] == ByteAfter(g, m, aw, beats, k, p)
    ensures Stored(g, m', BeatAddr(aw, k), beats[k].data, beats[k].strb, aw.Bytes())[p]
            == ByteAfter(g, m, aw, beats, k + 1, p)
  {
    BeatHits(g, aw, k, beats[k].strb, p);
  }

  lemma BurstEffectsTake(aw: Addr, beats: seq<WBeat>, j: nat)
    requires j < |beats|
    ensures BurstEffects(aw, beats[..j + 1]) ==
            BurstEffects(aw, beats[..j]) + [Effect(BeatAddr(aw, j), aw.Bytes(), beats[j])]
  {}

  lemma {:induction false} BeatsLand(g: Geometry, m: seq<Byte>, aw: Addr, beats: seq<WBeat>, k: nat, p: nat)
    requires Proper(g, aw) && k <= |beats| && p < |m|
    ensures Replay(g, m, BurstEffects(aw, beats[..k]))[p] == ByteAfter(g, m, aw, beats, k, p)
  {
    if k != 0 {
      var j := k - 1;
      var es := BurstEffects(aw, beats[..j]);
      BeatsLand(g, m, aw, beats, j, p);
      BurstEffectsTake(aw, beats, j);
      ReplaySnoc(g, m, es, Effect(BeatAddr(aw, j), aw.Bytes(), beats[j]));
      OneBeatLands(g, m, Replay(g, m, es), aw, beats, j, p);
    }
  }

  /** After all its beats, a size-aligned burst has changed bytes of [addr, addr + (len + 1) * size) only, and byte p
      there holds lane p mod word of beat (p - addr) / size if its strobe was set, its old value otherwise (see
      SlotWindow). */
  lemma {:induction false} BurstLands(g: Geometry, m: seq<Byte>, aw: Addr, beats: seq<WBeat>, p: nat)
    requires Proper(g, aw) && |beats| == aw.Beats() && p < |m|
    ensures Replay(g, m, BurstEffects(aw, beats))[p] == ByteAfter(g, m, aw, beats, aw.Beats(), p)
  {
    assert beats[..aw.Beats()] == beats;
    BeatsLand(g, m, aw, beats, aw.Beats(), p);
  }

  // Bursts in the stream of W beats.

  lemma BeatsGrow(aws: seq<Addr>, i: nat, j: nat)
    requires i <= j <= |aws|
    ensures Beats(aws[..i]) <= Beats(aws[..j])
  {
    assert aws[..j] == aws[..i] + aws[i..j];
    SumAppend(aws[..i], aws[i..j], (a: Addr) => a.Beats());
  }

  lemma {:induction false} OwnerIs(aws: seq<Addr>, n: nat, i: nat)
    requires n < |aws| && Beats(aws[..n]) <= i < Beats(aws[..n + 1])
    ensures Owner(aws, i) == n
    decreases |aws|
  {
    var k := |aws| - 1;
    if n < k {
      BeatsGrow(aws, n + 1, k);
      assert aws[..k][..n] == aws[..n] && aws[..k][..n + 1] == aws[..n + 1];
      OwnerIs(aws[..k], n, i);
    }
  }

  /** The effects of a run contain each complete burst whole, in its place: beat i of burst n at addr + i * size. */
  lemma EffectsOfBurst(aws: seq<Addr>, beats: seq<WBeat>, n: nat)
    requires n < |aws| && Beats(aws[..n + 1]) <= |beats|
    ensures var lo, hi := Beats(aws[..n]), Beats(aws[..n + 1]);
            lo + aws[n].Beats() == hi
            && Effects(aws, beats)[lo..hi] == BurstEffects(aws[n], beats[lo..hi])
  {
    var lo, hi := Beats(aws[..n]), Beats(aws[..n + 1]);
    assert aws[..n + 1] == aws[..n] + [aws[n]];
    SumSnoc(aws[..n], aws[n], (a: Addr) => a.Beats());
    forall i | lo <= i < hi
      ensures Effects(aws, beats)[i] == BurstEffects(aws[n], beats[lo..hi])[i - lo]
    {
      OwnerIs(aws, n, i);
    }
  }

  lemma {:induction false} ReplayAppend(g: Geometry, m: seq<Byte>, a: seq<Effect>, b: seq<Effect>)
    ensures Replay(g, m, a + b) == Replay(g, Replay(g, m, a), b)
    decreases |b|
  {
    if b == [] {
      assert a + b == a;
    } else {
      var n := |b| - 1;
      assert (a + b)[..|a| + n] == a + b[..n];
      ReplayAppend(g, m, a, b[..n]);
    }
  }

  lemma EffectsTake(aws: seq<Addr>, beats: seq<WBeat>, i: nat)
    requires i <= |beats|
    ensures Effects(aws, beats)[..i] == Effects(aws, beats[..i])
  {}

  lemma EffectsSplit(aws: seq<Addr>, beats: seq<WBeat>, n: nat)
    requires n < |aws| && Beats(aws[..n + 1]) <= |beats|
    ensures var lo, hi := Beats(aws[..n]), Beats(aws[..n + 1]);
            lo <= hi && Effects(aws, beats[..hi]) == Effects(aws, beats[..lo]) + BurstEffects(aws[n], beats[lo..hi])
  {
    var lo, hi, es := Beats(aws[..n]), Beats(aws[..n + 1]), Effects(aws, beats);
    EffectsOfBurst(aws, beats, n);
    EffectsTake(aws, beats, lo);
    EffectsTake(aws, beats, hi);
    assert es[..hi] == es[..lo] + es[lo..hi];
  }

  /** In a run, once the last beat of burst n is in, the memory is the one before its first beat with exactly the
      burst's own bytes changed. */
  lemma RunLands(g: Geometry, m0: seq<Byte>, aws: seq<Addr>, beats: seq<WBeat>, n: nat, p: nat)
    requires n < |aws| && Beats(aws[..n + 1]) <= |beats| && Proper(g, aws[n]) && p < |m0|
    ensures var lo, hi := Beats(aws[..n]), Beats(aws[..n + 1]);
            && lo + aws[n].Beats() == hi
            && MemoryAfter(g, m0, aws, beats[..hi])[p] ==
               ByteAfter(g, MemoryAfter(g, m0, aws, beats[..lo]), aws[n], beats[lo..hi], aws[n].Beats(), p)
  {
    var lo, hi := Beats(aws[..n]), Beats(aws[..n + 1]);
    EffectsOfBurst(aws, beats, n);
    EffectsSplit(aws, beats, n);
    ReplayAppend(g, m0, Effects(aws, beats[..lo]), BurstEffects(aws[n], beats[lo..hi]));
    BurstLands(g, MemoryAfter(g, m0, aws, beats[..lo]), aws[n], beats[lo..hi], p);
  }

  /** W beats lo to hi - 1 of a run store nothing into byte p. */
  predicate Untouched(g: Geometry, aws: seq<Addr>, beats: seq<WBeat>, lo: nat, hi: nat, p: nat)
    requires hi <= |beats|
  {
    forall i :: lo <= i < hi ==> !Touches(g, EffectAt(aws, i, beats[i]), p)
  }

  predicate Touches(g: Geometry, e: Effect, p: nat) {
    Hits(g, e.addr, e.beat.strb, e.size, p)
  }

  lemma {:induction false} UntouchedKeeps(
    g: Geometry, m0: seq<Byte>, aws: seq<Addr>, beats: seq<WBeat>, lo: nat, hi: nat, p: nat)
    requires lo <= hi <= |beats| && Untouched(g, aws, beats, lo, hi, p) && p < |m0|
    ensures MemoryAfter(g, m0, aws, beats[..hi])[p] == MemoryAfter(g, m0, aws, beats[..lo])[p]
    decreases hi
  {
    if lo < hi {
      var n := hi - 1;
      UntouchedKeeps(g, m0, aws, beats, lo, n, p);
      assert beats[..hi] == beats[..n] + [beats[n]];
      EffectsNewBeat(aws, beats[..n], beats[n]);
      ReplaySnoc(g, m0, Effects(aws, beats[..n]), EffectAt(aws, n, beats[n]));
    }
  }
}
