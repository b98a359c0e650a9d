/** Write bursts never re-align their address: exactly when that is right. */
module UnalignedWrites {
  import opened Arithmetic
  import opened Bits
  import opened Memory
  import opened Axi
  import opened Stores
  import opened NarrowReads

  /** The strobes section A3.4.1 of ARM IHI 0022E allows in transfer i: only lanes of the transfer. */
  predicate LegalStrobe(g: Geometry, aw: Addr, i: nat, strb: Word64) {
    forall lane: nat :: lane < WIDTH && strb[lane] ==> InLanes(g, aw, i, lane)
  }

  /** The bytes transfer i is to store with legal strobes: the strobed lanes of its own word. */
  predicate Wanted(g: Geometry, aw: Addr, i: nat, strb: Word64, p: nat) {
    (g.base + p) / g.Word() == TransferAddr(aw, i) / g.Word() && p % g.Word() < WIDTH && strb[p % g.Word()]
  }

  /** Every beat, with every legal strobe, stores exactly the bytes it is to store. */
  ghost predicate RightStores(g: Geometry, aw: Addr) {
    forall i: nat, strb: Word64, p: nat :: i <= aw.len && LegalStrobe(g, aw, i, strb) && p < g.size ==>
      (Hits(g, BeatAddr(aw, i), strb, aw.Bytes(), p) <==> Wanted(g, aw, i, strb, p))
  }

  /** The caller's test: an aligned burst, or a single transfer, or transfers as wide as the whole strobe, which the
      code does not mask. */
  predicate Handled(aw: Addr) {
    aw.addr % aw.Bytes() == 0 || aw.len == 0 || aw.Bytes() == WIDTH
  }

  lemma BaseShift(g: Geometry, x: nat)
    requires g.Ok() && g.base <= x
    ensures (x - g.base) / g.Word() == x / g.Word() - g.base / g.Word() && (x - g.base) % g.Word() == x % g.Word()
  {
    var w, q, k := g.Word(), x / g.Word(), g.base / g.Word();
    DivMod(x, w);
    DivMod(g.base, w);
    LessMultiple(q, k, x % w, w);
    DivUnique(x - g.base, q - k, x % w, w);
  }

  lemma LessMultiple(q: nat, k: nat, r: nat, w: nat)
    requires r < w && k * w <= q * w + r
    ensures k <= q && q * w + r - k * w == (q - k) * w + r
  {
    Distribute(q, 1, w);
    MulLt(k, q + 1, w);
    Distribute(q - k, k, w);
  }

  /** A store in absolute addresses. */
  lemma HitsAt(g: Geometry, x: nat, strb: Word64, size: nat, p: nat)
    requires g.Ok() && g.base <= x
    ensures Hits(g, x, strb, size, p) <==>
            && (g.base + p) / g.Word() == x / g.Word() && p % g.Word() < WIDTH && strb[p % g.Word()]
            && (size == WIDTH || x % g.Word() <= p % g.Word() < x % g.Word() + size)
  {
    BaseShift(g, x);
    BaseShift(g, g.base + p);
  }

  /** Beat i of the code goes as far past transfer i as the burst is off alignment, in the same word. */
  lemma BeatInWord(g: Geometry, aw: Addr, i: nat)
    requires aw.size <= g.lgWord && i >= 1
    ensures var x, t, w := BeatAddr(aw, i), TransferAddr(aw, i), g.Word();
            && x / w == t / w && x % w == t % w + aw.addr % aw.Bytes() && x == t + aw.addr % aw.Bytes()
            && WordStart(aw.Bytes(), t) == t
  {
    var w, b, x, t := g.Word(), aw.Bytes(), BeatAddr(aw, i), TransferAddr(aw, i);
    var q, r := aw.addr / b, aw.addr % b;
    DivMod(aw.addr, b);
    Distribute(q, i, b);
    DivUnique(x, q + i, r, b);
    DivUnique(t, q + i, 0, b);
    var o := Offset(g, aw.(addr := x));
    assert t == Aligned(g, x) + o;
    DivMod(x, w);
    DivUnique(x, x / w, o + r, w);
    DivUnique(t, x / w, o, w);
  }

  lemma BeatRight(g: Geometry, aw: Addr, i: nat, strb: Word64, p: nat)
    requires g.Ok() && aw.size <= g.lgWord && g.base <= aw.addr && Handled(aw)
    requires i <= aw.len && LegalStrobe(g, aw, i, strb)
    ensures Hits(g, BeatAddr(aw, i), strb, aw.Bytes(), p) <==> Wanted(g, aw, i, strb, p)
  {
    HitsAt(g, BeatAddr(aw, i), strb, aw.Bytes(), p);
    if i >= 1 {
      BeatInWord(g, aw, i);
    } else {
      var o := Offset(g, aw);
      FirstWindow(g, aw, o);
    }
    if Wanted(g, aw, i, strb, p) {
      assert InLanes(g, aw, i, p % g.Word());
    }
  }

  /** The first transfer's lanes end no later than its window. */
  lemma FirstWindow(g: Geometry, aw: Addr, o: nat)
    requires WordStart(aw.Bytes(), aw.addr) == Aligned(g, aw.addr) + o
    requires WordStart(aw.Bytes(), aw.addr) % g.Word() == o
    ensures o <= aw.addr % g.Word() && BeatAddr(aw, 0) == aw.addr == TransferAddr(aw, 0)
  {}

  function OnlyLane(lane: nat): (strb: Word64)
    ensures forall i :: 0 <= i < WIDTH ==> (strb[i] <==> i == lane)
  {
    seq(WIDTH, i => i == lane)
  }

  /** The second beat of an unaligned burst misses the first byte of its transfer. */
  lemma SecondBeatMisses(g: Geometry, aw: Addr) returns (strb: Word64, p: nat)
    requires g.Ok() && aw.size <= g.lgWord && g.base <= WordStart(aw.Bytes(), aw.addr) && !Handled(aw)
    requires g.Covers(WordStart(aw.Bytes(), aw.addr), 2 * aw.Bytes())
    ensures p < g.size && LegalStrobe(g, aw, 1, strb)
    ensures Wanted(g, aw, 1, strb, p) && !Hits(g, BeatAddr(aw, 1), strb, aw.Bytes(), p)
  {
    var t, lane := TransferAddr(aw, 1), TransferAddr(aw, 1) % g.Word();
    Pow2Grows(g.lgWord, 6);
    assert Pow2(6) == WIDTH;
    strb := OnlyLane(lane);
    p := t - g.base;
    OwnLane(g, aw, 1);
    BaseShift(g, t);
    HitsAt(g, BeatAddr(aw, 1), strb, aw.Bytes(), p);
    BeatInWord(g, aw, 1);
  }

  /** Every beat of a burst stores exactly what its legal strobes select if and only if the burst is size-aligned, or a
      single transfer, or 64 bytes wide. */
  lemma RightStoresExactly(g: Geometry, aw: Addr)
    requires g.Ok() && aw.size <= g.lgWord
    requires g.Covers(WordStart(aw.Bytes(), aw.addr), aw.Beats() * aw.Bytes())
    ensures RightStores(g, aw) <==> Handled(aw)
  {
    if Handled(aw) {
      forall i: nat, strb: Word64, p: nat | i <= aw.len && LegalStrobe(g, aw, i, strb) && p < g.size
        ensures Hits(g, BeatAddr(aw, i), strb, aw.Bytes(), p) <==> Wanted(g, aw, i, strb, p)
      {
        BeatRight(g, aw, i, strb, p);
      }
    } else {
      MulLe(2, aw.Beats(), aw.Bytes());
      var strb, p := SecondBeatMisses(g, aw);
    }
  }

  /** A failing input: two 4-byte transfers from address 1 over an 8-byte bus. The second is to store byte 4, and
      stores it with no strobe at all. */
  lemma UnalignedExample(strb: Word64)
    ensures var g, aw := Geometry(0, 16, 3), Addr(0, 1, 2, 1, Echo(TlState(0, 0), false));
            && !Handled(aw) && TransferAddr(aw, 1) == 4 && InLanes(g, aw, 1, 4)
            && !Hits(g, BeatAddr(aw, 1), strb, aw.Bytes(), 4)
  {
    assert Pow2(2) == 4 && Pow2(3) == 8;
  }
}
