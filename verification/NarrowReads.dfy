/** Read bursts ignore ar_size: exactly when that is right. */
module NarrowReads {
  import opened Arithmetic
  import opened Bits
  import opened Memory
  import opened Axi
  import opened Bursts
  import opened Footprint

  /** The address of transfer i of an INCR read, by section A3.4.1 of ARM IHI 0022E: the first may be unaligned, the
      others are aligned to the transfer size. */
  function TransferAddr(ar: Addr, i: nat): nat {
    if i == 0 then ar.addr else WordStart(ar.Bytes(), ar.addr) + i * ar.Bytes()
  }

  /** The word that transfer i is to be read from, and the one that beat i of the slave's answer is read from. */
  function WantedWord(g: Geometry, ar: Addr, i: nat): nat {
    Aligned(g, TransferAddr(ar, i))
  }

  function GivenWord(g: Geometry, ar: Addr, i: nat): nat {
    Aligned(g, ar.addr) + i * g.Word()
  }

  /** The data of beat i of the slave's answer. */
  function GivenData(g: Geometry, m: seq<Byte>, ar: Addr, i: nat): (r: seq<Byte>)
    requires i <= ar.len
    ensures r == WordAt(g, m, GivenWord(g, ar, i))
  {
    ReadBeats(g, m, ar.id, ar.addr, ar.Beats())[i].data
  }

  /** Every transfer of the burst is answered from its own word. */
  ghost predicate RightWords(g: Geometry, ar: Addr) {
    forall i :: 0 <= i <= ar.len ==> WantedWord(g, ar, i) == GivenWord(g, ar, i)
  }

  /** The caller's test: full-width transfers, or a single one, or two that straddle a word boundary. */
  predicate Supported(g: Geometry, ar: Addr) {
    || ar.len == 0
    || ar.Bytes() == g.Word()
    || (ar.len == 1 && WordStart(ar.Bytes(), ar.addr) % g.Word() + ar.Bytes() == g.Word())
  }

  /** The first transfer's aligned address, as an offset o into its word. */
  lemma Offset(g: Geometry, ar: Addr) returns (o: nat)
    requires ar.size <= g.lgWord
    ensures WordStart(ar.Bytes(), ar.addr) == Aligned(g, ar.addr) + o
    ensures WordStart(ar.Bytes(), ar.addr) % g.Word() == o && o + ar.Bytes() <= g.Word()
  {
    var w, b := g.Word(), ar.Bytes();
    var s, c := WordStart(b, ar.addr), Pow2(g.lgWord - ar.size);
    Pow2Splits(ar.size, g.lgWord);
    DivMod(ar.addr, w);
    var q, r := ar.addr / w, ar.addr % w;
    Associate(q, c, b);
    DivMod(r, b);
    o := WordStart(b, r);
    Distribute(q * c, r / b, b);
    DivUnique(ar.addr, q * c + r / b, r % b, b);
    DivUnique(o, r / b, 0, b);
    RoomInWord(b, c, o);
    DivUnique(s, q, o, w);
  }

  lemma AlignedIs(g: Geometry, addr: nat, k: nat, r: nat)
    requires r < g.Word()
    ensures Aligned(g, Aligned(g, addr) + k * g.Word() + r) == Aligned(g, addr) + k * g.Word()
  {
    var w, q := g.Word(), addr / g.Word();
    DivMod(addr, w);
    Distribute(q, k, w);
    StartOf(w, q + k, r);
  }

  lemma StartOf(w: nat, n: nat, r: nat)
    requires r < w && n * w >= 0
    ensures WordStart(w, n * w + r) == n * w
  {
    DivUnique(n * w + r, n, r, w);
  }

  lemma WordsWhenSupported(g: Geometry, ar: Addr, i: nat)
    requires ar.size <= g.lgWord && Supported(g, ar) && i <= ar.len
    ensures WantedWord(g, ar, i) == GivenWord(g, ar, i)
  {
    var o := Offset(g, ar);
    if i != 0 {
      AlignedIs(g, ar.addr, i, 0);
    }
  }

  /** The slave answers every transfer of a read burst from the right word if and only if the burst is full-width, or
      a single transfer, or two narrow ones of which the first ends its word. */
  lemma RightWordsExactly(g: Geometry, ar: Addr)
    requires ar.size <= g.lgWord
    ensures RightWords(g, ar) <==> Supported(g, ar)
  {
    var w, b := g.Word(), ar.Bytes();
    var o := Offset(g, ar);
    if Supported(g, ar) {
      forall i | 0 <= i <= ar.len
        ensures WantedWord(g, ar, i) == GivenWord(g, ar, i)
      {
        WordsWhenSupported(g, ar, i);
      }
    } else if o + b < w {
      AlignedIs(g, ar.addr, 0, o + b);
      assert WantedWord(g, ar, 1) != GivenWord(g, ar, 1);
    } else {
      AlignedIs(g, ar.addr, 1, b);
      assert WantedWord(g, ar, 2) != GivenWord(g, ar, 2);
    }
  }

  /** The byte lanes of transfer i, by section A3.4.1 of ARM IHI 0022E: from its address to the end of its aligned
      transfer. */
  predicate InLanes(g: Geometry, ar: Addr, i: nat, lane: nat) {
    var at := TransferAddr(ar, i);
    lane < g.Word() && at % g.Word() <= lane < WordStart(ar.Bytes(), at) % g.Word() + ar.Bytes()
  }

  lemma OwnLane(g: Geometry, ar: Addr, i: nat)
    requires ar.size <= g.lgWord
    ensures InLanes(g, ar, i, TransferAddr(ar, i) % g.Word())
  {
    var at := TransferAddr(ar, i);
    var o := Offset(g, ar.(addr := at));
    assert at == Aligned(g, at) + at % g.Word();
  }

  /** Whatever the memory holds, every lane that a transfer uses carries the byte it asks for. */
  ghost predicate RightData(g: Geometry, ar: Addr) {
    forall m: seq<Byte>, i: nat, lane: nat :: |m| == g.size && i <= ar.len && InLanes(g, ar, i, lane) ==>
      GivenData(g, m, ar, i)[lane] == WordAt(g, m, WantedWord(g, ar, i))[lane]
  }

  /** The same on data: the bytes a transfer uses are right in every memory exactly when the burst is supported. */
  lemma RightDataExactly(g: Geometry, ar: Addr)
    requires g.Ok() && ar.size <= g.lgWord && g.Covers(Aligned(g, ar.addr), ar.Beats() * g.Word())
    ensures RightData(g, ar) <==> Supported(g, ar)
  {
    RightWordsExactly(g, ar);
    if !Supported(g, ar) {
      var i :| 0 <= i <= ar.len && WantedWord(g, ar, i) != GivenWord(g, ar, i);
      var lane := TransferAddr(ar, i) % g.Word();
      OwnLane(g, ar, i);
      LastWord(g, ar, i);
      var at := GivenWord(g, ar, i) - g.base + lane;
      var m: seq<Byte> := seq(g.size, p => if p == at then 1 else 0);
      Distinguished(g, m, GivenWord(g, ar, i), WantedWord(g, ar, i), lane);
    }
  }

  /** A failing input: two 4-byte transfers at addresses 0 and 4 over an 8-byte bus. The second asks for bytes 4 to 7 in
      lanes 4 to 7, and gets bytes 12 to 15. */
  lemma NarrowExample()
    ensures var g, ar := Geometry(0, 16, 3), Addr(0, 0, 2, 1, Echo(TlState(0, 0), false));
            var m: seq<Byte> := seq(16, p requires 0 <= p < 16 => p as Byte);
            && g.Covers(Aligned(g, ar.addr), ar.Beats() * g.Word()) && !Supported(g, ar)
            && TransferAddr(ar, 1) == 4
            && forall lane: nat :: 4 <= lane < 8 ==>
                 && InLanes(g, ar, 1, lane)
                 && WordAt(g, m, WantedWord(g, ar, 1))[lane] == lane as Byte
                 && GivenData(g, m, ar, 1)[lane] == (lane + 8) as Byte
  {
    assert Pow2(2) == 4 && Pow2(3) == 8;
  }

  lemma LastWord(g: Geometry, ar: Addr, i: nat)
    requires g.Covers(Aligned(g, ar.addr), ar.Beats() * g.Word()) && i <= ar.len
    ensures g.Covers(GivenWord(g, ar, i), g.Word())
  {
    Distribute(i, 1, g.Word());
    MulLe(i + 1, ar.Beats(), g.Word());
  }

  lemma Distinguished(g: Geometry, m: seq<Byte>, given: nat, wanted: nat, lane: nat)
    requires lane < g.Word() && g.Covers(given, g.Word()) && |m| == g.size && given != wanted
    requires forall p :: 0 <= p < |m| ==> m[p] == if p == given - g.base + lane then 1 else 0
    ensures WordAt(g, m, given)[lane] != WordAt(g, m, wanted)[lane]
  {
    assert WordAt(g, m, given)[lane] == 1;
    assert WordAt(g, m, wanted)[lane] == 0;
  }
}
