/** The byte memory of mm_t: strobed word writes and whole-word reads over one array. */
module Memory {
  import opened Arithmetic
  import opened Bits

  type Byte = bv8

  /** `word` is the bus width in bytes, 2^lgWord. */
  datatype Geometry = Geometry(base: nat, size: nat, lgWord: nat) {
    function Word(): (w: nat)
      ensures w >= 1
    {
      Pow2(lgWord)
    }

    predicate Ok() {
      lgWord <= 6 && base % Word() == 0 && size % Word() == 0
    }

    predicate Covers(addr: nat, bytes: nat) {
      base <= addr && addr + bytes <= base + size
    }
  }

  function ByteAt(m: seq<Byte>, p: int): Byte {
    if 0 <= p < |m| then m[p] else 0
  }

  /** Does a transfer at `addr` store into byte `p` of the array? */
  predicate Hits(g: Geometry, addr: nat, strb: Word64, size: nat, p: nat) {
    var w := g.Word();
    var lane, off := p % w, (addr - g.base) % w;
    && p / w == (addr - g.base) / w
    && lane < WIDTH && strb[lane]
    && (size == WIDTH || off <= lane < off + size)
  }

  /** The array after one strobed write; every byte keeps its own lane of the data. */
  function Stored(g: Geometry, m: seq<Byte>, addr: nat, bytes: seq<Byte>, strb: Word64, size: nat): (r: seq<Byte>)
    ensures |r| == |m|
    ensures forall p :: 0 <= p < |m| ==>
              r[p] == if Hits(g, addr, strb, size, p) then ByteAt(bytes, p % g.Word()) else m[p]
  {
    seq(|m|, p requires 0 <= p < |m| => if Hits(g, addr, strb, size, p) then ByteAt(bytes, p % g.Word()) else m[p])
  }

  /** The word of bytes starting at `addr`. */
  function WordAt(g: Geometry, m: seq<Byte>, addr: nat): (r: seq<Byte>)
    ensures |r| == g.Word()
    ensures forall j :: 0 <= j < g.Word() ==> r[j] == ByteAt(m, addr - g.base + j)
  {
    seq(g.Word(), j => ByteAt(m, addr - g.base + j))
  }

  /** The address of the word holding `addr`. */
  function Aligned(g: Geometry, addr: nat): nat {
    WordStart(g.Word(), addr)
  }

  function WordStart(w: nat, addr: nat): (r: nat)
    requires w >= 1
    ensures r <= addr < r + w && addr % w == addr - r
  {
    DivMod(addr, w);
    (addr / w) * w
  }

  class Mm {
    const g: Geometry
    const data: array<Byte>

    ghost predicate Valid() {
      g.Ok() && data.Length == g.size
    }

    constructor (g: Geometry, data: array<Byte>)
      requires g.Ok() && data.Length == g.size
      ensures Valid() && this.g == g && this.data == data
    {
      this.g := g;
      this.data := data;
    }

    /** Cut the strobe to the transfer's lanes, then store the addressed word. */
    method Write(faddr: nat, bytes: seq<Byte>, strb: Word64, size: nat)
      requires Valid() && |bytes| == g.Word()
      requires g.Covers(faddr, 1) && size <= WIDTH
      modifies data
      ensures data[..] == Stored(g, old(data[..]), faddr, bytes, strb, size)
    {
      var addr := faddr - g.base;
      var w := g.Word();
      var s := strb;
      if size != WIDTH {
        s := And(s, ShiftLeft(Decrement(ShiftLeft(One(), size)), addr % w));
      }
      WordFits(g, addr);
      ghost var was := data[..];
      StoreLanes(WordStart(w, addr), bytes, s);
      forall p | 0 <= p < data.Length
        ensures data[p] == Stored(g, was, faddr, bytes, strb, size)[p]
      {
        LanesHit(g, addr, strb, size, s, p);
      }
    }

    /** The lane loop: test the lowest strobe bit, store, shift the strobe right. */
    method StoreLanes(base: nat, bytes: seq<Byte>, strb: Word64)
      requires Valid() && |bytes| == g.Word() <= WIDTH && base + g.Word() <= data.Length
      modifies data
      ensures forall p :: 0 <= p < data.Length ==>
        data[p] == if base <= p < base + g.Word() && strb[p - base] then bytes[p - base] else old(data[p])
    {
      var s := strb;
      for i := 0 to g.Word()
        invariant s[..WIDTH - i] == strb[i..]
        invariant forall p :: 0 <= p < data.Length ==>
          data[p] == if base <= p < base + i && strb[p - base] then bytes[p - base] else old(data[p])
      {
        assert s[..WIDTH - i][0] == strb[i..][0];
        if s[0] {
          data[base + i] := bytes[i];
        }
        assert s[..WIDTH - i][1..] == strb[i..][1..];
        s := ShiftRightOne(s);
      }
    }

    method Read(faddr: nat) returns (r: seq<Byte>)
      requires Valid() && g.Covers(faddr, g.Word())
      ensures r == WordAt(g, data[..], faddr)
    {
      var addr := faddr - g.base;
      r := data[addr..addr + g.Word()];
      assert forall j :: 0 <= j < g.Word() ==> r[j] == WordAt(g, data[..], faddr)[j];
    }
  }

  function Cut(strb: Word64, size: nat, off: nat): Word64 {
    if size == WIDTH then strb else And(strb, ShiftLeft(Decrement(ShiftLeft(One(), size)), off))
  }

  /** A set bit of the cut strobe, placed at its byte of the addressed word, is a hit; nothing else is. */
  lemma LanesHit(g: Geometry, addr: nat, strb: Word64, size: nat, cut: Word64, p: nat)
    requires g.Word() <= WIDTH && size <= WIDTH && cut == Cut(strb, size, addr % g.Word())
    ensures var base := WordStart(g.Word(), addr);
            && (base <= p < base + g.Word() && cut[p - base] <==> Hits(g, g.base + addr, strb, size, p))
            && (base <= p < base + g.Word() ==> p - base == p % g.Word())
  {
    var w := g.Word();
    var base := WordStart(w, addr);
    SameWord(w, p, addr);
    if base <= p < base + w && size != WIDTH {
      Window(size, addr % w, p - base);
    }
  }

  lemma WordFits(g: Geometry, addr: nat)
    requires g.Ok() && addr < g.size
    ensures WordStart(g.Word(), addr) + g.Word() <= g.size
    ensures g.Word() <= WIDTH
  {
    var w := g.Word();
    Pow2Grows(g.lgWord, 6);
    assert Pow2(6) == 64;
    DivMod(g.size, w);
    MulLt(addr / w, g.size / w, w);
    MulLe(addr / w + 1, g.size / w, w);
  }

  lemma SameWord(w: nat, p: nat, addr: nat)
    requires w >= 1
    ensures p / w == addr / w <==> WordStart(w, addr) <= p < WordStart(w, addr) + w
    ensures p / w == addr / w ==> p % w == p - WordStart(w, addr)
  {
    var a := addr / w;
    DivMod(p, w);
    if WordStart(w, addr) <= p < WordStart(w, addr) + w {
      DivUnique(p, a, p - a * w, w);
    }
  }

  /** Reading word n, at offset `start`, after a store: the new byte in the strobed lanes of the addressed word that the
      transfer's size selects, the old byte everywhere else. */
  lemma ReadBack(g: Geometry, m: seq<Byte>, addr: nat, bytes: seq<Byte>, strb: Word64, size: nat,
                 n: nat, start: nat, j: nat)
    requires g.Ok() && |m| == g.size && |bytes| == g.Word() && g.Covers(addr, 1)
    requires j < g.Word() <= WIDTH && start == n * g.Word() && start + j < g.size
    ensures var off := (addr - g.base) % g.Word();
            WordAt(g, Stored(g, m, addr, bytes, strb, size), g.base + start)[j] ==
            if n == (addr - g.base) / g.Word() && strb[j] && (size == WIDTH || off <= j < off + size) then bytes[j]
            else WordAt(g, m, g.base + start)[j]
  {
    DivUnique(start + j, n, j, g.Word());
  }
}
