/** Powers of two, and 64-bit words as their bits, least significant first. */
module Bits {

  function Pow2(n: nat): (r: nat)
    ensures r >= 1
  {
    if n == 0 then 1 else 2 * Pow2(n - 1)
  }

  lemma {:induction false} Pow2Splits(m: nat, n: nat)
    requires m <= n
    ensures Pow2(n) == Pow2(m) * Pow2(n - m)
    decreases n
  {
    if m < n {
      Pow2Splits(m, n - 1);
    }
  }

  lemma {:induction false} Pow2Grows(m: nat, n: nat)
    requires m <= n
    ensures Pow2(m) <= Pow2(n)
    decreases n
  {
    if m < n {
      Pow2Grows(m, n - 1);
    }
  }

  const WIDTH: nat := 64

  type Word64 = w: seq<bool> | |w| == WIDTH witness seq(WIDTH, _ => false)

  function Fill(n: nat, b: bool): (r: seq<bool>)
    ensures |r| == n
    ensures forall i :: 0 <= i < n ==> r[i] == b
  {
    seq(n, _ => b)
  }

  function And(x: Word64, y: Word64): Word64 {
    seq(WIDTH, i requires 0 <= i < WIDTH => x[i] && y[i])
  }

  /** x << n, the bits pushed past the top being lost. */
  function ShiftLeft(x: Word64, n: nat): Word64 {
    if n <= WIDTH then Fill(n, false) + x[..WIDTH - n] else Fill(WIDTH, false)
  }

  /** x >> 1, unsigned. */
  function ShiftRightOne(x: Word64): Word64 {
    x[1..] + [false]
  }

  /** x - 1 modulo 2^|x|: the borrow runs through the low zeros. */
  function Decrement(x: seq<bool>): (r: seq<bool>)
    ensures |r| == |x|
  {
    if x == [] then [] else if x[0] then [false] + x[1..] else [true] + Decrement(x[1..])
  }

  function One(): Word64 {
    [true] + Fill(WIDTH - 1, false)
  }

  lemma {:induction false} DecrementPower(n: nat, m: nat)
    ensures Decrement(Fill(n, false) + ([true] + Fill(m, false))) == Fill(n, true) + ([false] + Fill(m, false))
  {
    var x := Fill(n, false) + ([true] + Fill(m, false));
    if n == 0 {
      assert x[1..] == Fill(m, false);
    } else {
      assert x[1..] == Fill(n - 1, false) + ([true] + Fill(m, false));
      DecrementPower(n - 1, m);
    }
  }

  /** ((1 << size) - 1) << off is a window of `size` ones starting at bit `off`, truncated to 64 bits. */
  lemma Window(size: nat, off: nat, i: nat)
    requires size < WIDTH && i < WIDTH
    ensures ShiftLeft(Decrement(ShiftLeft(One(), size)), off)[i] <==> off <= i < off + size
  {
    assert ShiftLeft(One(), size) == Fill(size, false) + ([true] + Fill(WIDTH - 1 - size, false));
    DecrementPower(size, WIDTH - 1 - size);
  }
}
