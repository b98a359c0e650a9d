/** AMOALU: one expression for nine read-modify-write operations on doublewords, low words and high words. */
module AmoAlu {
  import opened Arithmetic
  import opened Bits

  type Mask = m: seq<bool> | |m| == 8 witness seq(8, _ => false)
  type Cmd = c: nat | c < 32

  const ADD: Cmd := 0x8
  const XOR: Cmd := 0x9
  const OR: Cmd := 0xA
  const AND: Cmd := 0xB
  const MIN: Cmd := 0xC
  const MAX: Cmd := 0xD
  const MINU: Cmd := 0xE
  const MAXU: Cmd := 0xF

  /** The unsigned number on a bus. */
  function ToNat(x: seq<bool>): nat {
    if x == [] then 0 else (if x[0] then 1 else 0) + 2 * ToNat(x[1..])
  }

  /** The low n bits of a number. */
  function FromNat(n: nat, v: nat): (r: seq<bool>)
    ensures |r| == n
  {
    if n == 0 then [] else [v % 2 == 1] + FromNat(n - 1, v / 2)
  }

  function Xor(x: Word64, y: Word64): Word64 {
    seq(WIDTH, i requires 0 <= i < WIDTH => x[i] != y[i])
  }

  function Or(x: Word64, y: Word64): Word64 {
    seq(WIDTH, i requires 0 <= i < WIDTH => x[i] || y[i])
  }

  function Not(x: Word64): Word64 {
    seq(WIDTH, i requires 0 <= i < WIDTH => !x[i])
  }

  /** x + y, the carry out of the top bit being lost. */
  function Plus(x: seq<bool>, y: seq<bool>): (r: seq<bool>)
    requires |x| == |y|
    ensures |r| == |x|
  {
    FromNat(|x|, ToNat(x) + ToNat(y))
  }

  const Zero: Word64 := Fill(WIDTH, false)

  function ByteMask(mask: Mask): Word64 {
    seq(WIDTH, i requires 0 <= i < WIDTH => mask[i / 8])
  }

  /** All ones, but for bit 31 when byte 3 is not written: it cuts the carry into the high word. */
  function AdderMask(mask: Mask): Word64 {
    seq(WIDTH, i requires 0 <= i < WIDTH => i != 31 || mask[3])
  }

  /** io_cmd[1] */
  predicate Unsigned(cmd: Cmd) {
    cmd / 2 % 2 == 1
  }

  predicate Below(x: seq<bool>, y: seq<bool>) {
    ToNat(x) < ToNat(y)
  }

  predicate Less(mask: Mask, cmd: Cmd, lhs: Word64, rhs: Word64) {
    if mask[4] then
      if lhs[63] == rhs[63] then
        Below(lhs[32..], rhs[32..]) || (lhs[32..] == rhs[32..] && Below(lhs[..32], rhs[..32]))
      else if Unsigned(cmd) then rhs[63] else lhs[63]
    else if lhs[31] == rhs[31] then Below(lhs[..32], rhs[..32])
    else if Unsigned(cmd) then rhs[31] else lhs[31]
  }

  function Sum(mask: Mask, lhs: Word64, rhs: Word64): Word64 {
    Plus(And(lhs, AdderMask(mask)), And(rhs, AdderMask(mask)))
  }

  function Result(mask: Mask, cmd: Cmd, lhs: Word64, rhs: Word64): Word64 {
    var logicAnd := cmd == OR || cmd == AND;
    var logicXor := cmd == XOR || cmd == OR;
    if cmd == ADD then Sum(mask, lhs, rhs)
    else if logicAnd || logicXor then
      Or(if logicAnd then And(lhs, rhs) else Zero, if logicXor then Xor(lhs, rhs) else Zero)
    else
      var pickLhs := if Less(mask, cmd, lhs, rhs) then cmd == MIN || cmd == MINU else cmd == MAX || cmd == MAXU;
      if pickLhs then lhs else rhs
  }

  /** io_out */
  function Out(mask: Mask, cmd: Cmd, lhs: Word64, rhs: Word64): Word64 {
    Or(And(ByteMask(mask), Result(mask, cmd, lhs, rhs)), And(Not(ByteMask(mask)), lhs))
  }

  // What the operations mean, on numbers.

  /** The two's-complement reading of an n-bit number. */
  function Signed(n: nat, a: nat): int
    requires n >= 1
  {
    if a < Pow2(n - 1) then a else a - Pow2(n)
  }

  function Bitwise(f: (bool, bool) -> bool, n: nat, a: nat, b: nat): nat {
    if n == 0 then 0 else (if f(a % 2 == 1, b % 2 == 1) then 1 else 0) + 2 * Bitwise(f, n - 1, a / 2, b / 2)
  }

  /** Of two numbers, the one whose reading is smaller, or greater. */
  function MinBy(f: int -> int, a: nat, b: nat): nat {
    if f(a) < f(b) then a else b
  }

  function MaxBy(f: int -> int, a: nat, b: nat): nat {
    if f(a) < f(b) then b else a
  }

  /** The result of an operation on n-bit numbers; every other command is a swap. */
  function Meaning(cmd: Cmd, n: nat, a: nat, b: nat): nat
    requires n >= 1
  {
    if cmd == ADD then (a + b) % Pow2(n)
    else if cmd == XOR then Bitwise((p, q) => p != q, n, a, b)
    else if cmd == OR then Bitwise((p, q) => p || q, n, a, b)
    else if cmd == AND then Bitwise((p, q) => p && q, n, a, b)
    else if cmd == MIN then MinBy((x: int) => if x >= 0 then Signed(n, x) else x, a, b)
    else if cmd == MAX then MaxBy((x: int) => if x >= 0 then Signed(n, x) else x, a, b)
    else if cmd == MINU then MinBy(x => x, a, b)
    else if cmd == MAXU then MaxBy(x => x, a, b)
    else b
  }

  // Numbers and bits.

  lemma {:induction false} ToNatBound(x: seq<bool>)
    ensures ToNat(x) < Pow2(|x|)
  {
    if x != [] {
      ToNatBound(x[1..]);
    }
  }

  /** n << k */
  function ShiftUp(n: nat, k: nat): nat {
    if k == 0 then n else 2 * ShiftUp(n, k - 1)
  }

  lemma {:induction false} ToNatAppend(x: seq<bool>, y: seq<bool>)
    ensures ToNat(x + y) == ToNat(x) + ShiftUp(ToNat(y), |x|)
  {
    if x == [] {
      assert x + y == y;
    } else {
      assert (x + y)[1..] == x[1..] + y;
      ToNatAppend(x[1..], y);
    }
  }

  lemma {:induction false} ShiftUpOne(k: nat)
    ensures ShiftUp(0, k) == 0 && ShiftUp(1, k) == Pow2(k)
  {
    if k > 0 {
      ShiftUpOne(k - 1);
    }
  }

  lemma {:induction false} ShiftUpSum(a: nat, b: nat, k: nat)
    ensures ShiftUp(a + b, k) == ShiftUp(a, k) + ShiftUp(b, k)
  {
    if k > 0 {
      ShiftUpSum(a, b, k - 1);
    }
  }

  lemma Twice(p: nat, n: nat)
    ensures 2 * (p * n) == 2 * p * n
  {}

  lemma {:induction false} ToNatInjective(x: seq<bool>, y: seq<bool>)
    requires |x| == |y| && ToNat(x) == ToNat(y)
    ensures x == y
    decreases |x|
  {
    if x != [] {
      ToNatInjective(x[1..], y[1..]);
      assert x == [x[0]] + x[1..] && y == [y[0]] + y[1..];
    }
  }

  lemma {:induction false} FromNatValue(n: nat, v: nat)
    ensures ToNat(FromNat(n, v)) == v % Pow2(n)
    decreases n
  {
    if n > 0 {
      FromNatValue(n - 1, v / 2);
      ModTwice(v, Pow2(n - 1));
    }
  }

  lemma ModTwice(v: nat, p: nat)
    requires p >= 1
    ensures v % (2 * p) == v % 2 + 2 * (v / 2 % p)
  {
    var q, r := v / 2 / p, v / 2 % p;
    DivMod(v / 2, p);
    Twice(q, p);
    DivUnique(v, q, v % 2 + 2 * r, 2 * p);
  }

  /** v >> k */
  function Shift(v: nat, k: nat): nat {
    if k == 0 then v else Shift(v / 2, k - 1)
  }

  lemma {:induction false} FromNatSplit(n: nat, k: nat, v: nat)
    requires k <= n
    ensures FromNat(n, v)[..k] == FromNat(k, v)
    ensures FromNat(n, v)[k..] == FromNat(n - k, Shift(v, k))
    decreases k
  {
    if k > 0 {
      FromNatSplit(n - 1, k - 1, v / 2);
    }
  }

  lemma {:induction false} ShiftSum(low: nat, high: nat, k: nat)
    requires low < Pow2(k)
    ensures Shift(low + ShiftUp(high, k), k) == high
  {
    if k > 0 {
      ShiftSum(low / 2, high, k - 1);
    }
  }

  /** The low bits of a sum do not depend on what is added above them. */
  lemma {:induction false} FromNatSum(low: nat, high: nat, k: nat)
    ensures FromNat(k, low + ShiftUp(high, k)) == FromNat(k, low)
  {
    if k > 0 {
      FromNatSum(low / 2, high, k - 1);
    }
  }

  lemma {:induction false} Split(x: seq<bool>, k: nat)
    requires k <= |x|
    ensures ToNat(x) == ToNat(x[..k]) + ShiftUp(ToNat(x[k..]), k)
  {
    assert x == x[..k] + x[k..];
    ToNatAppend(x[..k], x[k..]);
  }

  /** The top bit of an n-bit number. */
  lemma {:induction false} TopBit(x: seq<bool>)
    requires x != []
    ensures x[|x| - 1] <==> ToNat(x) >= Pow2(|x| - 1)
  {
    var n := |x| - 1;
    assert x == x[..n] + [x[n]];
    ToNatAppend(x[..n], [x[n]]);
    ToNatBound(x[..n]);
    ShiftUpOne(n);
  }

  /** Comparing bits with different signs by one of them is comparing numbers. */
  predicate Before(cmd: Cmd, n: nat, a: nat, b: nat)
    requires n >= 1
  {
    if Unsigned(cmd) then a < b else Signed(n, a) < Signed(n, b)
  }

  lemma {:induction false} SignsDecide(cmd: Cmd, x: seq<bool>, y: seq<bool>)
    requires |x| == |y| >= 1
    ensures var n := |x|;
            Before(cmd, n, ToNat(x), ToNat(y)) <==>
            if x[n - 1] == y[n - 1] then Below(x, y) else if Unsigned(cmd) then y[n - 1] else x[n - 1]
  {
    TopBit(x);
    TopBit(y);
    ToNatBound(x);
    ToNatBound(y);
  }

  lemma HighThenLow(x: seq<bool>, y: seq<bool>, k: nat)
    requires |x| == |y| && k <= |x|
    ensures Below(x, y) <==> Below(x[k..], y[k..]) || (x[k..] == y[k..] && Below(x[..k], y[..k]))
  {
    Split(x, k);
    Split(y, k);
    ToNatBound(x[..k]);
    ToNatBound(y[..k]);
    if ToNat(x[k..]) == ToNat(y[k..]) {
      ToNatInjective(x[k..], y[k..]);
    }
    Lexicographic(ToNat(x[k..]), ToNat(x[..k]), ToNat(y[k..]), ToNat(y[..k]), k);
  }

  lemma {:induction false} HighDecides(h: nat, l: nat, h': nat, l': nat, k: nat)
    requires h < h' && l < Pow2(k)
    ensures l + ShiftUp(h, k) < l' + ShiftUp(h', k)
  {
    ShiftUpOne(k);
    ShiftUpSum(h, 1, k);
    ShiftUpSum(h + 1, h' - h - 1, k);
  }

  lemma {:induction false} Lexicographic(h: nat, l: nat, h': nat, l': nat, k: nat)
    requires l < Pow2(k) && l' < Pow2(k)
    ensures l + ShiftUp(h, k) < l' + ShiftUp(h', k) <==> h < h' || (h == h' && l < l')
  {
    if h < h' {
      HighDecides(h, l, h', l', k);
    } else if h' < h {
      HighDecides(h', l', h, l, k);
    }
  }

  // Comparison.

  lemma {:induction false} LessWhole(mask: Mask, cmd: Cmd, lhs: Word64, rhs: Word64)
    requires mask[4]
    ensures Less(mask, cmd, lhs, rhs) <==> Before(cmd, 64, ToNat(lhs), ToNat(rhs))
  {
    SignsDecide(cmd, lhs, rhs);
    HighThenLow(lhs, rhs, 32);
  }

  lemma LessLow(mask: Mask, cmd: Cmd, lhs: Word64, rhs: Word64)
    requires !mask[4]
    ensures Less(mask, cmd, lhs, rhs) <==> Before(cmd, 32, ToNat(lhs[..32]), ToNat(rhs[..32]))
  {
    SignsDecide(cmd, lhs[..32], rhs[..32]);
  }

  /** The low words decide only between equal high words. */
  lemma LessHigh(mask: Mask, cmd: Cmd, lhs: Word64, rhs: Word64)
    requires mask[4] && lhs[32..] != rhs[32..]
    ensures Less(mask, cmd, lhs, rhs) <==> Before(cmd, 32, ToNat(lhs[32..]), ToNat(rhs[32..]))
  {
    SignsDecide(cmd, lhs[32..], rhs[32..]);
  }

  // Addition.

  lemma Uncut(mask: Mask, x: Word64)
    requires mask[3]
    ensures And(x, AdderMask(mask)) == x
  {}

  lemma {:induction false} Cut(mask: Mask, x: Word64, k: nat)
    requires !mask[3] && k == 32
    ensures And(x, AdderMask(mask))[k..] == x[k..]
    ensures 2 * ToNat(And(x, AdderMask(mask))[..k]) < Pow2(k)
  {
    var y := And(x, AdderMask(mask));
    assert y[k..] == x[k..];
    TopBit(y[..k]);
  }

  /** A sum of two words, the low parts and the high parts added apart. */
  lemma {:induction false} SumSplits(x: seq<bool>, y: seq<bool>, k: nat)
    requires k <= |x| == |y|
    ensures ToNat(x) + ToNat(y) == ToNat(x[..k]) + ToNat(y[..k]) + ShiftUp(ToNat(x[k..]) + ToNat(y[k..]), k)
  {
    Split(x, k);
    Split(y, k);
    ShiftUpSum(ToNat(x[k..]), ToNat(y[k..]), k);
  }

  lemma LowPart(n: nat, k: nat, low: nat, high: nat)
    requires k <= n
    ensures ToNat(FromNat(n, low + ShiftUp(high, k))[..k]) == low % Pow2(k)
  {
    FromNatSplit(n, k, low + ShiftUp(high, k));
    FromNatSum(low, high, k);
    FromNatValue(k, low);
  }

  lemma HighPart(n: nat, k: nat, low: nat, high: nat)
    requires k <= n && low < Pow2(k)
    ensures ToNat(FromNat(n, low + ShiftUp(high, k))[k..]) == high % Pow2(n - k)
  {
    FromNatSplit(n, k, low + ShiftUp(high, k));
    ShiftSum(low, high, k);
    FromNatValue(n - k, high);
  }

  lemma {:induction false} PlusLow(x: seq<bool>, y: seq<bool>, k: nat)
    requires |x| == |y| && k <= |x|
    ensures ToNat(Plus(x, y)[..k]) == (ToNat(x[..k]) + ToNat(y[..k])) % Pow2(k)
  {
    SumSplits(x, y, k);
    LowPart(|x|, k, ToNat(x[..k]) + ToNat(y[..k]), ToNat(x[k..]) + ToNat(y[k..]));
  }

  /** Without a carry out of the low parts, the high parts are added on their own. */
  lemma PlusHigh(x: seq<bool>, y: seq<bool>, k: nat)
    requires |x| == |y| && k <= |x| && ToNat(x[..k]) + ToNat(y[..k]) < Pow2(k)
    ensures ToNat(Plus(x, y)[k..]) == (ToNat(x[k..]) + ToNat(y[k..])) % Pow2(|x| - k)
  {
    SumSplits(x, y, k);
    HighPart(|x|, k, ToNat(x[..k]) + ToNat(y[..k]), ToNat(x[k..]) + ToNat(y[k..]));
  }

  // Logic.

  lemma {:induction false} BitwiseIs(f: (bool, bool) -> bool, x: seq<bool>, y: seq<bool>, z: seq<bool>)
    requires |x| == |y| == |z| && forall i :: 0 <= i < |x| ==> z[i] == f(x[i], y[i])
    ensures ToNat(z) == Bitwise(f, |x|, ToNat(x), ToNat(y))
    decreases |x|
  {
    if x != [] {
      BitwiseIs(f, x[1..], y[1..], z[1..]);
    }
  }

  /** A field of a word: the bits that one of the three access masks writes. */
  datatype Lane = Whole | Low | High {
    function Mask(): Mask {
      match this
      case Whole => Fill(8, true)
      case Low => Fill(4, true) + Fill(4, false)
      case High => Fill(4, false) + Fill(4, true)
    }

    function Length(): (n: nat)
      ensures n >= 1
    {
      if Whole? then 64 else 32
    }

    function Of(x: Word64): (f: seq<bool>)
      ensures |f| == Length()
    {
      match this
      case Whole => x
      case Low => x[..32]
      case High => x[32..]
    }
  }

  lemma ResultMeans(lane: Lane, cmd: Cmd, lhs: Word64, rhs: Word64)
    ensures ToNat(lane.Of(Result(lane.Mask(), cmd, lhs, rhs))) ==
            Meaning(cmd, lane.Length(), ToNat(lane.Of(lhs)), ToNat(lane.Of(rhs)))
  {
    if cmd == ADD {
      AddMeans(lane, lhs, rhs);
    } else if cmd == XOR || cmd == OR || cmd == AND {
      LogicMeans(lane, cmd, lhs, rhs);
    } else {
      PickMeans(lane, cmd, lhs, rhs);
    }
  }

  lemma AddMeans(lane: Lane, lhs: Word64, rhs: Word64)
    ensures ToNat(lane.Of(Sum(lane.Mask(), lhs, rhs))) ==
            (ToNat(lane.Of(lhs)) + ToNat(lane.Of(rhs))) % Pow2(lane.Length())
  {
    LaneMask(lane);
    AddLane(lane, lane.Mask(), lhs, rhs, lane.Length());
  }

  lemma {:induction false} AddLane(lane: Lane, m: Mask, lhs: Word64, rhs: Word64, k: nat)
    requires (m[3] <==> !lane.High?) && k == lane.Length()
    ensures ToNat(lane.Of(Sum(m, lhs, rhs))) == (ToNat(lane.Of(lhs)) + ToNat(lane.Of(rhs))) % Pow2(k)
  {
    var l, r, sum := lane.Of(lhs), lane.Of(rhs), lane.Of(Sum(m, lhs, rhs));
    if lane.High? {
      AddDrop(m, lhs, rhs, k, l, r, sum);
    } else {
      LaneTakes(lane, lhs);
      LaneTakes(lane, rhs);
      LaneTakes(lane, Sum(m, lhs, rhs));
      AddTake(m, lhs, rhs, k, l, r, sum);
    }
  }

  lemma {:induction false} AddTake(
    mask: Mask, lhs: Word64, rhs: Word64, k: nat, l: seq<bool>, r: seq<bool>, sum: seq<bool>)
    requires mask[3] && k <= WIDTH && l == lhs[..k] && r == rhs[..k] && sum == Sum(mask, lhs, rhs)[..k]
    ensures ToNat(sum) == (ToNat(l) + ToNat(r)) % Pow2(k)
  {
    AddUncut(mask, lhs, rhs, k);
  }

  lemma {:induction false} AddDrop(
    mask: Mask, lhs: Word64, rhs: Word64, k: nat, l: seq<bool>, r: seq<bool>, sum: seq<bool>)
    requires !mask[3] && k == 32 && l == lhs[k..] && r == rhs[k..] && sum == Sum(mask, lhs, rhs)[k..]
    ensures ToNat(sum) == (ToNat(l) + ToNat(r)) % Pow2(k)
  {
    AddHigh(mask, lhs, rhs, k);
  }

  lemma LaneMask(lane: Lane)
    ensures lane.Mask()[3] <==> !lane.High?
    ensures lane.Mask()[4] <==> !lane.Low?
  {}

  lemma LaneTakes(lane: Lane, x: Word64)
    requires !lane.High?
    ensures lane.Of(x) == x[..lane.Length()]
  {}

  lemma {:induction false} AddUncut(mask: Mask, lhs: Word64, rhs: Word64, k: nat)
    requires mask[3] && k <= WIDTH
    ensures ToNat(Sum(mask, lhs, rhs)[..k]) == (ToNat(lhs[..k]) + ToNat(rhs[..k])) % Pow2(k)
  {
    Uncut(mask, lhs);
    Uncut(mask, rhs);
    PlusLow(lhs, rhs, k);
  }

  /** Words whose low parts were cut to half their range add their high parts on their own. */
  lemma PlusCut(x: seq<bool>, y: seq<bool>, cutX: seq<bool>, cutY: seq<bool>, k: nat)
    requires |x| == |y| == |cutX| == |cutY| && k <= |x| && cutX[k..] == x[k..] && cutY[k..] == y[k..]
    requires 2 * ToNat(cutX[..k]) < Pow2(k) && 2 * ToNat(cutY[..k]) < Pow2(k)
    ensures ToNat(Plus(cutX, cutY)[k..]) == (ToNat(x[k..]) + ToNat(y[k..])) % Pow2(|x| - k)
  {
    PlusHigh(cutX, cutY, k);
  }

  lemma {:induction false} AddHigh(mask: Mask, lhs: Word64, rhs: Word64, k: nat)
    requires !mask[3] && k == 32
    ensures ToNat(Sum(mask, lhs, rhs)[k..]) == (ToNat(lhs[k..]) + ToNat(rhs[k..])) % Pow2(k)
  {
    Cut(mask, lhs, k);
    Cut(mask, rhs, k);
    PlusCut(lhs, rhs, And(lhs, AdderMask(mask)), And(rhs, AdderMask(mask)), k);
    assert WIDTH - k == k;
  }

  lemma LogicMeans(lane: Lane, cmd: Cmd, lhs: Word64, rhs: Word64)
    requires cmd == XOR || cmd == OR || cmd == AND
    ensures ToNat(lane.Of(Result(lane.Mask(), cmd, lhs, rhs))) ==
            Meaning(cmd, lane.Length(), ToNat(lane.Of(lhs)), ToNat(lane.Of(rhs)))
  {
    var r := lane.Of(Result(lane.Mask(), cmd, lhs, rhs));
    if cmd == XOR {
      BitwiseIs((p, q) => p != q, lane.Of(lhs), lane.Of(rhs), r);
    } else if cmd == OR {
      BitwiseIs((p, q) => p || q, lane.Of(lhs), lane.Of(rhs), r);
    } else {
      BitwiseIs((p, q) => p && q, lane.Of(lhs), lane.Of(rhs), r);
    }
  }

  predicate Picks(cmd: Cmd) {
    cmd != ADD && cmd != XOR && cmd != OR && cmd != AND
  }

  /** Selecting by a correct comparison is the minimum, maximum or swap. */
  lemma PickIs(cmd: Cmd, n: nat, a: nat, b: nat, less: bool)
    requires n >= 1 && Picks(cmd) && (less <==> Before(cmd, n, a, b))
    ensures Meaning(cmd, n, a, b) ==
            if (if less then cmd == MIN || cmd == MINU else cmd == MAX || cmd == MAXU) then a else b
  {}

  lemma PickMeans(lane: Lane, cmd: Cmd, lhs: Word64, rhs: Word64)
    requires Picks(cmd)
    ensures ToNat(lane.Of(Result(lane.Mask(), cmd, lhs, rhs))) ==
            Meaning(cmd, lane.Length(), ToNat(lane.Of(lhs)), ToNat(lane.Of(rhs)))
  {
    var m := lane.Mask();
    LaneMask(lane);
    var a, b := ToNat(lane.Of(lhs)), ToNat(lane.Of(rhs));
    match lane {
      case Whole => LessWhole(m, cmd, lhs, rhs);
      case Low => LessLow(m, cmd, lhs, rhs);
      case High =>
        if lhs[32..] != rhs[32..] {
          LessHigh(m, cmd, lhs, rhs);
        }
    }
    PickIs(cmd, lane.Length(), a, b, Before(cmd, lane.Length(), a, b));
  }

  /** Bytes that are not written keep io_lhs, whatever the mask and the command. */
  lemma UnmaskedBytesKept(mask: Mask, cmd: Cmd, lhs: Word64, rhs: Word64, i: nat)
    requires i < WIDTH
    ensures Out(mask, cmd, lhs, rhs)[i] == if mask[i / 8] then Result(mask, cmd, lhs, rhs)[i] else lhs[i]
  {}

  /** The ALU computes the operation on the selected field, as numbers of the field's width, and keeps the rest. */
  lemma AluMeans(lane: Lane, cmd: Cmd, lhs: Word64, rhs: Word64)
    ensures var out := Out(lane.Mask(), cmd, lhs, rhs);
            && ToNat(lane.Of(out)) == Meaning(cmd, lane.Length(), ToNat(lane.Of(lhs)), ToNat(lane.Of(rhs)))
            && (lane.Low? ==> out[32..] == lhs[32..])
            && (lane.High? ==> out[..32] == lhs[..32])
  {
    var out, r := Out(lane.Mask(), cmd, lhs, rhs), Result(lane.Mask(), cmd, lhs, rhs);
    forall i | 0 <= i < WIDTH ensures out[i] == if lane.Mask()[i / 8] then r[i] else lhs[i] {
      UnmaskedBytesKept(lane.Mask(), cmd, lhs, rhs, i);
    }
    assert lane.Of(out) == lane.Of(r);
    ResultMeans(lane, cmd, lhs, rhs);
  }

  // The same by command code.

  /** The three masks, and the bits they select. */
  lemma LaneIs(lane: Lane, x: Word64)
    ensures lane.Whole? ==> lane.Mask() == [true, true, true, true, true, true, true, true] && lane.Of(x) == x
    ensures lane.Low? ==> lane.Mask() == [true, true, true, true, false, false, false, false] && lane.Of(x) == x[..32]
    ensures lane.High? ==> lane.Mask() == [false, false, false, false, true, true, true, true] && lane.Of(x) == x[32..]
    ensures lane.Length() == |lane.Of(x)| && |lane.Of(x)| == if lane.Whole? then 64 else 32
  {}

  /** The two's-complement number on a bus: the top bit weighs negative. */
  function Int(x: seq<bool>): int
    requires x != []
  {
    ToNat(x[..|x| - 1]) - if x[|x| - 1] then Pow2(|x| - 1) else 0
  }

  lemma {:induction false} SignedIsInt(x: seq<bool>)
    requires x != []
    ensures Signed(|x|, ToNat(x)) == Int(x)
  {
    var n := |x| - 1;
    TopBit(x);
    Split(x, n);
    assert x[n..] == [x[n]];
    ShiftUpOne(n);
  }

  lemma OutOf(lane: Lane, cmd: Cmd, lhs: Word64, rhs: Word64)
    ensures lane.Of(Out(lane.Mask(), cmd, lhs, rhs)) == lane.Of(Result(lane.Mask(), cmd, lhs, rhs))
  {
    var out, r := Out(lane.Mask(), cmd, lhs, rhs), Result(lane.Mask(), cmd, lhs, rhs);
    forall i | 0 <= i < WIDTH ensures out[i] == if lane.Mask()[i / 8] then r[i] else lhs[i] {
      UnmaskedBytesKept(lane.Mask(), cmd, lhs, rhs, i);
    }
  }

  lemma AddCode(lane: Lane, lhs: Word64, rhs: Word64)
    ensures ToNat(lane.Of(Out(lane.Mask(), 8, lhs, rhs))) ==
            (ToNat(lane.Of(lhs)) + ToNat(lane.Of(rhs))) % Pow2(lane.Length())
  {
    AluMeans(lane, 8, lhs, rhs);
  }

  lemma ResultBit(mask: Mask, cmd: Cmd, lhs: Word64, rhs: Word64, i: nat)
    requires (cmd == 9 || cmd == 10 || cmd == 11) && i < WIDTH
    ensures Result(mask, cmd, lhs, rhs)[i] ==
            if cmd == 9 then lhs[i] != rhs[i] else if cmd == 10 then lhs[i] || rhs[i] else lhs[i] && rhs[i]
  {}

  lemma LaneBit(lane: Lane, x: Word64, i: nat)
    requires i < lane.Length()
    ensures lane.Of(x)[i] == x[if lane.High? then i + 32 else i]
  {}

  lemma LogicCode(lane: Lane, cmd: Cmd, lhs: Word64, rhs: Word64, i: nat)
    requires cmd == 9 || cmd == 10 || cmd == 11
    requires i < lane.Length()
    ensures var l, r := lane.Of(lhs)[i], lane.Of(rhs)[i];
            lane.Of(Out(lane.Mask(), cmd, lhs, rhs))[i] ==
            if cmd == 9 then l != r else if cmd == 10 then l || r else l && r
  {
    var m := lane.Mask();
    OutOf(lane, cmd, lhs, rhs);
    LaneBit(lane, lhs, i);
    LaneBit(lane, rhs, i);
    LaneBit(lane, Result(m, cmd, lhs, rhs), i);
    ResultBit(m, cmd, lhs, rhs, if lane.High? then i + 32 else i);
  }

  lemma OrderCode(lane: Lane, cmd: Cmd, lhs: Word64, rhs: Word64)
    requires cmd == 12 || cmd == 13 || cmd == 14 || cmd == 15
    ensures var l, r, o := lane.Of(lhs), lane.Of(rhs), lane.Of(Out(lane.Mask(), cmd, lhs, rhs));
            && (o == l || o == r)
            && (cmd == 12 ==> Int(o) <= Int(l) && Int(o) <= Int(r))
            && (cmd == 13 ==> Int(o) >= Int(l) && Int(o) >= Int(r))
            && (cmd == 14 ==> ToNat(o) <= ToNat(l) && ToNat(o) <= ToNat(r))
            && (cmd == 15 ==> ToNat(o) >= ToNat(l) && ToNat(o) >= ToNat(r))
  {
    var l, r, o := lane.Of(lhs), lane.Of(rhs), lane.Of(Out(lane.Mask(), cmd, lhs, rhs));
    OutOf(lane, cmd, lhs, rhs);
    AluMeans(lane, cmd, lhs, rhs);
    SignedIsInt(l);
    SignedIsInt(r);
    SignedIsInt(o);
  }

  lemma SwapCode(lane: Lane, cmd: Cmd, lhs: Word64, rhs: Word64)
    requires cmd < 8 || cmd > 15
    ensures lane.Of(Out(lane.Mask(), cmd, lhs, rhs)) == lane.Of(rhs)
  {
    OutOf(lane, cmd, lhs, rhs);
  }

  /** Every command code on every field: 8 adds modulo 2^n; 9, 10 and 11 are xor, or and and, bit by bit; 12 and 13 pick
      the least and the greatest two's-complement number, 14 and 15 the least and the greatest unsigned one; every other
      code gives io_rhs; and the other field keeps io_lhs. */
  lemma CommandCodes(lane: Lane, cmd: Cmd, lhs: Word64, rhs: Word64)
    ensures var out := Out(lane.Mask(), cmd, lhs, rhs);
            var l, r, o := lane.Of(lhs), lane.Of(rhs), lane.Of(out);
            && (cmd == 8 ==> ToNat(o) == (ToNat(l) + ToNat(r)) % Pow2(lane.Length()))
            && (cmd == 9 ==> forall i :: 0 <= i < |o| ==> o[i] == (l[i] != r[i]))
            && (cmd == 10 ==> forall i :: 0 <= i < |o| ==> o[i] == (l[i] || r[i]))
            && (cmd == 11 ==> forall i :: 0 <= i < |o| ==> o[i] == (l[i] && r[i]))
            && (12 <= cmd <= 15 ==> o == l || o == r)
            && (cmd == 12 ==> Int(o) <= Int(l) && Int(o) <= Int(r))
            && (cmd == 13 ==> Int(o) >= Int(l) && Int(o) >= Int(r))
            && (cmd == 14 ==> ToNat(o) <= ToNat(l) && ToNat(o) <= ToNat(r))
            && (cmd == 15 ==> ToNat(o) >= ToNat(l) && ToNat(o) >= ToNat(r))
            && (cmd < 8 || cmd > 15 ==> o == r)
            && (lane.Low? ==> out[32..] == lhs[32..])
            && (lane.High? ==> out[..32] == lhs[..32])
  {
    AluMeans(lane, cmd, lhs, rhs);
    if cmd == 8 {
      AddCode(lane, lhs, rhs);
    } else if 9 <= cmd <= 11 {
      forall i | 0 <= i < lane.Length()
        ensures var l, r := lane.Of(lhs)[i], lane.Of(rhs)[i];
                lane.Of(Out(lane.Mask(), cmd, lhs, rhs))[i] ==
                if cmd == 9 then l != r else if cmd == 10 then l || r else l && r
      {
        LogicCode(lane, cmd, lhs, rhs, i);
      }
    } else if 12 <= cmd <= 15 {
      OrderCode(lane, cmd, lhs, rhs);
    } else {
      SwapCode(lane, cmd, lhs, rhs);
    }
  }

  /** The moduli of the two widths. */
  lemma Moduli()
    ensures Pow2(32) == 0x1_0000_0000 && Pow2(64) == 0x1_0000_0000_0000_0000
  {
    assert Pow2(8) == 0x100;
    Pow2Splits(8, 16);
    Pow2Splits(16, 32);
    Pow2Splits(32, 64);
  }
}
