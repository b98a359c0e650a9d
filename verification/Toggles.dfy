/** value_toggle_delta and the toggle count of a signal as a distance on binary values. */
module Toggles {

  predicate Binary(v: string) {
    forall i :: 0 <= i < |v| ==> v[i] == '0' || v[i] == '1'
  }

  function Max(a: int, b: int): int {
    if a < b then b else a
  }

  function Min(a: int, b: int): int {
    if a < b then a else b
  }

  function Zfill(v: string, n: int): (r: string)
    ensures |r| == Max(|v|, n)
  {
    if |v| >= n then v else seq(n - |v|, _ => '0') + v
  }

  /** Positions at which two strings of one length differ. */
  function Differences(a: string, b: string): nat
    requires |a| == |b|
  {
    if a == "" then 0
    else Differences(a[..|a| - 1], b[..|b| - 1]) + if a[|a| - 1] != b[|b| - 1] then 1 else 0
  }

  /** value_toggle_delta */
  function Delta(before: string, after: string, width: int): nat {
    if before == after then 0
    else if Binary(before) && Binary(after) then
      var n := Max(Max(|before|, |after|), width);
      Differences(Zfill(before, n), Zfill(after, n))
    else Max(1, Min(width, 1))
  }

  // The number a binary value stands for.

  function Value(v: string): nat {
    if v == "" then 0 else 2 * Value(v[..|v| - 1]) + if v[|v| - 1] == '1' then 1 else 0
  }

  /** popcount(a xor b) */
  function Distance(a: nat, b: nat): nat
    decreases a + b
  {
    if a == 0 && b == 0 then 0 else (if a % 2 != b % 2 then 1 else 0) + Distance(a / 2, b / 2)
  }

  lemma {:induction false} DifferencesAreDistance(a: string, b: string)
    requires |a| == |b| && Binary(a) && Binary(b)
    ensures Differences(a, b) == Distance(Value(a), Value(b))
    decreases |a|
  {
    if a != "" {
      var n := |a| - 1;
      DifferencesAreDistance(a[..n], b[..n]);
      var x, y := Value(a[..n]), Value(b[..n]);
      assert Value(a) / 2 == x && Value(b) / 2 == y;
    }
  }

  lemma {:induction false} LeadingZeros(v: string, n: nat)
    ensures Value(seq(n, _ => '0') + v) == Value(v)
    decreases |v|
  {
    var z := seq(n, _ => '0');
    if v == "" {
      Zeros(n);
      assert z + v == z;
    } else {
      assert (z + v)[..|z + v| - 1] == z + v[..|v| - 1];
      LeadingZeros(v[..|v| - 1], n);
    }
  }

  lemma {:induction false} Zeros(n: nat)
    ensures Value(seq(n, _ => '0')) == 0
  {
    if n != 0 {
      assert seq(n, _ => '0')[..n - 1] == seq(n - 1, _ => '0');
      Zeros(n - 1);
    }
  }

  lemma {:induction false} ZfillValue(v: string, n: int)
    requires Binary(v)
    ensures Binary(Zfill(v, n)) && Value(Zfill(v, n)) == Value(v)
  {
    if |v| < n {
      LeadingZeros(v, n - |v|);
    }
  }

  /** Between binary values the delta is the number of bits in which their numbers differ, whatever their leading
      zeros and the declared width. */
  lemma {:induction false} DeltaIsDistance(a: string, b: string, width: int)
    requires Binary(a) && Binary(b)
    ensures Delta(a, b, width) == Distance(Value(a), Value(b))
  {
    if a == b {
      DistanceZero(Value(a), Value(b));
    } else {
      var n := Max(Max(|a|, |b|), width);
      ZfillValue(a, n);
      ZfillValue(b, n);
      DifferencesAreDistance(Zfill(a, n), Zfill(b, n));
    }
  }

  lemma {:induction false} DistanceZero(a: nat, b: nat)
    ensures Distance(a, b) == 0 <==> a == b
    decreases a + b
  {
    if a != 0 || b != 0 {
      DistanceZero(a / 2, b / 2);
    }
  }

  lemma {:induction false} Symmetric(a: nat, b: nat)
    ensures Distance(a, b) == Distance(b, a)
    decreases a + b
  {
    if a != 0 || b != 0 {
      Symmetric(a / 2, b / 2);
    }
  }

  lemma {:induction false} Triangle(a: nat, b: nat, c: nat)
    ensures Distance(a, c) <= Distance(a, b) + Distance(b, c)
    ensures (Distance(a, b) + Distance(b, c) - Distance(a, c)) % 2 == 0
    decreases a + b + c
  {
    if a != 0 || b != 0 || c != 0 {
      Triangle(a / 2, b / 2, c / 2);
    }
  }

  /** Between other values the delta only says whether they differ. */
  lemma DeltaOtherwise(a: string, b: string, width: int)
    requires exists i :: (0 <= i < |a| && a[i] != '0' && a[i] != '1') || (0 <= i < |b| && b[i] != '0' && b[i] != '1')
    ensures Delta(a, b, width) == if a == b then 0 else 1
  {}

  // A signal's count over a trace.

  /** Signal.last, .toggles and .changes. */
  datatype Count = Count(last: Last, toggles: nat, changes: nat)

  datatype Last = Unset | Seen(value: string)

  function Next(c: Count, v: string, width: int): Count {
    match c.last
    case Unset => c.(last := Seen(v))
    case Seen(before) =>
      var d := Delta(before, v, width);
      if d != 0 then Count(Seen(v), c.toggles + d, c.changes + 1) else c.(last := Seen(v))
  }

  function Counted(vs: seq<string>, width: int): Count {
    if vs == [] then Count(Unset, 0, 0) else Next(Counted(vs[..|vs| - 1], width), vs[|vs| - 1], width)
  }

  function Steps(vs: seq<string>): nat {
    if |vs| <= 1 then 0
    else Steps(vs[..|vs| - 1]) + Distance(Value(vs[|vs| - 2]), Value(vs[|vs| - 1]))
  }

  lemma {:induction false} LastSeen(vs: seq<string>, width: int)
    ensures Counted(vs, width).last == if vs == [] then Unset else Seen(vs[|vs| - 1])
  {
  }

  /** Over a trace of binary values the toggle count is the sum of the bit distances of consecutive values. */
  lemma {:induction false} TogglesAreSteps(vs: seq<string>, width: int)
    requires forall i :: 0 <= i < |vs| ==> Binary(vs[i])
    ensures Counted(vs, width).toggles == Steps(vs)
  {
    if vs != [] {
      var n := |vs| - 1;
      TogglesAreSteps(vs[..n], width);
      LastSeen(vs[..n], width);
      if n > 0 {
        DeltaIsDistance(vs[n - 1], vs[n], width);
      }
    }
  }

  lemma {:induction false} OneMoreStep(first: nat, last: nat, next: nat, steps: nat)
    requires Distance(first, last) <= steps && (steps - Distance(first, last)) % 2 == 0
    ensures var d, s := Distance(first, next), steps + Distance(last, next); d <= s && (s - d) % 2 == 0
  {
    Triangle(first, last, next);
  }

  /** The count is at least the distance from the first value to the last, and of the same parity. */
  lemma {:induction false} StepsFromFirstToLast(vs: seq<string>)
    requires vs != []
    ensures var d := Distance(Value(vs[0]), Value(vs[|vs| - 1]));
            d <= Steps(vs) && (Steps(vs) - d) % 2 == 0
  {
    var n := |vs| - 1;
    if n == 0 {
      DistanceZero(Value(vs[0]), Value(vs[0]));
    } else {
      StepsFromFirstToLast(vs[..n]);
      OneMoreStep(Value(vs[0]), Value(vs[n - 1]), Value(vs[n]), Steps(vs[..n]));
    }
  }

  lemma {:induction false} TogglesFromFirstToLast(vs: seq<string>, width: int)
    requires vs != [] && forall i :: 0 <= i < |vs| ==> Binary(vs[i])
    ensures var t, d := Counted(vs, width).toggles, Distance(Value(vs[0]), Value(vs[|vs| - 1]));
            d <= t && (t - d) % 2 == 0
  {
    TogglesAreSteps(vs, width);
    StepsFromFirstToLast(vs);
  }

  lemma {:induction false} DifferencesBound(a: string, b: string)
    requires |a| == |b|
    ensures Differences(a, b) <= |a|
    decreases |a|
  {
    if a != "" {
      DifferencesBound(a[..|a| - 1], b[..|b| - 1]);
    }
  }

  /** With values that fit the width, every counted change is 1 to `width` toggles, and there are fewer changes than
      values. A width below 1 counts as 1. */
  lemma {:induction false} CountBounds(vs: seq<string>, width: int)
    requires forall i :: 0 <= i < |vs| ==> |vs[i]| <= Max(1, width)
    ensures var c := Counted(vs, width);
            Bounded(c, Max(1, width)) && c.changes <= if vs == [] then 0 else |vs| - 1
  {
    if vs != [] {
      var n := |vs| - 1;
      var c := Counted(vs[..n], width);
      CountBounds(vs[..n], width);
      LastSeen(vs[..n], width);
      NextBounds(c, vs[n], width);
    }
  }

  predicate Bounded(c: Count, bits: int) {
    && c.changes <= c.toggles <= c.changes * bits
    && (c.last.Seen? ==> |c.last.value| <= bits)
  }

  lemma NextBounds(c: Count, v: string, width: int)
    requires Bounded(c, Max(1, width)) && |v| <= Max(1, width)
    ensures Bounded(Next(c, v, width), Max(1, width))
    ensures Next(c, v, width).changes <= c.changes + if c.last.Seen? then 1 else 0
  {
    if c.last.Seen? {
      DeltaBound(c.last.value, v, width);
      OneMore(c.changes, Max(1, width));
    }
  }

  lemma OneMore(n: int, bits: int)
    ensures (n + 1) * bits == n * bits + bits
  {}

  lemma DeltaBound(a: string, b: string, width: int)
    requires |a| <= Max(1, width) && |b| <= Max(1, width)
    ensures Delta(a, b, width) <= Max(1, width)
  {
    if Binary(a) && Binary(b) && a != b {
      var n := Max(Max(|a|, |b|), width);
      DifferencesBound(Zfill(a, n), Zfill(b, n));
    }
  }

  // The busiest trace: every bit changes at every value.

  function Wave(i: nat, bits: nat): (v: string)
    ensures |v| == bits
  {
    seq(bits, _ => if i % 2 == 0 then '0' else '1')
  }

  function Waves(n: nat, bits: nat): (vs: seq<string>)
    ensures |vs| == n
  {
    if n == 0 then [] else Waves(n - 1, bits) + [Wave(n - 1, bits)]
  }

  lemma {:induction false} AllDiffer(a: string, b: string)
    requires |a| == |b| && forall i :: 0 <= i < |a| ==> a[i] != b[i]
    ensures Differences(a, b) == |a|
    decreases |a|
  {
    if a != "" {
      AllDiffer(a[..|a| - 1], b[..|b| - 1]);
    }
  }

  lemma WaveDelta(i: nat, width: int)
    ensures Delta(Wave(i, Max(1, width)), Wave(i + 1, Max(1, width)), width) == Max(1, width)
  {
    var bits := Max(1, width);
    var a, b := Wave(i, bits), Wave(i + 1, bits);
    assert a[0] != b[0];
    AllDiffer(a, b);
  }

  lemma WaveNext(c: Count, i: nat, width: int)
    requires c.last == Seen(Wave(i, Max(1, width)))
    ensures Next(c, Wave(i + 1, Max(1, width)), width).toggles == c.toggles + Max(1, width)
  {
    WaveDelta(i, width);
  }

  lemma {:induction false} CountedSnoc(vs: seq<string>, v: string, width: int)
    ensures Counted(vs + [v], width) == Next(Counted(vs, width), v, width)
  {
    assert (vs + [v])[..|vs|] == vs;
  }

  lemma {:induction false} WavesCount(n: nat, width: int)
    requires n >= 1
    ensures Counted(Waves(n, Max(1, width)), width).toggles == (n - 1) * Max(1, width)
  {
    var bits := Max(1, width);
    var front := Waves(n - 1, bits);
    CountedSnoc(front, Wave(n - 1, bits), width);
    if n > 1 {
      WavesCount(n - 1, width);
      OneMoreWave(Counted(front, width), n - 1, width);
    }
  }

  lemma {:induction false} OneMoreWave(c: Count, n: nat, width: int)
    requires n >= 1 && c == Counted(Waves(n, Max(1, width)), width) && c.toggles == (n - 1) * Max(1, width)
    ensures Next(c, Wave(n, Max(1, width)), width).toggles == n * Max(1, width)
  {
    LastSeen(Waves(n, Max(1, width)), width);
    WaveNext(c, n - 1, width);
    OneMore(n - 1, Max(1, width));
  }
}
