/** When a signal's normalised activity is at most 1. */
module ActivityBound {
  import opened Arithmetic
  import opened Text
  import Toggles
  import opened Vcd
  import opened Activity

  predicate Sets(e: Event, code: string) {
    e.Change? && e.code == code
  }

  predicate TimeBetween(es: seq<Event>, i: int, j: int)
    requires 0 <= i < j <= |es|
  {
    exists m :: i < m < j && es[m].Time?
  }

  /** At most one value for the code between consecutive time lines. */
  predicate Calm(es: seq<Event>, code: string) {
    forall i, j :: 0 <= i < j < |es| && Sets(es[i], code) && Sets(es[j], code) ==> TimeBetween(es, i, j)
  }

  /** A value came after the last time line. */
  predicate Pending(es: seq<Event>, code: string) {
    exists i :: 0 <= i < |es| && Sets(es[i], code) && !TimeBetween(es, i, |es|)
  }

  lemma CalmFront(es: seq<Event>, code: string)
    requires es != [] && Calm(es, code)
    ensures Calm(es[..|es| - 1], code)
    ensures Sets(es[|es| - 1], code) ==> !Pending(es[..|es| - 1], code)
  {
    var n := |es| - 1;
    forall i, j | 0 <= i < j < n && Sets(es[i], code) && Sets(es[j], code) ensures TimeBetween(es[..n], i, j) {
      BetweenFront(es, i, j);
    }
    if Sets(es[n], code) {
      forall i | 0 <= i < n && Sets(es[i], code) ensures TimeBetween(es[..n], i, n) {
        BetweenFront(es, i, n);
      }
    }
  }

  lemma BetweenFront(es: seq<Event>, i: int, j: int)
    requires 0 <= i < j < |es|
    ensures TimeBetween(es, i, j) == TimeBetween(es[..|es| - 1], i, j)
  {
    if TimeBetween(es, i, j) {
      var m :| i < m < j && es[m].Time?;
      assert es[..|es| - 1][m] == es[m];
    }
  }

  lemma PendingFront(es: seq<Event>, code: string)
    requires es != []
    ensures Sets(es[|es| - 1], code) ==> Pending(es, code)
    ensures !es[|es| - 1].Time? && Pending(es[..|es| - 1], code) ==> Pending(es, code)
  {
    var n := |es| - 1;
    if Sets(es[n], code) {
      assert !TimeBetween(es, n, n + 1);
    }
    if !es[n].Time? && Pending(es[..n], code) {
      var i :| 0 <= i < n && Sets(es[..n][i], code) && !TimeBetween(es[..n], i, n);
      forall m | i < m < n + 1 ensures !es[m].Time? {
        if m < n {
          assert es[..n][m] == es[m];
        }
      }
      assert Sets(es[i], code);
    }
  }

  /** A calm trace gives a code at most one value more than it has time lines. */
  lemma {:induction false} CalmCount(es: seq<Event>, code: string)
    requires Calm(es, code)
    ensures |ValuesOf(es, code)| <= Times(es) + if Pending(es, code) then 1 else 0
  {
    if es != [] {
      CalmFront(es, code);
      CalmCount(es[..|es| - 1], code);
      PendingFront(es, code);
    }
  }

  /** Values fit the declared width. */
  predicate Fits(es: seq<Event>, code: string, width: int) {
    forall i :: 0 <= i < |es| && Sets(es[i], code) ==> |es[i].value| <= Toggles.Max(1, width)
  }

  lemma {:induction false} ValuesFit(es: seq<Event>, code: string, width: int)
    requires Fits(es, code, width)
    ensures forall i :: 0 <= i < |ValuesOf(es, code)| ==> |ValuesOf(es, code)[i]| <= Toggles.Max(1, width)
  {
    if es != [] {
      var n := |es| - 1;
      assert forall i :: 0 <= i < n ==> es[..n][i] == es[i];
      ValuesFit(es[..n], code, width);
    }
  }

  predicate InUnit(x: real) {
    0.0 <= x <= 1.0
  }

  /** A calm signal with fitting values changes at most once per time line, and by at most its width. */
  lemma {:induction false} CalmBounds(s: Record, es: seq<Event>, code: string)
    requires CountMeans(s, es, code) && Calm(es, code) && Fits(es, code, s.width)
    ensures s.count.changes <= Times(es)
    ensures s.count.changes <= s.count.toggles <= s.count.changes * Bits(s)
  {
    CalmCount(es, code);
    ValuesFit(es, code, s.width);
    Toggles.CountBounds(ValuesOf(es, code), s.width);
  }

  lemma Ratio(a: nat, b: nat)
    requires b >= 1 && a <= b
    ensures InUnit(a as real / b as real)
  {}

  lemma ProductPositive(a: nat, b: nat)
    requires a >= 1 && b >= 1
    ensures a * b >= 1
  {}

  /** A count of value lines against the time lines: the test for an activity of at most 1. */
  predicate Few(es: seq<Event>, code: string) {
    |ValuesOf(es, code)| <= Denominator(Times(es)) + 1
  }

  lemma CalmIsFew(es: seq<Event>, code: string)
    requires Calm(es, code)
    ensures Few(es, code)
  {
    CalmCount(es, code);
  }

  lemma {:induction false} FewActivity(s: Record, es: seq<Event>, code: string)
    requires CountMeans(s, es, code) && Few(es, code) && Fits(es, code, s.width)
    ensures InUnit(ActivityOf(s, Times(es)))
  {
    ValuesFit(es, code, s.width);
    Toggles.CountBounds(ValuesOf(es, code), s.width);
    var n := Denominator(Times(es));
    MulLe(s.count.changes, n, Bits(s));
    ProductPositive(n, Bits(s));
    Ratio(s.count.toggles, n * Bits(s));
  }

  lemma {:induction false} CalmActivity(s: Record, es: seq<Event>, code: string)
    requires CountMeans(s, es, code) && Calm(es, code) && Fits(es, code, s.width)
    ensures InUnit(ActivityOf(s, Times(es)))
  {
    CalmIsFew(es, code);
    FewActivity(s, es, code);
  }

  // The test is exact.

  /** The same lines but for the values given to one code. */
  ghost predicate SameShape(es: seq<Event>, es': seq<Event>, code: string) {
    |es'| == |es| && forall i :: 0 <= i < |es| ==> SameLine(es[i], es'[i], code)
  }

  predicate SameLine(e: Event, e': Event, code: string) {
    e' == e || (Sets(e, code) && Sets(e', code))
  }

  lemma {:induction false} ShapeCounts(es: seq<Event>, es': seq<Event>, code: string)
    requires SameShape(es, es', code)
    ensures |ValuesOf(es', code)| == |ValuesOf(es, code)| && Times(es') == Times(es)
    decreases |es|
  {
    if es != [] {
      var n := |es| - 1;
      assert SameLine(es[n], es'[n], code);
      forall i | 0 <= i < n ensures SameLine(es[..n][i], es'[..n][i], code) {
        assert SameLine(es[i], es'[i], code);
      }
      ShapeCounts(es[..n], es'[..n], code);
    }
  }

  /** The same lines with the code's values replaced by all zeros and all ones in turn. */
  function Relabel(es: seq<Event>, code: string, bits: nat): (r: seq<Event>)
    ensures |r| == |es|
  {
    if es == [] then []
    else
      var front, e := es[..|es| - 1], es[|es| - 1];
      Relabel(front, code, bits) +
      [if Sets(e, code) then Change(code, Toggles.Wave(|ValuesOf(front, code)|, bits)) else e]
  }

  lemma {:induction false} RelabelIs(es: seq<Event>, code: string, bits: nat, width: int)
    requires bits == Toggles.Max(1, width)
    ensures var r := Relabel(es, code, bits);
            && SameShape(es, r, code) && Fits(r, code, width)
            && ValuesOf(r, code) == Toggles.Waves(|ValuesOf(es, code)|, bits)
  {
    if es != [] {
      var n := |es| - 1;
      var r, f := Relabel(es, code, bits), Relabel(es[..n], code, bits);
      RelabelIs(es[..n], code, bits, width);
      assert r[..n] == f;
      forall i | 0 <= i < |es|
        ensures SameLine(es[i], r[i], code)
        ensures Sets(r[i], code) ==> |r[i].value| <= bits
      {
        if i < n {
          assert SameLine(es[..n][i], f[i], code) && r[i] == f[i];
        }
      }
    }
  }

  lemma TooMany(n: nat, d: nat, bits: nat)
    requires n > d + 1 && d >= 1 && bits >= 1
    ensures d * bits >= 1 && (n - 1) * bits > d * bits && ((n - 1) * bits) as real / (d * bits) as real > 1.0
  {
    ProductPositive(d, bits);
    MulLe(d + 1, n - 1, bits);
    Distribute(d, 1, bits);
  }

  lemma ManyExceedsOne(es: seq<Event>, code: string, width: int) returns (es': seq<Event>, s: Record)
    requires !Few(es, code)
    ensures SameShape(es, es', code) && Fits(es', code, width) && s.width == width && CountMeans(s, es', code)
    ensures ActivityOf(s, Times(es')) > 1.0
  {
    var bits := Toggles.Max(1, width);
    es' := Relabel(es, code, bits);
    s := Record("", width, Toggles.Counted(ValuesOf(es', code), width));
    RelabelIs(es, code, bits, width);
    ShapeCounts(es, es', code);
    var n := |ValuesOf(es, code)|;
    Toggles.WavesCount(n, width);
    TooMany(n, Denominator(Times(es)), bits);
  }

  ghost predicate AlwaysInUnit(es: seq<Event>, code: string, width: int) {
    forall es', s: Record ::
      SameShape(es, es', code) && Fits(es', code, width) && s.width == width && CountMeans(s, es', code) ==>
        InUnit(ActivityOf(s, Times(es')))
  }

  /** A code's activity is in [0, 1] whatever fitting values its value lines carry, if and only if there are at most
      max(1, time lines) + 1 of them. */
  lemma ActivityExactly(es: seq<Event>, code: string, width: int)
    ensures AlwaysInUnit(es, code, width) <==> Few(es, code)
  {
    if Few(es, code) {
      forall es', s: Record |
        SameShape(es, es', code) && Fits(es', code, width) && s.width == width && CountMeans(s, es', code)
        ensures InUnit(ActivityOf(s, Times(es')))
      {
        ShapeCounts(es, es', code);
        FewActivity(s, es', code);
      }
    } else {
      var es', s := ManyExceedsOne(es, code, width);
    }
  }

  /** A concrete case: two changes of one bit between two time lines are an activity of 2. */
  lemma GlitchExceedsOne(code: string)
    ensures var es := [Time(Some(0)), Change(code, "0"), Change(code, "1"), Change(code, "0")];
            && !Few(es, code) && Fits(es, code, 1)
            && forall s: Record :: s.width == 1 && CountMeans(s, es, code) ==> ActivityOf(s, Times(es)) == 2.0
  {
    var es := [Time(Some(0)), Change(code, "0"), Change(code, "1"), Change(code, "0")];
    GlitchTrace(code);
    forall s: Record | s.width == 1 && CountMeans(s, es, code)
      ensures ActivityOf(s, Times(es)) == 2.0
    {
      GlitchActivity(s);
    }
  }

  lemma GlitchActivity(s: Record)
    requires s.width == 1 && s.count == Toggles.Counted(["0", "1", "0"], 1)
    ensures ActivityOf(s, 1) == 2.0
  {
    GlitchWaves();
    Toggles.WavesCount(3, 1);
  }

  lemma {:induction false} GlitchTrace(code: string)
    ensures var es := [Time(Some(0)), Change(code, "0"), Change(code, "1"), Change(code, "0")];
            ValuesOf(es, code) == ["0", "1", "0"] && Times(es) == 1
  {
    var t, a, b := Time(Some(0)), Change(code, "0"), Change(code, "1");
    Grow([], t, code);
    Grow([t], a, code);
    Grow([t, a], b, code);
    Grow([t, a, b], a, code);
    assert [t] == [] + [t] && [t, a] == [t] + [a] && [t, a, b] == [t, a] + [b] && [t, a, b, a] == [t, a, b] + [a];
  }

  lemma {:induction false} Grow(es: seq<Event>, e: Event, code: string)
    ensures ValuesOf(es + [e], code) ==
            if e.Change? && e.code == code then ValuesOf(es, code) + [e.value] else ValuesOf(es, code)
    ensures Times(es + [e]) == Times(es) + if e.Time? then 1 else 0
  {
    assert (es + [e])[..|es|] == es;
  }

  lemma GlitchWaves()
    ensures Toggles.Waves(3, 1) == ["0", "1", "0"]
  {
    var zero, one := Toggles.Wave(0, 1), Toggles.Wave(1, 1);
    assert zero == "0" && one == "1" && Toggles.Wave(2, 1) == "0";
    assert Toggles.Waves(0, 1) == [];
    assert Toggles.Waves(1, 1) == [zero];
    assert Toggles.Waves(2, 1) == [zero, one];
  }
}
