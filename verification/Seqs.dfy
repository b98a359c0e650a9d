/** Filtering and mapping of sequences: the algebra behind "in order within each ID". */
module Seqs {

  function Filter<T>(s: seq<T>, p: T -> bool): seq<T> {
    if s == [] then [] else Filter(s[..|s| - 1], p) + (if p(s[|s| - 1]) then [s[|s| - 1]] else [])
  }

  function Map<T, U>(s: seq<T>, f: T -> U): (r: seq<U>)
    ensures |r| == |s|
    ensures forall i :: 0 <= i < |s| ==> r[i] == f(s[i])
  {
    seq(|s|, i requires 0 <= i < |s| => f(s[i]))
  }

  function Sum<T>(s: seq<T>, f: T -> nat): nat {
    if s == [] then 0 else Sum(s[..|s| - 1], f) + f(s[|s| - 1])
  }

  function RemoveAt<T>(s: seq<T>, i: nat): seq<T>
    requires i < |s|
  {
    s[..i] + s[i + 1..]
  }

  /** The first index whose element passes p, or |s|. */
  function FirstIndex<T>(s: seq<T>, p: T -> bool): (i: nat)
    ensures i <= |s|
    ensures i < |s| ==> p(s[i])
    ensures forall j :: 0 <= j < i ==> !p(s[j])
  {
    if s == [] then 0 else if p(s[0]) then 0 else 1 + FirstIndex(s[1..], p)
  }

  lemma {:induction false} FilterBeforeFirst<T>(s: seq<T>, p: T -> bool)
    ensures Filter(s[..FirstIndex(s, p)], p) == []
  {
    FilterNone(s[..FirstIndex(s, p)], p);
  }

  lemma {:induction false} FilterAppend<T>(a: seq<T>, b: seq<T>, p: T -> bool)
    ensures Filter(a + b, p) == Filter(a, p) + Filter(b, p)
  {
    if b == [] {
      assert a + b == a;
    } else {
      var n := |b| - 1;
      assert (a + b)[..|a| + n] == a + b[..n];
      FilterAppend(a, b[..n], p);
    }
  }

  lemma FilterOne<T>(x: T, p: T -> bool)
    ensures Filter([x], p) == if p(x) then [x] else []
  {
    assert [x][..0] == [];
  }

  lemma {:induction false} FilterSnoc<T>(s: seq<T>, x: T, p: T -> bool)
    ensures Filter(s + [x], p) == if p(x) then Filter(s, p) + [x] else Filter(s, p)
  {
    FilterAppend(s, [x], p);
    FilterOne(x, p);
  }

  lemma {:induction false} FilterIn<T>(s: seq<T>, p: T -> bool, x: T)
    ensures x in Filter(s, p) <==> x in s && p(x)
  {
    if s != [] {
      FilterIn(s[..|s| - 1], p, x);
    }
  }

  lemma {:induction false} FilterNone<T>(s: seq<T>, p: T -> bool)
    requires forall j :: 0 <= j < |s| ==> !p(s[j])
    ensures Filter(s, p) == []
  {
    if s != [] {
      FilterNone(s[..|s| - 1], p);
    }
  }

  lemma {:induction false} FilterMiddle<T>(a: seq<T>, x: T, b: seq<T>, p: T -> bool)
    ensures Filter(a + [x] + b, p) == Filter(a, p) + Filter([x], p) + Filter(b, p)
  {
    FilterAppend(a + [x], b, p);
    FilterAppend(a, [x], p);
  }

  lemma {:induction false} WithoutMiddle<T>(a: seq<T>, x: T, b: seq<T>, p: T -> bool)
    ensures !p(x) ==> Filter(a + [x] + b, p) == Filter(a + b, p)
    ensures p(x) && Filter(a, p) == [] ==> Filter(a + [x] + b, p) == [x] + Filter(a + b, p)
    ensures p(x) && |Filter(a + [x] + b, p)| <= 1 ==> Filter(a + [x] + b, p) == [x] && Filter(a + b, p) == []
  {
    FilterMiddle(a, x, b, p);
    FilterOne(x, p);
    FilterAppend(a, b, p);
  }

  lemma {:induction false} FilterRemoveCount<T>(s: seq<T>, i: nat, p: T -> bool)
    requires i < |s|
    ensures |Filter(s, p)| == |Filter(RemoveAt(s, i), p)| + if p(s[i]) then 1 else 0
  {
    assert s == s[..i] + [s[i]] + s[i + 1..];
    FilterMiddle(s[..i], s[i], s[i + 1..], p);
    FilterOne(s[i], p);
    FilterAppend(s[..i], s[i + 1..], p);
  }

  /** Removing an element that fails the filter changes nothing. */
  lemma {:induction false} FilterRemoveOther<T>(s: seq<T>, i: nat, p: T -> bool)
    requires i < |s| && !p(s[i])
    ensures Filter(RemoveAt(s, i), p) == Filter(s, p)
  {
    assert s == s[..i] + [s[i]] + s[i + 1..];
    WithoutMiddle(s[..i], s[i], s[i + 1..], p);
  }

  /** Removing the first element that passes the filter drops the head of the filtered sequence. */
  lemma {:induction false} FilterRemoveFirst<T>(s: seq<T>, i: nat, p: T -> bool)
    requires i < |s| && p(s[i]) && Filter(s[..i], p) == []
    ensures Filter(s, p) == [s[i]] + Filter(RemoveAt(s, i), p)
  {
    assert s == s[..i] + [s[i]] + s[i + 1..];
    WithoutMiddle(s[..i], s[i], s[i + 1..], p);
  }

  /** Removing the only element that passes the filter leaves none. */
  lemma {:induction false} FilterRemoveOnly<T>(s: seq<T>, i: nat, p: T -> bool)
    requires i < |s| && p(s[i]) && |Filter(s, p)| <= 1
    ensures Filter(s, p) == [s[i]] && Filter(RemoveAt(s, i), p) == []
  {
    assert s == s[..i] + [s[i]] + s[i + 1..];
    WithoutMiddle(s[..i], s[i], s[i + 1..], p);
  }

  lemma MapRemoveAt<T, U>(s: seq<T>, i: nat, f: T -> U)
    requires i < |s|
    ensures Map(RemoveAt(s, i), f) == RemoveAt(Map(s, f), i)
  {}

  lemma MapSnoc<T, U>(s: seq<T>, x: T, f: T -> U)
    ensures Map(s + [x], f) == Map(s, f) + [f(x)]
  {}

  lemma MapTail<T, U>(s: seq<T>, f: T -> U)
    requires s != []
    ensures Map(s, f)[1..] == Map(s[1..], f)
  {}

  lemma {:induction false} FilterMap<T, U>(s: seq<T>, f: T -> U, p: U -> bool, q: T -> bool)
    requires forall x :: x in s ==> q(x) == p(f(x))
    ensures Filter(Map(s, f), p) == Map(Filter(s, q), f)
  {
    if s != [] {
      var n := |s| - 1;
      FilterMap(s[..n], f, p, q);
      assert Map(s, f)[..n] == Map(s[..n], f);
      assert s[n] in s;
    }
  }

  lemma {:induction false} FilterPrefix<T>(s: seq<T>, i: nat, p: T -> bool)
    requires i <= |s|
    ensures Filter(s[..i], p) <= Filter(s, p)
  {
    assert s == s[..i] + s[i..];
    FilterAppend(s[..i], s[i..], p);
  }

  /** If the filtered sequence is increasing in f, so are any two elements that pass. */
  lemma {:induction false} FilterIncreasing<T>(s: seq<T>, p: T -> bool, f: T -> int, i: nat, j: nat)
    requires i < j < |s| && p(s[i]) && p(s[j])
    requires forall x, y :: 0 <= x < y < |Filter(s, p)| ==> f(Filter(s, p)[x]) < f(Filter(s, p)[y])
    ensures f(s[i]) < f(s[j])
    decreases |s|
  {
    var n := |s| - 1;
    var front := Filter(s[..n], p);
    if j == n {
      FilterIn(s[..n], p, s[i]);
      assert s[i] in s[..n] by { assert s[..n][i] == s[i]; }
      var x :| 0 <= x < |front| && front[x] == s[i];
      assert Filter(s, p)[x] == s[i] && Filter(s, p)[|front|] == s[j];
    } else {
      FilterPrefix(s, n, p);
      FilterIncreasing(s[..n], p, f, i, j);
    }
  }

  /** Filtering keeps an increasing sequence increasing. */
  lemma {:induction false} IncreasingFilter<T>(s: seq<T>, p: T -> bool, f: T -> int, x: nat, y: nat)
    requires forall i, j :: 0 <= i < j < |s| ==> f(s[i]) < f(s[j])
    requires x < y < |Filter(s, p)|
    ensures f(Filter(s, p)[x]) < f(Filter(s, p)[y])
    decreases |s|
  {
    var n := |s| - 1;
    var front := Filter(s[..n], p);
    if y < |front| {
      IncreasingFilter(s[..n], p, f, x, y);
    } else {
      var e := front[x];
      assert e in front;
      FilterIn(s[..n], p, e);
      var i :| 0 <= i < n && s[i] == e;
    }
  }

  lemma {:induction false} FilterTwice<T>(s: seq<T>, p: T -> bool, q: T -> bool)
    ensures |Filter(Filter(s, p), q)| <= |Filter(s, q)|
  {
    if s != [] {
      var n := |s| - 1;
      FilterTwice(s[..n], p, q);
      assert Filter(s, p) == if p(s[n]) then Filter(s[..n], p) + [s[n]] else Filter(s[..n], p);
      FilterSnoc(Filter(s[..n], p), s[n], q);
    }
  }

  lemma {:induction false} FilterTwo<T>(s: seq<T>, p: T -> bool, i: nat, j: nat)
    requires i < j < |s| && p(s[i]) && p(s[j])
    ensures |Filter(s, p)| >= 2
  {
    FilterRemoveCount(s, j, p);
    var r := RemoveAt(s, j);
    assert r[i] == s[i];
    FilterRemoveCount(r, i, p);
  }

  lemma Regroup<T>(a: seq<T>, x: T, b: seq<T>)
    ensures a + [x] + [] + b == a + [x] + b
    ensures a + [] + ([x] + b) == a + [x] + b
  {}

  lemma {:induction false} SumSnoc<T>(s: seq<T>, x: T, f: T -> nat)
    ensures Sum(s + [x], f) == Sum(s, f) + f(x)
  {
    assert (s + [x])[..|s|] == s;
  }

  lemma {:induction false} SumAppend<T>(a: seq<T>, b: seq<T>, f: T -> nat)
    ensures Sum(a + b, f) == Sum(a, f) + Sum(b, f)
  {
    if b == [] {
      assert a + b == a;
    } else {
      var n := |b| - 1;
      assert (a + b)[..|a| + n] == a + b[..n];
      SumAppend(a, b[..n], f);
    }
  }

  lemma {:induction false} SumSplit<T>(s: seq<T>, i: nat, f: T -> nat)
    requires i < |s|
    ensures Sum(s, f) == Sum(s[..i], f) + f(s[i]) + Sum(s[i + 1..], f)
  {
    assert s == s[..i] + [s[i]] + s[i + 1..];
    SumAppend(s[..i] + [s[i]], s[i + 1..], f);
    SumSnoc(s[..i], s[i], f);
  }

  lemma {:induction false} SumRemoveAt<T>(s: seq<T>, i: nat, f: T -> nat)
    requires i < |s|
    ensures Sum(s, f) == Sum(RemoveAt(s, i), f) + f(s[i])
  {
    SumSplit(s, i, f);
    SumAppend(s[..i], s[i + 1..], f);
  }
}
