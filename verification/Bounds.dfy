/** How much can be outstanding behind AXI4UserYanker. */
module Bounds {
  import opened Seqs
  import opened Memory
  import opened Axi
  import opened Bursts
  import opened System
  import opened EndToEnd
  import R = ReadPath
  import W = WritePath
  import Y = UserYanker

  /** f(0) + ... + f(n - 1) */
  function Total(n: nat, f: nat -> nat): nat {
    if n == 0 then 0 else Total(n - 1, f) + f(n - 1)
  }

  function Below<T>(id: T -> Id4, n: nat): T -> bool {
    (t: T) => id(t) < n
  }

  function Exactly<T>(id: T -> Id4, k: nat): T -> bool {
    (t: T) => id(t) == k
  }

  lemma {:induction false} BelowNext<T>(s: seq<T>, id: T -> Id4, n: nat)
    ensures |Filter(s, Below(id, n + 1))| == |Filter(s, Below(id, n))| + |Filter(s, Exactly(id, n))|
  {
    if s != [] {
      BelowNext(s[..|s| - 1], id, n);
    }
  }

  lemma {:induction false} AllBelow<T>(s: seq<T>, id: T -> Id4)
    ensures Filter(s, Below(id, 16)) == s
  {
    if s != [] {
      AllBelow(s[..|s| - 1], id);
    }
  }

  /** A sequence is the sum of its parts by ID. */
  lemma {:induction false} PartsBelow<T>(s: seq<T>, id: T -> Id4, n: nat, f: nat -> nat)
    requires forall k :: 0 <= k < n ==> |Filter(s, Exactly(id, k))| <= f(k)
    ensures |Filter(s, Below(id, n))| <= Total(n, f)
  {
    if n == 0 {
      FilterNone(s, Below(id, 0));
    } else {
      PartsBelow(s, id, n - 1, f);
      BelowNext(s, id, n - 1);
    }
  }

  function DepthOf(k: nat): nat {
    if k < 4 then 2 else if k < 16 then 1 else 0
  }

  lemma AllDepths()
    ensures Total(16, DepthOf) == 20
  {
    assert Total(4, DepthOf) == 8;
    assert Total(8, DepthOf) == 12;
    assert Total(12, DepthOf) == 16;
  }

  lemma {:induction false} AtMost20<T>(s: seq<T>, id: T -> Id4)
    requires forall k: Id4 :: |Filter(s, Exactly(id, k))| <= Y.Depth(k)
    ensures |s| <= 20
  {
    assert forall k: nat :: k < 16 ==> Y.Depth(k) == DepthOf(k);
    PartsBelow(s, id, 16, DepthOf);
    AllDepths();
    AllBelow(s, id);
  }

  lemma {:induction false} SameCount<T>(s: seq<T>, p: T -> bool, q: T -> bool)
    requires forall x :: x in s ==> p(x) == q(x)
    ensures |Filter(s, p)| == |Filter(s, q)|
  {
    if s != [] {
      var n := |s| - 1;
      assert s[n] in s;
      SameCount(s[..n], p, q);
    }
  }

  function AddrId(): Addr -> Id4 {
    (a: Addr) => a.id
  }

  function Self(): Id4 -> Id4 {
    (i: Id4) => i
  }

  function IdOf(): Ticket -> Id4 {
    (t: Ticket) => t.ar.id
  }

  /** Unfinished reads of one ID: those pending, sent, or answered with beats still queued. */
  function Unfinished(l: Log): seq<Ticket>
    requires l.h.rl.m <= |l.h.rl.done|
  {
    Map(l.h.rl.done[l.h.rl.m..], R.TicketOf()) + l.h.rl.sent + l.h.rl.pend
  }

  /** The yanker's queue for an ID is as long as the reads of that ID the slave has not finished. */
  lemma QueueIsUnfinished(l: Log, k: Id4)
    requires ReadsAgree(l) && R.Ordered(l.h.rl)
    ensures |Y.Entered(l.ry, k)| - Y.Left(l.ry, k) == |Filter(Unfinished(l), R.OfId(k))|
  {
    var rl := l.h.rl;
    var all, m := Map(rl.done, R.TicketOf()), rl.m;
    ReadEntries(l, k);
    assert Map(rl.done[..m], R.TicketOf()) == all[..m] && Map(rl.done[m..], R.TicketOf()) == all[m..];
    assert all == all[..m] + all[m..];
    FilterAppend(all[..m], all[m..], R.OfId(k));
    FilterAppend(all[m..] + rl.sent, rl.pend, R.OfId(k));
    FilterAppend(all[m..], rl.sent, R.OfId(k));
  }

  /** At every reachable state the slave has at most 2 unfinished reads on each of IDs 0..3 and at most 1 on each of
      IDs 4..15, hence at most 20 in all, and so at most 20 pending or in flight. */
  lemma ReadsBounded(g: Geometry, m0: seq<Byte>, run: seq<Cycle>)
    ensures var (x, l) := Reached(g, m0, run);
            && l.h.rl.m <= |l.h.rl.done|
            && (forall k: Id4 :: |Filter(Unfinished(l), R.OfId(k))| <= if k < 4 then 2 else 1)
            && |Unfinished(l)| <= 20 && |x.s.rd.pending| + |l.h.rl.sent| <= 20
  {
    ReachedInv(g, m0, run);
    var (x, l) := Reached(g, m0, run);
    forall k: Id4
      ensures |Filter(Unfinished(l), R.OfId(k))| <= Y.Depth(k)
      ensures |Filter(Unfinished(l), Exactly(IdOf(), k))| <= Y.Depth(k)
    {
      QueueIsUnfinished(l, k);
      Y.HeadIsOldest(x.rq, l.ry, k);
      SameCount(Unfinished(l), Exactly(IdOf(), k), R.OfId(k));
    }
    AtMost20(Unfinished(l), IdOf());
  }

  /** AWs whose B response has not been taken. */
  lemma WritesBounded(g: Geometry, m0: seq<Byte>, run: seq<Cycle>)
    ensures var l := Reached(g, m0, run).1;
            && (forall k: Id4 ::
                 |Filter(l.h.wl.aws, W.AddrOfId(k))| - |Filter(l.h.ws.taken, IsId(k))| <= if k < 4 then 2 else 1)
            && |l.h.wl.aws| - |l.h.ws.taken| <= 20
  {
    ReachedInv(g, m0, run);
    var (x, l) := Reached(g, m0, run);
    forall k: Id4
      ensures 0 <= |Filter(l.h.wl.aws, W.AddrOfId(k))| - |Filter(l.h.ws.taken, IsId(k))| <= Y.Depth(k)
    {
      EntriesCount(l.h.wl.aws, k);
      Y.HeadIsOldest(x.wq, l.wy, k);
    }
    CountDifference(l.h.wl.aws, l.h.ws.taken);
  }

  lemma {:induction false} DifferenceBelow(aws: seq<Addr>, taken: seq<Id4>, n: nat)
    requires n <= 16
    requires forall k: Id4 :: |Filter(aws, W.AddrOfId(k))| - |Filter(taken, IsId(k))| <= Y.Depth(k)
    ensures |Filter(aws, Below(AddrId(), n))| - |Filter(taken, Below(Self(), n))| <= Total(n, DepthOf)
  {
    if n == 0 {
      FilterNone(aws, Below(AddrId(), 0));
    } else {
      var k := n - 1;
      DifferenceBelow(aws, taken, k);
      BelowNext(aws, AddrId(), k);
      BelowNext(taken, Self(), k);
      SameCount(aws, Exactly(AddrId(), k), W.AddrOfId(k));
      SameCount(taken, Exactly(Self(), k), IsId(k));
    }
  }

  lemma {:induction false} CountDifference(aws: seq<Addr>, taken: seq<Id4>)
    requires forall k: Id4 :: |Filter(aws, W.AddrOfId(k))| - |Filter(taken, IsId(k))| <= Y.Depth(k)
    ensures |aws| - |taken| <= 20
  {
    DifferenceBelow(aws, taken, 16);
    AllDepths();
    AllBelow(aws, AddrId());
    AllBelow(taken, Self());
  }
}
