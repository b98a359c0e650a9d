/** Read bursts and the response stream that carries them. */
module Bursts {
  import opened Memory
  import opened Axi

  /** The beats pushed for one request: whole consecutive words from the one holding `addr`, `last` on the final beat.
       */
  function ReadBeats(g: Geometry, m: seq<Byte>, id: Id4, addr: nat, n: nat): (r: seq<RBeat>)
    ensures |r| == n
    ensures forall i :: 0 <= i < n ==> r[i].id == id && (r[i].last <==> i == n - 1)
  {
    seq(n, i requires 0 <= i < n => RBeat(id, WordAt(g, m, Aligned(g, addr) + i * g.Word()), i == n - 1))
  }

  /** An accepted AR: `n` is its place in AR order; `beats` and `answers` count the W beats accepted and the B
      responses taken that its data must reflect: up to and including its own tick for mm_dramsim2_t, up to the tick
      before for mm_magic_t. */
  datatype Ticket = Ticket(ar: Addr, n: nat, beats: nat, answers: nat)

  /** A read burst answered from the memory `mem`, when `beats` W beats had been accepted. */
  datatype Burst = Burst(t: Ticket, mem: seq<Byte>, beats: nat)

  function BeatsOf(g: Geometry, b: Burst): (r: seq<RBeat>)
    ensures |r| == b.t.ar.Beats()
    ensures forall i :: 0 <= i < |r| ==> r[i].id == b.t.ar.id && (r[i].last <==> i == |r| - 1)
  {
    ReadBeats(g, b.mem, b.t.ar.id, b.t.ar.addr, b.t.ar.Beats())
  }

  /** Bursts one after the other, never interleaved. */
  function Flatten(g: Geometry, bs: seq<Burst>): seq<RBeat> {
    if bs == [] then [] else BeatsOf(g, bs[0]) + Flatten(g, bs[1..])
  }

  lemma {:induction false} FlattenSnoc(g: Geometry, bs: seq<Burst>, b: Burst)
    ensures Flatten(g, bs + [b]) == Flatten(g, bs) + BeatsOf(g, b)
  {
    if bs == [] {
      assert [b][1..] == [];
    } else {
      assert (bs + [b])[1..] == bs[1..] + [b];
      FlattenSnoc(g, bs[1..], b);
    }
  }

  /** Of the bursts `done`, the first m and c beats of the next have been taken; the rest is queued. */
  ghost predicate Stream(g: Geometry, done: seq<Burst>, m: nat, c: nat, taken: seq<RBeat>, queued: seq<RBeat>) {
    && m <= |done|
    && (if m == |done| then c == 0 else c < |BeatsOf(g, done[m])|)
    && c <= |Flatten(g, done[m..])|
    && taken == Flatten(g, done[..m]) + Flatten(g, done[m..])[..c]
    && queued == Flatten(g, done[m..])[c..]
  }

  lemma StreamPush(g: Geometry, done: seq<Burst>, m: nat, c: nat, taken: seq<RBeat>, queued: seq<RBeat>, b: Burst)
    requires Stream(g, done, m, c, taken, queued)
    ensures Stream(g, done + [b], m, c, taken, queued + BeatsOf(g, b))
  {
    assert (done + [b])[m..] == done[m..] + [b];
    assert (done + [b])[..m] == done[..m];
    FlattenSnoc(g, done[m..], b);
  }

  /** The beat at the head of the queue is beat c of burst m. */
  lemma StreamHead(g: Geometry, done: seq<Burst>, m: nat, c: nat, taken: seq<RBeat>, queued: seq<RBeat>)
    requires Stream(g, done, m, c, taken, queued) && queued != []
    ensures m < |done| && queued[0] == BeatsOf(g, done[m])[c]
  {
  }

  lemma StreamPop(g: Geometry, done: seq<Burst>, m: nat, c: nat, taken: seq<RBeat>, queued: seq<RBeat>)
    requires Stream(g, done, m, c, taken, queued) && queued != []
    ensures if queued[0].last then Stream(g, done, m + 1, 0, taken + [queued[0]], queued[1..])
            else Stream(g, done, m, c + 1, taken + [queued[0]], queued[1..])
  {
    StreamHead(g, done, m, c, taken, queued);
    var all, bs := Flatten(g, done[m..]), BeatsOf(g, done[m]);
    assert done[m..][1..] == done[m + 1..];
    assert all == bs + Flatten(g, done[m + 1..]);
    assert all[..c] + [all[c]] == all[..c + 1];
    if queued[0].last {
      assert all[..c + 1] == bs;
      assert done[..m + 1] == done[..m] + [done[m]];
      FlattenSnoc(g, done[..m], done[m]);
    }
  }

  lemma {:induction false} FlattenAppend(g: Geometry, a: seq<Burst>, b: seq<Burst>)
    ensures Flatten(g, a + b) == Flatten(g, a) + Flatten(g, b)
    decreases |a|
  {
    if a == [] {
      assert a + b == b;
    } else {
      assert (a + b)[1..] == a[1..] + b;
      FlattenAppend(g, a[1..], b);
    }
  }

  /** Nothing is invented: what was taken and what is queued are the bursts, in order. */
  lemma {:induction false} FlattenSplit(g: Geometry, bs: seq<Burst>, m: nat)
    requires m <= |bs|
    ensures Flatten(g, bs) == Flatten(g, bs[..m]) + Flatten(g, bs[m..])
  {
    assert bs == bs[..m] + bs[m..];
    FlattenAppend(g, bs[..m], bs[m..]);
  }
}
