/** The write engine of both slaves: one burst at a time, one strobed store per W beat. */
module Stores {
  import opened Seqs
  import opened Memory
  import opened Axi

  /** store_inflight, store_addr, store_id, store_size and store_count. */
  datatype Store = Store(inflight: bool, addr: nat, id: Id4, size: nat, count: int)

  function Begin(aw: Addr): Store {
    Store(true, aw.addr, aw.id, aw.Bytes(), aw.len + 1)
  }

  function Advance(st: Store): Store {
    st.(addr := st.addr + st.size, count := st.count - 1, inflight := st.count != 1)
  }

  /** One store of the byte memory. */
  datatype Effect = Effect(addr: nat, size: nat, beat: WBeat)

  function Do(g: Geometry, m: seq<Byte>, e: Effect): (r: seq<Byte>)
    ensures |r| == |m|
  {
    Stored(g, m, e.addr, e.beat.data, e.beat.strb, e.size)
  }

  // Reference: an atomic byte memory fed with INCR write bursts.

  /** Every AW accepted, every W beat accepted, and how many of the bursts are complete. */
  datatype WLog = WLog(aws: seq<Addr>, beats: seq<WBeat>, finished: nat)

  function Beats(aws: seq<Addr>): nat {
    Sum(aws, (a: Addr) => a.Beats())
  }

  /** Where beat i of a burst goes. */
  function BeatAddr(aw: Addr, i: nat): nat {
    aw.addr + i * aw.Bytes()
  }

  function BurstEffects(aw: Addr, beats: seq<WBeat>): (r: seq<Effect>)
    ensures |r| == |beats|
  {
    seq(|beats|, i requires 0 <= i < |beats| => Effect(BeatAddr(aw, i), aw.Bytes(), beats[i]))
  }

  /** W beats are dealt to the AWs in order, len + 1 to each: the index of the burst that beat i belongs to. */
  function Owner(aws: seq<Addr>, i: nat): nat {
    if |aws| <= 1 then 0
    else if Beats(aws[..|aws| - 1]) <= i then |aws| - 1
    else Owner(aws[..|aws| - 1], i)
  }

  lemma {:induction false} OwnerBound(aws: seq<Addr>, i: nat)
    requires aws != []
    ensures Owner(aws, i) < |aws| && Beats(aws[..Owner(aws, i)]) <= i
    decreases |aws|
  {
    if |aws| > 1 && i < Beats(aws[..|aws| - 1]) {
      var front := aws[..|aws| - 1];
      OwnerBound(front, i);
      assert front[..Owner(front, i)] == aws[..Owner(front, i)];
    }
  }

  function EffectAt(aws: seq<Addr>, i: nat, w: WBeat): Effect {
    if aws == [] then Effect(0, 0, w)
    else
      OwnerBound(aws, i);
      var n := Owner(aws, i);
      Effect(BeatAddr(aws[n], i - Beats(aws[..n])), aws[n].Bytes(), w)
  }

  function Effects(aws: seq<Addr>, beats: seq<WBeat>): (r: seq<Effect>)
    ensures |r| == |beats|
  {
    seq(|beats|, i requires 0 <= i < |beats| => EffectAt(aws, i, beats[i]))
  }

  function Replay(g: Geometry, m: seq<Byte>, es: seq<Effect>): (r: seq<Byte>)
    ensures |r| == |m|
  {
    if es == [] then m else Do(g, Replay(g, m, es[..|es| - 1]), es[|es| - 1])
  }

  /** The memory after the given accepted beats, as the reference memory sees them. */
  function MemoryAfter(g: Geometry, m0: seq<Byte>, aws: seq<Addr>, beats: seq<WBeat>): (r: seq<Byte>)
    ensures |r| == |m0|
  {
    Replay(g, m0, Effects(aws, beats))
  }

  // The engine against the reference.

  ghost predicate Counted(st: Store, l: WLog) {
    && |l.aws| == l.finished + (if st.inflight then 1 else 0)
    && var before := Beats(l.aws[..l.finished]);
       if st.inflight then
         && var aw, c := l.aws[l.finished], |l.beats| - before;
         && 0 <= c < aw.Beats()
         && st == Store(true, aw.addr + c * aw.Bytes(), aw.id, aw.Bytes(), aw.Beats() - c)
       else |l.beats| == before
  }

  ghost predicate EngineInv(g: Geometry, m0: seq<Byte>, mem: seq<Byte>, st: Store, l: WLog) {
    Counted(st, l) && mem == MemoryAfter(g, m0, l.aws, l.beats)
  }

  function LogAw(l: WLog, aw: Addr): WLog {
    l.(aws := l.aws + [aw])
  }

  function LogW(st: Store, l: WLog, w: WBeat): WLog {
    l.(beats := l.beats + [w], finished := l.finished + if st.count == 1 then 1 else 0)
  }

  lemma {:induction false} OwnerSnoc(aws: seq<Addr>, aw: Addr, i: nat)
    requires i < Beats(aws)
    ensures Owner(aws + [aw], i) == Owner(aws, i)
  {
    assert (aws + [aw])[..|aws|] == aws;
    assert aws != [];
  }

  lemma EffectsNewBurst(aws: seq<Addr>, aw: Addr, beats: seq<WBeat>)
    requires |beats| <= Beats(aws)
    ensures Effects(aws + [aw], beats) == Effects(aws, beats)
  {
    forall i | 0 <= i < |beats|
      ensures EffectAt(aws + [aw], i, beats[i]) == EffectAt(aws, i, beats[i])
    {
      assert aws != [];
      OwnerSnoc(aws, aw, i);
      OwnerBound(aws, i);
      assert (aws + [aw])[..Owner(aws, i)] == aws[..Owner(aws, i)];
    }
  }

  lemma {:induction false} EffectsMoreBursts(aws: seq<Addr>, aws': seq<Addr>, beats: seq<WBeat>)
    requires aws <= aws' && |beats| <= Beats(aws)
    ensures Effects(aws', beats) == Effects(aws, beats)
    decreases |aws'|
  {
    if |aws'| == |aws| {
      assert aws' == aws;
    } else {
      var front := aws'[..|aws'| - 1];
      EffectsMoreBursts(aws, front, beats);
      MoreBeats(aws, front);
      assert aws' == front + [aws'[|aws'| - 1]];
      EffectsNewBurst(front, aws'[|aws'| - 1], beats);
    }
  }

  lemma MoreBeats(aws: seq<Addr>, aws': seq<Addr>)
    requires aws <= aws'
    ensures Beats(aws) <= Beats(aws')
  {
    assert aws' == aws + aws'[|aws|..];
    SumAppend(aws, aws'[|aws|..], (a: Addr) => a.Beats());
  }

  /** W beats never run ahead of the AWs they belong to. */
  lemma BeatsWithin(st: Store, l: WLog)
    requires Counted(st, l)
    ensures |l.beats| <= Beats(l.aws)
  {
    var n := l.finished;
    if st.inflight {
      assert l.aws == l.aws[..n] + [l.aws[n]];
      SumSnoc(l.aws[..n], l.aws[n], (a: Addr) => a.Beats());
    } else {
      assert l.aws == l.aws[..n];
    }
  }

  lemma BeginKeeps(g: Geometry, m0: seq<Byte>, mem: seq<Byte>, st: Store, l: WLog, aw: Addr)
    requires EngineInv(g, m0, mem, st, l) && !st.inflight
    ensures EngineInv(g, m0, mem, Begin(aw), LogAw(l, aw))
  {
    var aws := l.aws + [aw];
    assert aws[..l.finished] == l.aws[..l.finished] == l.aws;
    EffectsNewBurst(l.aws, aw, l.beats);
  }

  lemma {:induction false} ReplaySnoc(g: Geometry, m: seq<Byte>, es: seq<Effect>, e: Effect)
    ensures Replay(g, m, es + [e]) == Do(g, Replay(g, m, es), e)
  {
    assert (es + [e])[..|es|] == es;
  }

  lemma EffectsNewBeat(aws: seq<Addr>, beats: seq<WBeat>, w: WBeat)
    ensures Effects(aws, beats + [w]) == Effects(aws, beats) + [EffectAt(aws, |beats|, w)]
  {}

  lemma AdvanceCounts(st: Store, l: WLog, w: WBeat)
    requires Counted(st, l) && st.inflight
    ensures Counted(Advance(st), LogW(st, l, w))
  {
    var n := l.finished;
    var aw := l.aws[n];
    NextBeat(aw, |l.beats| - Beats(l.aws[..n]));
    if st.count == 1 {
      assert l.aws[..n + 1] == l.aws[..n] + [aw];
      SumSnoc(l.aws[..n], aw, (a: Addr) => a.Beats());
    }
  }

  lemma NextEffect(st: Store, l: WLog, w: WBeat)
    requires Counted(st, l) && st.inflight
    ensures EffectAt(l.aws, |l.beats|, w) == Effect(st.addr, st.size, w)
  {
    assert Owner(l.aws, |l.beats|) == l.finished;
  }

  lemma AdvanceKeeps(g: Geometry, m0: seq<Byte>, mem: seq<Byte>, st: Store, l: WLog, w: WBeat)
    requires EngineInv(g, m0, mem, st, l) && st.inflight
    ensures EngineInv(g, m0, Stored(g, mem, st.addr, w.data, w.strb, st.size), Advance(st), LogW(st, l, w))
  {
    AdvanceCounts(st, l, w);
    NextEffect(st, l, w);
    EffectsNewBeat(l.aws, l.beats, w);
    ReplaySnoc(g, m0, Effects(l.aws, l.beats), Effect(st.addr, st.size, w));
  }

  lemma NextBeat(aw: Addr, c: nat)
    ensures aw.addr + c * aw.Bytes() + aw.Bytes() == aw.addr + (c + 1) * aw.Bytes()
  {}
}
