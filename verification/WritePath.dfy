/** The write side of mm_dramsim2_t: the write engine, the per-address FIFOs of IDs, the response queue. */
module WritePath {
  import opened Seqs
  import opened Axi
  import opened Stores
  import opened AddressFifos

  /** store_*, wreq, the completions DRAMSim owes for writes, and bresp. */
  datatype Writes = Writes(store: Store, fifo: Fifos<Id4>, owed: multiset<nat>, resp: seq<Id4>)

  function Start(w: Writes, aw: Addr): Writes {
    w.(store := Begin(aw))
  }

  /** One W beat; the last of a burst sends one transaction, for the address after the burst. */
  function Beat(w: Writes): Writes {
    var st := Advance(w.store);
    if st.count == 0 then
      w.(store := st, owed := w.owed + multiset{st.addr}, fifo := Push(w.fifo, st.addr, st.id))
    else w.(store := st)
  }

  function PopResp(w: Writes): Writes
    requires w.resp != []
  {
    w.(resp := w.resp[1..])
  }

  /** write_complete: respond to the oldest burst sent for this address. */
  function Complete(w: Writes, a: nat): Writes {
    if At(w.fifo, a) == [] then w
    else w.(resp := w.resp + [At(w.fifo, a)[0]], fifo := Pop(w.fifo, a), owed := w.owed - multiset{a})
  }

  // The log of a run.

  datatype Token = Token(addr: nat, id: Id4)

  /** Finished bursts not yet answered, in sending order; IDs answered, in completion order; IDs taken. */
  datatype WSide = WSide(sent: seq<Token>, answered: seq<Id4>, taken: seq<Id4>)

  function TokenAddr(): Token -> nat {
    (t: Token) => t.addr
  }

  function TokenId(): Token -> Id4 {
    (t: Token) => t.id
  }

  function TokenOfId(k: Id4): Token -> bool {
    (t: Token) => t.id == k
  }

  function AddrOfId(k: Id4): Addr -> bool {
    (a: Addr) => a.id == k
  }

  /** Responses may overtake each other, even within an ID, but for each ID they are counted: one answered or still
      owed for each finished burst. */
  ghost predicate Counts(d: WSide, finished: seq<Addr>) {
    forall k: Id4 ::
      |Filter(d.answered, IsId(k))| + |Filter(d.sent, TokenOfId(k))| == |Filter(finished, AddrOfId(k))|
  }

  ghost predicate Inv(w: Writes, d: WSide, l: WLog) {
    && Mirrors(w.fifo, w.owed, d.sent, TokenAddr(), TokenId())
    && d.answered == d.taken + w.resp
    && l.finished <= |l.aws|
    && Counts(d, l.aws[..l.finished])
  }

  function BeatLog(w: Writes, d: WSide): WSide {
    var st := Advance(w.store);
    if st.count == 0 then d.(sent := d.sent + [Token(st.addr, st.id)]) else d
  }

  function PopLog(w: Writes, d: WSide): WSide
    requires w.resp != []
  {
    d.(taken := d.taken + [w.resp[0]])
  }

  /** The response of write i of those sent. */
  function Respond(d: WSide, i: nat): WSide
    requires i < |d.sent|
  {
    d.(sent := RemoveAt(d.sent, i), answered := d.answered + [d.sent[i].id])
  }

  function CompleteLog(d: WSide, a: nat): WSide {
    var i := Oldest(d.sent, TokenAddr(), a);
    if i == |d.sent| then d
    else Respond(d, i)
  }

  lemma StartKeeps(w: Writes, d: WSide, l: WLog, aw: Addr)
    requires Inv(w, d, l)
    ensures Inv(Start(w, aw), d, LogAw(l, aw))
  {
    assert (l.aws + [aw])[..l.finished] == l.aws[..l.finished];
  }

  lemma SendCounts(d: WSide, finished: seq<Addr>, aw: Addr, t: Token)
    requires Counts(d, finished) && t.id == aw.id
    ensures Counts(d.(sent := d.sent + [t]), finished + [aw])
  {
    forall k: Id4
      ensures |Filter(d.answered, IsId(k))| + |Filter(d.sent + [t], TokenOfId(k))|
           == |Filter(finished + [aw], AddrOfId(k))|
    {
      FilterSnoc(d.sent, t, TokenOfId(k));
      FilterSnoc(finished, aw, AddrOfId(k));
    }
  }

  lemma BeatKeeps(w: Writes, d: WSide, l: WLog, b: WBeat)
    requires Inv(w, d, l) && Counted(w.store, l) && w.store.inflight
    ensures Inv(Beat(w), BeatLog(w, d), LogW(w.store, l, b))
  {
    var st := Advance(w.store);
    if st.count == 0 {
      var t, n := Token(st.addr, st.id), l.finished;
      assert Counts(BeatLog(w, d), l.aws[..n + 1]) by {
        SendCounts(d, l.aws[..n], l.aws[n], t);
        assert l.aws[..n + 1] == l.aws[..n] + [l.aws[n]];
      }
      assert Mirrors(Beat(w).fifo, Beat(w).owed, BeatLog(w, d).sent, TokenAddr(), TokenId()) by {
        PushMirrors(w.fifo, w.owed, d.sent, TokenAddr(), TokenId(), t);
      }
    }
  }

  lemma PopKeeps(w: Writes, d: WSide, l: WLog)
    requires Inv(w, d, l) && w.resp != []
    ensures Inv(PopResp(w), PopLog(w, d), l)
  {
    assert d.taken + w.resp == d.taken + [w.resp[0]] + w.resp[1..];
  }

  lemma CompleteCounts(d: WSide, finished: seq<Addr>, i: nat)
    requires Counts(d, finished) && i < |d.sent|
    ensures Counts(Respond(d, i), finished)
  {
    var t := d.sent[i];
    forall k: Id4
      ensures |Filter(d.answered + [t.id], IsId(k))| + |Filter(RemoveAt(d.sent, i), TokenOfId(k))|
           == |Filter(finished, AddrOfId(k))|
    {
      FilterSnoc(d.answered, t.id, IsId(k));
      FilterRemoveCount(d.sent, i, TokenOfId(k));
    }
  }

  /** The completed write is the oldest sent for its address, and the FIFOs hold what is left. */
  lemma CompleteFifo(w: Writes, d: WSide, a: nat)
    requires Mirrors(w.fifo, w.owed, d.sent, TokenAddr(), TokenId()) && a in w.owed
    ensures var i := Oldest(d.sent, TokenAddr(), a);
            && At(w.fifo, a) != [] && i < |d.sent| && At(w.fifo, a)[0] == d.sent[i].id
            && Mirrors(Pop(w.fifo, a), w.owed - multiset{a}, RemoveAt(d.sent, i), TokenAddr(), TokenId())
  {
    OldestExists(w.fifo, w.owed, d.sent, TokenAddr(), TokenId(), a);
    PopMirrors(w.fifo, w.owed, d.sent, TokenAddr(), TokenId(), a);
  }

  lemma RespondKeeps(w: Writes, d: WSide, l: WLog, w': Writes, i: nat)
    requires Inv(w, d, l) && i < |d.sent| && w'.resp == w.resp + [d.sent[i].id]
    requires Mirrors(w'.fifo, w'.owed, RemoveAt(d.sent, i), TokenAddr(), TokenId())
    ensures Inv(w', Respond(d, i), l)
  {
    CompleteCounts(d, l.aws[..l.finished], i);
  }

  lemma CompleteKeeps(w: Writes, d: WSide, l: WLog, a: nat)
    requires Inv(w, d, l) && a in w.owed
    ensures At(w.fifo, a) != []
    ensures Inv(Complete(w, a), CompleteLog(d, a), l)
  {
    CompleteFifo(w, d, a);
    RespondKeeps(w, d, l, Complete(w, a), Oldest(d.sent, TokenAddr(), a));
  }
}
