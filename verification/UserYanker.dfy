/** AXI4UserYanker: one echo FIFO per ID for reads and one for writes. */
module UserYanker {
  import opened Seqs
  import opened Axi
  import opened BundleQueue

  /** Queue2_BundleMap for IDs 0..3, Queue1_BundleMap for IDs 4..15. */
  function Depth(k: Id4): nat {
    if k < 4 then 2 else 1
  }

  type Queues = q: seq<seq<Echo>> | |q| == 16 witness seq(16, _ => [])

  /** The signals of one direction in one cycle: its address channel (AR or AW) and its response channel (R or B;
      a B counts as `respLast`). */
  datatype Signals = Signals(
    addrValid: bool, id: Id4, echo: Echo, outReady: bool,
    respValid: bool, respId: Id4, respLast: bool, respReady: bool)

  predicate Room(q: Queues, id: Id4) {
    |q[id]| < Depth(id)
  }

  /** auto_in_a*_ready */
  predicate InReady(q: Queues, s: Signals) {
    s.outReady && Room(q, s.id)
  }

  /** auto_out_a*_valid */
  predicate OutValid(q: Queues, s: Signals) {
    s.addrValid && Room(q, s.id)
  }

  predicate Enters(q: Queues, s: Signals) {
    s.addrValid && InReady(q, s)
  }

  predicate Leaves(s: Signals) {
    s.respValid && s.respReady && s.respLast
  }

  /** The echo re-attached to a response; an empty queue shows whatever its register holds. */
  function HeadEcho(q: Queues, id: Id4): Echo {
    if q[id] == [] then Echo(TlState(0, 0), false) else q[id][0]
  }

  /** "Q must be ready faster than the response" */
  predicate AssertionHolds(q: Queues, s: Signals) {
    s.respValid ==> q[s.respId] != []
  }

  /** One clock: every queue sees the whole handshake, gated by its own ID. */
  function Next(q: Queues, s: Signals): Queues {
    seq(16, k requires 0 <= k < 16 =>
      FifoNext(Depth(k), q[k], s.addrValid && s.outReady && s.id == k, s.echo, Leaves(s) && s.respId == k))
  }

  // The queues against the handshakes of a run.

  /** Entry n is the n-th address beat that went through. */
  datatype Entry = Entry(id: Id4, echo: Echo, n: nat)

  /** Address beats gone through, and the IDs of the responses finished, in order. */
  datatype Log = Log(entered: seq<Entry>, left: seq<Id4>)

  function EntryOfId(k: Id4): Entry -> bool {
    (e: Entry) => e.id == k
  }

  function EchoOf(): Entry -> Echo {
    (e: Entry) => e.echo
  }

  function Entered(l: Log, k: Id4): seq<Entry> {
    Filter(l.entered, EntryOfId(k))
  }

  function Left(l: Log, k: Id4): nat {
    |Filter(l.left, IsId(k))|
  }

  /** The slave owes a response for ID k. */
  predicate Owed(l: Log, k: Id4) {
    Left(l, k) < |Entered(l, k)|
  }

  /** Each queue holds exactly the echoes of the beats of its ID that are not yet answered, in order, within its
      depth. */
  ghost predicate Tracks(q: Queues, l: Log) {
    forall k: Id4 ::
      && Left(l, k) <= |Entered(l, k)|
      && q[k] == Map(Entered(l, k), EchoOf())[Left(l, k)..]
      && |q[k]| <= Depth(k)
  }

  function NextLog(q: Queues, s: Signals, l: Log): Log {
    Log(if Enters(q, s) then l.entered + [Entry(s.id, s.echo, |l.entered|)] else l.entered,
        if Leaves(s) then l.left + [s.respId] else l.left)
  }

  /** A queue is non-empty exactly while a response is owed, and shows the echo of the oldest unanswered beat. */
  lemma HeadIsOldest(q: Queues, l: Log, k: Id4)
    requires Tracks(q, l)
    ensures q[k] != [] <==> Owed(l, k)
    ensures Owed(l, k) ==> HeadEcho(q, k) == Entered(l, k)[Left(l, k)].echo
    ensures |q[k]| == |Entered(l, k)| - Left(l, k)
  {}

  /** An address beat goes through exactly when the other side is ready and its ID has fewer unanswered beats than 2
      (IDs 0 to 3) or 1 (IDs 4 to 15). */
  lemma ReadyExactly(q: Queues, s: Signals, l: Log)
    requires Tracks(q, l)
    ensures InReady(q, s) <==> s.outReady && |Entered(l, s.id)| - Left(l, s.id) < if s.id < 4 then 2 else 1
    ensures OutValid(q, s) <==> s.addrValid && |Entered(l, s.id)| - Left(l, s.id) < if s.id < 4 then 2 else 1
  {
    HeadIsOldest(q, l, s.id);
  }

  /** One queue that holds what is left of `es` after n answers, one clock later. */
  lemma OneFifo(depth: nat, es: seq<Echo>, n: nat, enq: bool, e: Echo, deq: bool)
    requires n <= |es| && (deq ==> n < |es|)
    ensures var es' := if enq && |es[n..]| < depth then es + [e] else es;
            FifoNext(depth, es[n..], enq, e, deq) == es'[if deq then n + 1 else n..]
  {}

  lemma NextTracks(q: Queues, s: Signals, l: Log)
    requires Tracks(q, l) && (Leaves(s) ==> Owed(l, s.respId))
    ensures Tracks(Next(q, s), NextLog(q, s, l))
  {
    forall k: Id4
      ensures var q', l' := Next(q, s), NextLog(q, s, l);
              && Left(l', k) <= |Entered(l', k)|
              && q'[k] == Map(Entered(l', k), EchoOf())[Left(l', k)..]
              && |q'[k]| <= Depth(k)
    {
      NextTracksOne(q, s, l, k);
    }
  }

  lemma NextTracksOne(q: Queues, s: Signals, l: Log, k: Id4)
    requires Tracks(q, l) && (Leaves(s) ==> Owed(l, s.respId))
    ensures var q', l' := Next(q, s), NextLog(q, s, l);
            && Left(l', k) <= |Entered(l', k)|
            && q'[k] == Map(Entered(l', k), EchoOf())[Left(l', k)..]
            && |q'[k]| <= Depth(k)
  {
    var x, l' := Entry(s.id, s.echo, |l.entered|), NextLog(q, s, l);
    var es, n := Map(Entered(l, k), EchoOf()), Left(l, k);
    var deq := Leaves(s) && s.respId == k;
    assert Entered(l', k) == if Enters(q, s) && s.id == k then Entered(l, k) + [x] else Entered(l, k) by {
      FilterSnoc(l.entered, x, EntryOfId(k));
    }
    assert Left(l', k) == if deq then n + 1 else n by { FilterSnoc(l.left, s.respId, IsId(k)); }
    MapSnoc(Entered(l, k), x, EchoOf());
    OneFifo(Depth(k), es, n, s.addrValid && s.outReady && s.id == k, s.echo, deq);
  }

  // Any slave at all, over whole runs.

  function QueuesAfter(run: seq<Signals>): Queues {
    if run == [] then seq(16, _ => []) else Next(QueuesAfter(run[..|run| - 1]), run[|run| - 1])
  }

  function LogAfter(run: seq<Signals>): Log {
    if run == [] then Log([], [])
    else NextLog(QueuesAfter(run[..|run| - 1]), run[|run| - 1], LogAfter(run[..|run| - 1]))
  }

  /** In no cycle does the slave show a response for an ID it owes none. */
  ghost predicate Contract(run: seq<Signals>) {
    run == []
    || var front, s := run[..|run| - 1], run[|run| - 1];
       Contract(front) && (s.respValid ==> Owed(LogAfter(front), s.respId))
  }

  ghost predicate NeverFires(run: seq<Signals>) {
    run == []
    || var front, s := run[..|run| - 1], run[|run| - 1];
       NeverFires(front) && AssertionHolds(QueuesAfter(front), s)
  }

  lemma {:induction false} RunTracks(run: seq<Signals>)
    requires Contract(run)
    ensures Tracks(QueuesAfter(run), LogAfter(run))
  {
    if run == [] {
      assert forall k: Id4 :: Entered(Log([], []), k) == [] && Left(Log([], []), k) == 0;
    } else {
      var front, s := run[..|run| - 1], run[|run| - 1];
      RunTracks(front);
      NextTracks(QueuesAfter(front), s, LogAfter(front));
    }
  }

  /** The assertion is an exact test of the slave: over any run it never fires if and only if the slave keeps the
      contract. */
  lemma {:induction false} AssertionIsExact(run: seq<Signals>)
    ensures NeverFires(run) <==> Contract(run)
  {
    if run != [] {
      var front, s := run[..|run| - 1], run[|run| - 1];
      AssertionIsExact(front);
      if Contract(front) {
        RunTracks(front);
        HeadIsOldest(QueuesAfter(front), LogAfter(front), s.respId);
      }
    }
  }

  /** The module: its read and write queues, clocked together. */
  class Yanker {
    const readQ: array<seq<Echo>>
    const writeQ: array<seq<Echo>>

    ghost predicate Valid() {
      readQ.Length == 16 && writeQ.Length == 16 && readQ != writeQ
    }

    constructor ()
      ensures Valid() && fresh(readQ) && fresh(writeQ)
      ensures readQ[..] == writeQ[..] == QueuesAfter([])
    {
      readQ, writeQ := new seq<Echo>[16](_ => []), new seq<Echo>[16](_ => []);
    }

    method Posedge(reset: bool, rd: Signals, wr: Signals)
      requires Valid()
      modifies readQ, writeQ
      ensures readQ[..] == if reset then QueuesAfter([]) else Next(old(readQ[..]), rd)
      ensures writeQ[..] == if reset then QueuesAfter([]) else Next(old(writeQ[..]), wr)
    {
      Clock(readQ, reset, rd);
      Clock(writeQ, reset, wr);
    }

    /** The sixteen queues of one direction, each deciding from its own registers and its own ID. */
    static method Clock(qs: array<seq<Echo>>, reset: bool, s: Signals)
      requires qs.Length == 16
      modifies qs
      ensures qs[..] == if reset then QueuesAfter([]) else Next(old(qs[..]), s)
    {
      for k := 0 to 16
        invariant forall i :: k <= i < 16 ==> qs[i] == old(qs[i])
        invariant forall i :: 0 <= i < k ==> qs[i] == if reset then [] else Next(old(qs[..]), s)[i]
      {
        var q := qs[k];
        if s.respValid && s.respReady && s.respLast && s.respId == k && q != [] {
          qs[k] := q[1..];
        }
        if s.addrValid && s.outReady && s.id == k && |q| < (if k < 4 then 2 else 1) {
          qs[k] := qs[k] + [s.echo];
        }
        if reset {
          qs[k] := [];
        }
      }
    }
  }
}
