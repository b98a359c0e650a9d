/** The per-address FIFOs that turn "address X completed" back into a request. */
module AddressFifos {
  import opened Seqs

  type Fifos<T> = map<nat, seq<T>>

  /** operator[]: an absent address has an empty queue. */
  function At<T>(f: Fifos<T>, a: nat): seq<T> {
    if a in f then f[a] else []
  }

  function Push<T>(f: Fifos<T>, a: nat, x: T): Fifos<T> {
    f[a := At(f, a) + [x]]
  }

  function Pop<T>(f: Fifos<T>, a: nat): Fifos<T>
    requires At(f, a) != []
  {
    f[a := At(f, a)[1..]]
  }

  function Sent<U>(addr: U -> nat, a: nat): U -> bool {
    (u: U) => addr(u) == a
  }

  /** The queues hold exactly the transactions sent and not yet completed, in sending order within each address,
      and DRAMSim owes one completion for each of them. */
  ghost predicate Mirrors<T, U>(f: Fifos<T>, owed: multiset<nat>, sent: seq<U>, addr: U -> nat, item: U -> T) {
    forall a: nat :: At(f, a) == Map(Filter(sent, Sent(addr, a)), item) && owed[a] == |At(f, a)|
  }

  /** The FIFO of one address mirrors what was sent there. */
  ghost predicate MirrorsAt<T, U>(
    f: Fifos<T>, owed: multiset<nat>, sent: seq<U>, addr: U -> nat, item: U -> T, a: nat)
  {
    At(f, a) == Map(Filter(sent, Sent(addr, a)), item) && owed[a] == |At(f, a)|
  }

  lemma PushOne<T, U>(f: Fifos<T>, owed: multiset<nat>, sent: seq<U>, addr: U -> nat, item: U -> T, u: U, a: nat)
    requires MirrorsAt(f, owed, sent, addr, item, a)
    ensures MirrorsAt(Push(f, addr(u), item(u)), owed + multiset{addr(u)}, sent + [u], addr, item, a)
  {
    FilterSnoc(sent, u, Sent(addr, a));
    MapSnoc(Filter(sent, Sent(addr, a)), u, item);
  }

  lemma PushMirrors<T, U>(f: Fifos<T>, owed: multiset<nat>, sent: seq<U>, addr: U -> nat, item: U -> T, u: U)
    requires Mirrors(f, owed, sent, addr, item)
    ensures Mirrors(Push(f, addr(u), item(u)), owed + multiset{addr(u)}, sent + [u], addr, item)
  {
    var f', owed', sent' := Push(f, addr(u), item(u)), owed + multiset{addr(u)}, sent + [u];
    forall a: nat
      ensures MirrorsAt(f', owed', sent', addr, item, a)
    {
      PushOne(f, owed, sent, addr, item, u, a);
    }
    MirrorsEverywhere(f', owed', sent', addr, item);
  }

  lemma MirrorsEverywhere<T, U>(f: Fifos<T>, owed: multiset<nat>, sent: seq<U>, addr: U -> nat, item: U -> T)
    requires forall a: nat :: MirrorsAt(f, owed, sent, addr, item, a)
    ensures Mirrors(f, owed, sent, addr, item)
  {
    forall a: nat
      ensures At(f, a) == Map(Filter(sent, Sent(addr, a)), item) && owed[a] == |At(f, a)|
    {
      assert MirrorsAt(f, owed, sent, addr, item, a);
    }
  }

  /** The completed transaction is the oldest one with that address. */
  function Oldest<U>(sent: seq<U>, addr: U -> nat, a: nat): nat {
    FirstIndex(sent, Sent(addr, a))
  }

  lemma OldestExists<T, U>(f: Fifos<T>, owed: multiset<nat>, sent: seq<U>, addr: U -> nat, item: U -> T, a: nat)
    requires Mirrors(f, owed, sent, addr, item) && a in owed
    ensures At(f, a) != []
    ensures var i := Oldest(sent, addr, a);
            i < |sent| && addr(sent[i]) == a && item(sent[i]) == At(f, a)[0]
  {
    var p := Sent(addr, a);
    var i := FirstIndex(sent, p);
    if i == |sent| {
      FilterNone(sent, p);
      assert false;
    }
    FilterBeforeFirst(sent, p);
    FilterRemoveFirst(sent, i, p);
  }

  lemma PopOne<T, U>(
    f: Fifos<T>, owed: multiset<nat>, sent: seq<U>, addr: U -> nat, item: U -> T, a: nat, i: nat, b: nat)
    requires MirrorsAt(f, owed, sent, addr, item, b) && At(f, a) != []
    requires i < |sent| && addr(sent[i]) == a && (a == b ==> Filter(sent[..i], Sent(addr, a)) == [])
    ensures MirrorsAt(Pop(f, a), owed - multiset{a}, RemoveAt(sent, i), addr, item, b)
  {
    if b == a {
      FilterRemoveFirst(sent, i, Sent(addr, a));
      MapTail(Filter(sent, Sent(addr, a)), item);
      assert Filter(sent, Sent(addr, a))[1..] == Filter(RemoveAt(sent, i), Sent(addr, a));
    } else {
      FilterRemoveOther(sent, i, Sent(addr, b));
    }
  }

  lemma PopMirrors<T, U>(f: Fifos<T>, owed: multiset<nat>, sent: seq<U>, addr: U -> nat, item: U -> T, a: nat)
    requires Mirrors(f, owed, sent, addr, item) && a in owed
    requires At(f, a) != [] && Oldest(sent, addr, a) < |sent|
    ensures Mirrors(Pop(f, a), owed - multiset{a}, RemoveAt(sent, Oldest(sent, addr, a)), addr, item)
  {
    var i := Oldest(sent, addr, a);
    var f', owed', sent' := Pop(f, a), owed - multiset{a}, RemoveAt(sent, i);
    FilterBeforeFirst(sent, Sent(addr, a));
    forall b: nat
      ensures MirrorsAt(f', owed', sent', addr, item, b)
    {
      PopOne(f, owed, sent, addr, item, a, i, b);
    }
    MirrorsEverywhere(f', owed', sent', addr, item);
  }

  /** DRAMSim owes nothing exactly when nothing is outstanding. */
  lemma OwedIffSent<T, U>(f: Fifos<T>, owed: multiset<nat>, sent: seq<U>, addr: U -> nat, item: U -> T)
    requires Mirrors(f, owed, sent, addr, item)
    ensures owed == multiset{} <==> sent == []
  {
    if sent != [] {
      var a := addr(sent[0]);
      FilterIn(sent, Sent(addr, a), sent[0]);
      assert a in owed;
    }
    if a :| a in owed {
      FilterIn(sent, Sent(addr, a), Filter(sent, Sent(addr, a))[0]);
    }
  }
}
