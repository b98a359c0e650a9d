/** The two clocked queues of AXI4UserYanker, register by register, against a plain FIFO of depth 1 or 2. */
module BundleQueue {
  import opened Axi

  /** One clock of a FIFO whose ready and valid are those of the state before the clock. */
  function FifoNext(depth: nat, q: seq<Echo>, enqValid: bool, e: Echo, deqReady: bool): (r: seq<Echo>)
    ensures |q| <= depth ==> |r| <= depth
    ensures var accepts, drops := enqValid && |q| < depth, deqReady && q != [];
            && |r| == |q| + (if accepts then 1 else 0) - (if drops then 1 else 0)
            && (forall i :: (if drops then 1 else 0) <= i < |q| ==> r[if drops then i - 1 else i] == q[i])
            && (accepts ==> r[|r| - 1] == e)
  {
    (if deqReady && q != [] then q[1..] else q) + (if enqValid && |q| < depth then [e] else [])
  }

  /** Queue1_BundleMap: one register and a full flag. */
  class Queue1 {
    var ram: Echo
    var full: bool

    function Contents(): (q: seq<Echo>)
      reads this
      ensures |q| <= 1
    {
      if full then [ram] else []
    }

    predicate EnqReady()
      reads this
      ensures EnqReady() <==> |Contents()| < 1
    {
      !full
    }

    predicate DeqValid()
      reads this
      ensures DeqValid() <==> Contents() != []
    {
      full
    }

    constructor (ram: Echo)
      ensures Contents() == []
    {
      this.ram := ram;
      full := false;
    }

    method Posedge(reset: bool, enqValid: bool, e: Echo, deqReady: bool)
      modifies this
      ensures Contents() == if reset then [] else FifoNext(1, old(Contents()), enqValid, e, deqReady)
    {
      var doEnq := !full && enqValid;
      if doEnq {
        ram := e;
      }
      if reset {
        full := false;
      } else if doEnq != (deqReady && full) {
        full := doEnq;
      }
    }
  }

  /** Queue2_BundleMap: a two-entry ring, its two one-bit pointers and maybe_full. */
  class Queue2 {
    const ram: array<Echo>
    var wrap: bool
    var wrap1: bool
    var maybeFull: bool

    ghost predicate Valid() {
      ram.Length == 2
    }

    function Index(ptr: bool): (i: nat)
      ensures i < 2
    {
      if ptr then 1 else 0
    }

    predicate Empty()
      reads this
    {
      wrap == wrap1 && !maybeFull
    }

    predicate Full()
      reads this
    {
      wrap == wrap1 && maybeFull
    }

    function Contents(): (q: seq<Echo>)
      requires Valid()
      reads this, ram
      ensures |q| <= 2
      ensures Empty() <==> q == []
      ensures Full() <==> |q| == 2
      ensures q != [] ==> q[0] == ram[Index(wrap1)]
    {
      if Empty() then []
      else if Full() then [ram[Index(wrap1)], ram[Index(!wrap1)]]
      else [ram[Index(wrap1)]]
    }

    constructor (e: Echo)
      ensures Valid() && fresh(ram) && Contents() == []
    {
      ram := new Echo[2](_ => e);
      wrap, wrap1, maybeFull := false, false, false;
    }

    method Posedge(reset: bool, enqValid: bool, e: Echo, deqReady: bool)
      requires Valid()
      modifies this, ram
      ensures Contents() == if reset then [] else FifoNext(2, old(Contents()), enqValid, e, deqReady)
    {
      var doEnq, doDeq := !Full() && enqValid, deqReady && !Empty();
      if doEnq {
        ram[Index(wrap)] := e;
      }
      if reset {
        wrap, wrap1, maybeFull := false, false, false;
      } else {
        if doEnq {
          wrap := !wrap;
        }
        if doDeq {
          wrap1 := !wrap1;
        }
        if doEnq != doDeq {
          maybeFull := doEnq;
        }
      }
    }
  }
}
