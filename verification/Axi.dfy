/** The AXI4 channel payloads that the memory path looks at. */
module Axi {
  import opened Bits
  import opened Memory

  type Id4 = x: nat | x < 16
  type Id5 = x: nat | x < 32

  function IsId(k: Id4): Id4 -> bool {
    (i: Id4) => i == k
  }

  /** The TileLink state carried beside an address beat; opaque here. */
  datatype TlState = TlState(size: nat, source: nat)

  /** What AXI4UserYanker parks: the TileLink state and the ID bit AXI4IdIndexer removed. */
  datatype Echo = Echo(state: TlState, extra: bool)

  /** An AR or AW beat between AXI4IdIndexer and AXI4UserYanker. The slave never sees `echo`. */
  datatype Addr = Addr(id: Id4, addr: nat, size: nat, len: nat, echo: Echo) {
    function Beats(): (n: nat)
      ensures n >= 1
    {
      len + 1
    }

    function Bytes(): (n: nat)
      ensures n >= 1
    {
      Pow2(size)
    }
  }

  datatype WBeat = WBeat(data: seq<Byte>, strb: Word64, last: bool)

  datatype RBeat = RBeat(id: Id4, data: seq<Byte>, last: bool)
}
