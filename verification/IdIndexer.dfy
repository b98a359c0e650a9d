/** AXI4IdIndexer: five ID bits upstream, four downstream, the fifth carried in the echo. Purely combinational. */
module IdIndexer {
  import opened Axi
  import opened Memory

  datatype UpAddr = UpAddr(id: Id5, addr: nat, size: nat, len: nat, state: TlState)

  datatype UpRBeat = UpRBeat(id: Id5, data: seq<Byte>, last: bool, state: TlState)

  datatype UpB = UpB(id: Id5, state: TlState)

  /** id[3:0] goes down, id[4] into the echo. */
  function Down(u: UpAddr): Addr {
    Addr(u.id % 16, u.addr, u.size, u.len, Echo(u.state, u.id / 16 == 1))
  }

  /** {extra_id, id} */
  function Rebuild(echo: Echo, id: Id4): Id5 {
    (if echo.extra then 16 else 0) + id
  }

  function UpR(b: RBeat, echo: Echo): UpRBeat {
    UpRBeat(Rebuild(echo, b.id), b.data, b.last, echo.state)
  }

  function UpBResp(id: Id4, echo: Echo): UpB {
    UpB(Rebuild(echo, id), echo.state)
  }

  /** A response that comes back with its own echo carries its own five-bit ID and state. */
  lemma RoundTrip(u: UpAddr, b: RBeat)
    requires b.id == Down(u).id
    ensures UpR(b, Down(u).echo) == UpRBeat(u.id, b.data, b.last, u.state)
    ensures UpBResp(Down(u).id, Down(u).echo) == UpB(u.id, u.state)
  {
    assert u.id == 16 * (u.id / 16) + u.id % 16;
  }

  /** No two upstream IDs are confused: the pair sent down determines the five-bit ID. */
  lemma Injective(u: UpAddr, v: UpAddr)
    requires Down(u).id == Down(v).id && Down(u).echo == Down(v).echo
    ensures u.id == v.id && u.state == v.state
  {
    RoundTrip(u, RBeat(Down(u).id, [], true));
    RoundTrip(v, RBeat(Down(v).id, [], true));
  }
}
