/** The receive queue: packets that came too early, by id (receive_queue.go). */
module ReceiveQueues {
  import opened Packets

  class ReceiveQueue {
    var ma: map<uint32, Packet>

    constructor ()
      ensures ma == map[]
    {
      ma := map[];
    }

    method Add(pac: Packet)
      modifies this
      ensures ma == old(ma)[pac.id := pac]
    {
      ma := ma[pac.id := pac];
    }

    method Delete(id: uint32) returns (pac: Option<Packet>)
      modifies this
      ensures ma == old(ma) - {id}
      ensures pac == if id in old(ma) then Some(old(ma)[id]) else None
    {
      pac := Get(id);
      if pac.Some? {
        ma := ma - {id};
      } else {
        assert ma == ma - {id};
      }
    }

    method Get(id: uint32) returns (pac: Option<Packet>)
      ensures pac == if id in ma then Some(ma[id]) else None
    {
      pac := if id in ma then Some(ma[id]) else None;
    }
  }
}
