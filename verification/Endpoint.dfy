/**
 What one endpoint does to its sending and receiving halves when it writes a fragment and when it
 serves a data packet or an ack (channel.go, send_queue.go, tru.go), as functions on values.
 */
module Endpoint {
  import opened Packets
  import opened Crypt
  import opened Split
  import opened Receiver

  datatype SendState = SendState(nextID: uint32, queue: seq<Packet>, ackRecv: nat, ackDrop: nat)

  const IDLE_SENDER := SendState(0, [], 0, 0)

  function AckFor(id: uint32): Packet { Packet(id, STATUS_ACK, []) }

  predicate IsData(status: byte) { status == STATUS_DATA || status == STATUS_DATA_NEXT }

  /** The packet a fragment becomes: the id is taken before the payload is encrypted under it. */
  function Seal(p: Suite, key: bytes, id: uint32, f: Fragment, nonce: Nonce): Packet {
    Packet(id, f.status, EncryptPacketData(p, key, id, nonce, f.data))
  }

  function WriteFragment(p: Suite, key: bytes, s: SendState, f: Fragment, nonce: Nonce): (s': SendState)
    requires s.nextID < LIMIT
  {
    s.(nextID := NextID(s.nextID), queue := s.queue + [Seal(p, key, s.nextID, f, nonce)])
  }

  /** Position of the packet with this id; |queue| when there is none. */
  function Find(queue: seq<Packet>, id: uint32): (k: nat)
    ensures k <= |queue|
    ensures k < |queue| ==> queue[k].id == id
    ensures forall i :: 0 <= i < k ==> queue[i].id != id
  {
    if queue == [] then 0 else if queue[0].id == id then 0 else 1 + Find(queue[1..], id)
  }

  function RemoveAt<T>(q: seq<T>, k: nat): (r: seq<T>)
    requires k < |q|
    ensures |r| == |q| - 1
    ensures forall i {:trigger r[i]} :: 0 <= i < |r| ==> r[i] == (if i < k then q[i] else q[i + 1])
  {
    q[..k] + q[k + 1..]
  }

  function ReceiveAck(s: SendState, id: uint32): SendState {
    var k := Find(s.queue, id);
    if k == |s.queue| then s.(ackDrop := s.ackDrop + 1)
    else s.(queue := RemoveAt(s.queue, k), ackRecv := s.ackRecv + 1)
  }

  /** Each ack served is counted once, as received or as dropped; what it takes from the queue counts as received. */
  lemma AckAccounted(s: SendState, id: uint32)
    ensures var s' := ReceiveAck(s, id);
            && s'.ackRecv + s'.ackDrop == s.ackRecv + s.ackDrop + 1
            && s'.ackRecv + |s'.queue| == s.ackRecv + |s.queue|
            && (s'.ackDrop > s.ackDrop <==> forall i :: 0 <= i < |s.queue| ==> s.queue[i].id != id)
  {
  }

  /** The data packet in a datagram, decrypted; None when it is no data packet or does not decrypt. */
  function OpenData(p: Suite, key: bytes, wire: bytes): (r: Option<Packet>)
    ensures r.Some? ==> r.value.id < LIMIT && IsData(r.value.status)
  {
    match Unmarshal(wire)
    case None => None
    case Some(pac) =>
      if !IsData(pac.status) then None
      else
        match DecryptPacketData(p, key, pac.id, pac.data)
        case None => None
        case Some(plain) => Some(pac.(data := plain))
  }

  lemma OpenSealed(p: Suite, key: bytes, id: uint32, f: Fragment, nonce: Nonce)
    requires id < LIMIT && IsData(f.status)
    ensures OpenData(p, key, Marshal(Seal(p, key, id, f, nonce))) == Some(Packet(id, f.status, f.data))
  {
    UnmarshalMarshal(Seal(p, key, id, f, nonce));
    CipherRoundTrip(p, key, id, nonce, f.data);
  }

  /**
   Sealed under one key and opened under another, a short fragment is taken for a fragment all the same, with its id
   and status; its bytes are those written exactly when the two keys give the same key bytes.
   */
  lemma OpenedUnderOtherKey(p: Suite, key: bytes, other: bytes, id: uint32, f: Fragment, nonce: Nonce)
    requires id < LIMIT && IsData(f.status) && |f.data| <= XOR_MAX
    ensures var o := OpenData(p, other, Marshal(Seal(p, key, id, f, nonce)));
            && o.Some? && o.value.id == id && o.value.status == f.status
            && (o.value.data == f.data <==>
                forall i :: 0 <= i < |f.data| ==>
                  KeyByte(p, key, id, |f.data|, i) == KeyByte(p, other, id, |f.data|, i))
  {
    UnmarshalMarshal(Seal(p, key, id, f, nonce));
    OtherKeyGarbles(p, key, id, other, id, nonce, f.data);
  }

  /** The effect on the receiving half of a datagram that opened to `o`, and the acks it is answered with. */
  function ServeOpened(r: RecvState, o: Option<Packet>): (res: (RecvState, seq<Packet>))
    requires r.expectedID < LIMIT
    ensures res.0.expectedID < LIMIT
  {
    match o
    case None => (r, [])
    case Some(pac) => (Accept(r, pac), [AckFor(pac.id)])
  }

  function ServeAll(r: RecvState, os: seq<Option<Packet>>): (r': RecvState)
    requires r.expectedID < LIMIT
    ensures r'.expectedID < LIMIT
  {
    if os == [] then r else ServeOpened(ServeAll(r, os[..|os| - 1]), os[|os| - 1]).0
  }

  function OpenAll(p: Suite, key: bytes, wires: seq<bytes>): (os: seq<Option<Packet>>)
    ensures |os| == |wires|
    ensures forall i :: 0 <= i < |os| && os[i].Some? ==> os[i].value.id < LIMIT
  {
    seq(|wires|, i requires 0 <= i < |wires| => OpenData(p, key, wires[i]))
  }

  /** The data packets among opened datagrams. */
  function Opened(os: seq<Option<Packet>>): (pacs: seq<Packet>)
    ensures (forall i :: 0 <= i < |os| && os[i].Some? ==> os[i].value.id < LIMIT) ==>
              forall i :: 0 <= i < |pacs| ==> pacs[i].id < LIMIT
  {
    if os == [] then [] else Opened(os[..|os| - 1]) + Emitted(os[|os| - 1])
  }

  lemma {:induction false} ServeAllIsAcceptAll(r: RecvState, os: seq<Option<Packet>>)
    requires r.expectedID < LIMIT
    ensures ServeAll(r, os) == AcceptAll(r, Opened(os))
  {
    if os == [] {
    } else {
      var before, o := os[..|os| - 1], os[|os| - 1];
      ServeAllIsAcceptAll(r, before);
      if o.Some? {
        AcceptAllOneMore(r, Opened(before), o.value);
      } else {
        assert Opened(os) == Opened(before);
      }
    }
  }

  /**
   Whatever datagrams a fresh channel is served: the ones that open as data packets number the moves
   of the expected id plus the parked packets plus the drops; the expected id is never parked, and
   less than half the ids are.
   */
  lemma AnyDatagrams(p: Suite, key: bytes, wires: seq<bytes>)
    ensures var r := ServeAll(FRESH, OpenAll(p, key, wires));
            && |Opened(OpenAll(p, key, wires))| == r.advances + |r.parked| + r.drop
            && Ahead(r) && r.expectedID !in r.parked && |r.parked| <= HALF - 1
  {
    var os := OpenAll(p, key, wires);
    ServeAllIsAcceptAll(FRESH, os);
    Conservation(Opened(os));
    AlwaysAhead(Opened(os));
  }

  /** An ack in a datagram, by id. */
  function OpenAck(wire: bytes): (id: Option<uint32>)
    ensures id.Some? ==> id.value < LIMIT
  {
    match Unmarshal(wire)
    case None => None
    case Some(pac) => if pac.status == STATUS_ACK then Some(pac.id) else None
  }

  /** Which datagrams are acks, and of what id, in bytes of the datagram. */
  lemma AckBytes(wire: bytes)
    ensures OpenAck(wire).Some? <==> |wire| >= 4 && wire[3] == 5
    ensures OpenAck(wire).Some? ==> OpenAck(wire).value == IdBits(wire)
  {
    if |wire| >= 4 {
      UnmarshalBytes(wire);
    }
  }

  /** Which datagrams are data, in bytes of the datagram. In the clear all of these open, to what follows the header. */
  lemma DataBytes(p: Suite, key: bytes, wire: bytes)
    ensures OpenData(p, key, wire).Some? ==>
              && |wire| >= 4 && (wire[3] == 4 || wire[3] == 0x84)
              && OpenData(p, key, wire).value.id == IdBits(wire) && OpenData(p, key, wire).value.status == wire[3]
    ensures OpenData(p, [], wire) ==
            if |wire| >= 4 && (wire[3] == 4 || wire[3] == 0x84) then Some(Packet(IdBits(wire), wire[3], wire[4..]))
            else None
  {
    if |wire| >= 4 {
      UnmarshalBytes(wire);
    }
  }

  /** An ack on the wire. */
  lemma AckOnWire(id: uint32)
    requires id < 0x10_0000
    ensures Marshal(AckFor(id)) == [id % 0x100, id / 0x100 % 0x100, id / 0x1_0000, 5]
  {
    MarshalBytes(AckFor(id));
  }

  /**
   A data packet that decrypts is acknowledged by its id bytes, whatever becomes of it. Any other datagram, and one that
   does not decrypt, leaves the receiving half alone and is not acknowledged.
   */
  lemma DataAcknowledged(p: Suite, key: bytes, r: RecvState, wire: bytes)
    requires r.expectedID < LIMIT
    ensures var (r', acks) := ServeOpened(r, OpenData(p, key, wire));
            if |wire| >= 4 && (wire[3] == 4 || wire[3] == 0x84)
               && DecryptPacketData(p, key, IdBits(wire), wire[4..]).Some? then
              |acks| == 1 && Marshal(acks[0]) == [wire[0], wire[1], wire[2] % 0x10, 5]
            else r' == r && acks == []
  {
    DataBytes(p, key, wire);
    if |wire| >= 4 {
      UnmarshalBytes(wire);
      AckEchoesID(wire);
    }
  }

  /** The ack of a datagram repeats its id bytes. */
  lemma AckEchoesID(wire: bytes)
    requires |wire| >= 4
    ensures Marshal(AckFor(IdBits(wire))) == [wire[0], wire[1], wire[2] % 0x10, 5]
  {
    var id: nat, b0: nat, b1: nat, b2: nat := IdBits(wire), wire[0], wire[1], wire[2] % 0x10;
    AckOnWire(id);
    LowByte(b1, b2);
    LowByte(b0, b1 + 0x100 * b2);
    HighByte(id);
  }

  lemma LowByte(b: nat, rest: nat)
    requires b < 0x100
    ensures (b + 0x100 * rest) % 0x100 == b && (b + 0x100 * rest) / 0x100 == rest
  {
  }

  lemma HighByte(n: nat)
    ensures n / 0x1_0000 == n / 0x100 / 0x100
  {
  }
}
