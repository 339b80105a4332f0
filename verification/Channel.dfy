/**
 A channel as the program keeps it, with its queues updated in place (channel.go, tru.go), proved
 against the functions on values of Endpoint and Receiver.
 */
module Channels {
  import opened Packets
  import opened Crypt
  import opened Split
  import opened Receiver
  import opened Endpoint
  import opened SendQueues
  import opened ReceiveQueues

  /** Where a datagram went: to the channel, or to the connect and punch handlers outside it. */
  datatype Routing = Served | Elsewhere

  predicate IsConnecting(status: byte) {
    status <= STATUS_CONNECT_DONE || status == STATUS_PUNCH
  }

  /** The status of a datagram is its fourth byte. */
  lemma StatusByte(wire: bytes)
    ensures Unmarshal(wire).Some? <==> |wire| >= 4
    ensures |wire| >= 4 ==> Unmarshal(wire).value.status == wire[3]
    ensures OpenAck(wire).Some? <==> |wire| >= 4 && wire[3] == 5
  {
    if |wire| >= 4 {
      UnmarshalBytes(wire);
    }
    AckBytes(wire);
  }

  /** The answer to a ping on the wire. */
  lemma PongOnWire()
    ensures Marshal(PongPacket()) == [0, 0, 0, 7]
  {
    MarshalBytes(PongPacket());
  }

  function PongPacket(): Packet { Packet(0, STATUS_PONG, []) }

  /** The maximum fragment length in force; zero selects the default. */
  function EffectiveMax(maxDataLen: nat): (m: nat)
    ensures m > 0
  {
    if maxDataLen != 0 then maxDataLen else MAX_DATA_LEN
  }

  /**
   The sizes of the fragments written: the maximum configured, or 65495 bytes when none is, for all but the last, and
   no more than that for the last; and the status bytes that flag all but the last.
   */
  lemma WrittenSizes(message: bytes, maxDataLen: nat, i: nat)
    requires i < |SplitData(message, EffectiveMax(maxDataLen))|
    ensures var frags, m := SplitData(message, EffectiveMax(maxDataLen)), if maxDataLen != 0 then maxDataLen else 65495;
            && |frags[i].data| <= m && (i < |frags| - 1 ==> |frags[i].data| == m)
            && frags[i].status == (if i == |frags| - 1 then 4 else 0x84)
            && |message| <= |frags| * m && (if |message| <= m then |frags| == 1 else (|frags| - 1) * m < |message|)
  {
    SplitShape(message, EffectiveMax(maxDataLen), i);
    SplitCount(message, EffectiveMax(maxDataLen));
  }

  /** Every fragment of every message fits a datagram, as long as the maximum is the default or less. */
  lemma WrittenFits(p: Suite, key: bytes, id: uint32, nonce: Nonce, message: bytes, maxDataLen: nat, i: nat)
    requires maxDataLen <= MAX_DATA_LEN && i < |SplitData(message, EffectiveMax(maxDataLen))|
    ensures |Marshal(Seal(p, key, id, SplitData(message, EffectiveMax(maxDataLen))[i], nonce))|
            <= MAX_UDP_DATA_LENGTH < READ_BUFFER_LEN
  {
    var f := SplitData(message, EffectiveMax(maxDataLen))[i];
    SplitShape(message, EffectiveMax(maxDataLen), i);
    FragmentFits(p, key, id, nonce, f.status, f.data);
  }

  /** Fragments as packets, under the ids from `id` on. */
  function SealAll(p: Suite, key: bytes, id: uint32, frags: seq<Fragment>, nonces: nat -> Nonce): (pacs: seq<Packet>)
    requires id < LIMIT
    ensures |pacs| == |frags|
  {
    if frags == [] then []
    else
      var n := |frags| - 1;
      SealAll(p, key, id, frags[..n], nonces) + [Seal(p, key, IdAt(id, n), frags[n], nonces(n))]
  }

  /** The sending half after these fragments. */
  function Wrote(p: Suite, key: bytes, s: SendState, frags: seq<Fragment>, nonces: nat -> Nonce): SendState
    requires s.nextID < LIMIT
  {
    s.(nextID := IdAt(s.nextID, |frags|), queue := s.queue + SealAll(p, key, s.nextID, frags, nonces))
  }

  lemma WroteOneMore(p: Suite, key: bytes, s: SendState, frags: seq<Fragment>, f: Fragment, nonces: nat -> Nonce,
                     wire: seq<Packet>)
    requires s.nextID < LIMIT
    ensures var n := |frags|;
            && WriteFragment(p, key, Wrote(p, key, s, frags, nonces), f, nonces(n)) ==
               Wrote(p, key, s, frags + [f], nonces)
            && (wire + SealAll(p, key, s.nextID, frags, nonces)) + [Seal(p, key, IdAt(s.nextID, n), f, nonces(n))] ==
               wire + SealAll(p, key, s.nextID, frags + [f], nonces)
  {
    IdAtOneMore(s.nextID, |frags|);
    assert (frags + [f])[..|frags|] == frags;
  }

  /** None of the `n` ids from `e` on is in use, and no two of them are the same. */
  ghost predicate FreshRun(used: set<uint32>, e: uint32, n: nat)
    requires e < LIMIT
  {
    n <= LIMIT && forall i :: 0 <= i < n ==> IdAt(e, i) !in used
  }

  lemma NextOfRun(used: set<uint32>, e: uint32, n: nat)
    requires e < LIMIT
    ensures RunIds(e, n + 1) == RunIds(e, n) + {IdAt(e, n)}
    ensures FreshRun(used, e, n + 1) ==> FreshRun(used, e, n) && IdAt(e, n) !in used + RunIds(e, n)
  {
    assert IdAt(e, n) in RunIds(e, n + 1);
    if FreshRun(used, e, n + 1) && IdAt(e, n) in RunIds(e, n) {
      var i :| 0 <= i < n && IdAt(e, i) == IdAt(e, n);
      IdAtClosed(e, i);
      IdAtClosed(e, n);
      assert false;
    }
  }

  class Channel {
    const suite: Suite
    var sessionKey: bytes
    var id: uint32
    var expectedID: uint32
    const sendQueue: SendQueue
    const recvQueue: ReceiveQueue
    const combine: CombinePacket
    var maxDataLen: nat
    var destroyed: bool
    var tripTime: nat
    var ackRecv: nat
    var ackRecvDrop: nat
    var drop: nat
    var readerCh: seq<Packet>
    var senderCh: seq<Packet>
    ghost var advances: nat

    ghost predicate Valid()
      reads this, sendQueue, combine
    {
      id < LIMIT && expectedID < LIMIT && sendQueue.Valid() && combine.Valid()
    }

    ghost function Send(): SendState
      reads this, sendQueue
    {
      SendState(id, sendQueue.Contents(), ackRecv, ackRecvDrop)
    }

    ghost function Recv(): RecvState
      reads this, recvQueue, combine
      requires combine.Valid()
    {
      RecvState(expectedID, recvQueue.ma, combine.State(), readerCh, drop, advances)
    }

    constructor (suite: Suite, maxDataLen: nat)
      ensures Valid() && !destroyed && fresh(sendQueue) && fresh(recvQueue) && fresh(combine)
      ensures Send() == IDLE_SENDER && Recv() == FRESH && sendQueue.Bijective()
      ensures this.suite == suite && this.maxDataLen == maxDataLen && sessionKey == [] && senderCh == []
    {
      this.suite, this.maxDataLen := suite, maxDataLen;
      sessionKey, id, expectedID, destroyed, tripTime := [], 0, 0, false, 0;
      ackRecv, ackRecvDrop, drop, readerCh, senderCh, advances := 0, 0, 0, [], [], 0;
      sendQueue := new SendQueue();
      recvQueue := new ReceiveQueue();
      combine := new CombinePacket();
    }

    method NewID() returns (r: uint32)
      requires id < LIMIT
      modifies this`id
      ensures r == old(id) && id == NextID(old(id))
    {
      r := id;
      id := id + 1;
      if id >= LIMIT {
        id := 0;
      }
    }

    method NewExpectedID() returns (r: uint32)
      requires expectedID < LIMIT
      modifies this`expectedID, this`advances
      ensures r == expectedID == NextID(old(expectedID)) && advances == old(advances) + 1
    {
      expectedID := expectedID + 1;
      if expectedID >= LIMIT {
        expectedID := 0;
      }
      advances := advances + 1;
      r := expectedID;
    }

    // -------------------------------------------------------------- receiving

    method SendToReader(pac: Packet)
      requires Valid()
      modifies this`expectedID, this`advances, this`readerCh, combine
      ensures Valid() && Recv() == Receiver.SendToReader(old(Recv()), pac)
    {
      var _ := NewExpectedID();
      var whole := combine.Packet(pac);
      if whole.None? {
        return;
      }
      readerCh := readerCh + [whole.value];
    }

    /** The recursive drain: the packet is sent on before it is taken out of the map. */
    method ProcessQueue()
      requires Valid()
      modifies this`expectedID, this`advances, this`readerCh, combine, recvQueue
      ensures Valid() && Recv() == Process(old(Recv()))
      decreases |recvQueue.ma|
    {
      var e := expectedID;
      var pac := recvQueue.Get(e);
      if pac.None? {
        return;
      }
      RemovalShrinks(recvQueue.ma, e);
      SendToReader(pac.value);
      var _ := recvQueue.Delete(e);
      ProcessQueue();
    }

    method WriteControl(status: byte, ackID: uint32)
      modifies this`senderCh
      ensures senderCh == if destroyed then old(senderCh) else old(senderCh) + [Packet(ackID, status, [])]
    {
      if destroyed {
        return;
      }
      senderCh := senderCh + [Packet(ackID, status, [])];
    }

    /** A data packet in the clear: acknowledged first, then dropped, parked or delivered. */
    method AcceptData(pac: Packet)
      requires Valid() && !destroyed && pac.id < LIMIT
      modifies this`expectedID, this`advances, this`readerCh, this`drop, this`senderCh, combine, recvQueue
      ensures Valid() && Recv() == Accept(old(Recv()), pac)
      ensures senderCh == old(senderCh) + [AckFor(pac.id)]
    {
      var dist := Distance(expectedID, pac.id);
      WriteControl(STATUS_ACK, pac.id);
      if dist < 0 {
        drop := drop + 1;
      } else if dist > 0 {
        var parked := recvQueue.Get(pac.id);
        if parked.None? {
          recvQueue.Add(pac);
        } else {
          drop := drop + 1;
        }
      } else {
        SendToReader(pac);
        ProcessQueue();
      }
    }

    method AcceptAck(ackID: uint32)
      requires Valid()
      modifies this`ackRecv, this`ackRecvDrop, sendQueue
      ensures Valid() && sendQueue.index == old(sendQueue.index) - {ackID}
      ensures sendQueue.queue == Removed(old(sendQueue.queue), old(sendQueue.index), ackID)
      ensures ackRecv == old(ackRecv) + (if ackID in old(sendQueue.index) then 1 else 0)
      ensures ackRecvDrop == old(ackRecvDrop) + (if ackID in old(sendQueue.index) then 0 else 1)
      ensures old(sendQueue.Bijective()) ==> sendQueue.Bijective() && Send() == ReceiveAck(old(Send()), ackID)
    {
      var e := sendQueue.Get(ackID);
      if e == null {
        ackRecvDrop := ackRecvDrop + 1;
      } else {
        ackRecv := ackRecv + 1;
      }
      var _ := sendQueue.Delete(ackID);
    }

    /** One datagram from the peer. The two halves of the channel never touch each other. */
    method Serve(wire: bytes) returns (r: Routing)
      requires Valid() && !destroyed
      modifies this`expectedID, this`advances, this`readerCh, this`drop, this`senderCh
      modifies this`ackRecv, this`ackRecvDrop, this`destroyed, combine, recvQueue, sendQueue
      ensures Valid()
      ensures r.Elsewhere? <==> |wire| >= 4 && (wire[3] <= 3 || wire[3] == 9)
      ensures Recv() == ServeOpened(old(Recv()), OpenData(suite, sessionKey, wire)).0
      ensures (|wire| >= 4 ==> wire[3] != 5) ==>
                && Send() == old(Send())
                && sendQueue.queue == old(sendQueue.queue) && sendQueue.index == old(sendQueue.index)
      ensures OpenAck(wire).Some? ==>
                var ackID := OpenAck(wire).value;
                && sendQueue.index == old(sendQueue.index) - {ackID}
                && sendQueue.queue == Removed(old(sendQueue.queue), old(sendQueue.index), ackID)
                && ackRecv == old(ackRecv) + (if ackID in old(sendQueue.index) then 1 else 0)
                && ackRecvDrop == old(ackRecvDrop) + (if ackID in old(sendQueue.index) then 0 else 1)
      ensures OpenAck(wire).Some? && old(sendQueue.Bijective()) ==>
                sendQueue.Bijective() && Send() == ReceiveAck(old(Send()), OpenAck(wire).value)
      ensures senderCh == old(senderCh) + ServeOpened(old(Recv()), OpenData(suite, sessionKey, wire)).1 +
                          (if |wire| >= 4 && wire[3] == 6 then [PongPacket()] else [])
      ensures destroyed <==> |wire| >= 4 && wire[3] == 8
    {
      r := Served;
      StatusByte(wire);
      var u := Unmarshal(wire);
      if u.None? {
        return;
      }
      var pac := u.value;
      if IsConnecting(pac.status) {
        return Elsewhere;
      }
      if pac.status == STATUS_PING {
        WriteControl(STATUS_PONG, 0);
      } else if pac.status == STATUS_ACK {
        AcceptAck(pac.id);
      } else if pac.status == STATUS_DISCONNECT {
        destroyed := true;
      } else if pac.status == STATUS_DATA || pac.status == STATUS_DATA_NEXT {
        var plain := DecryptPacketData(suite, sessionKey, pac.id, pac.data);
        if plain.Some? {
          AcceptData(pac.(data := plain.value));
        }
      }
    }

    // -------------------------------------------------------------- sending

    /** One fragment: id, encryption, send queue, wire. None is the error on a destroyed channel. */
    method WriteFragmentTo(f: Fragment, nonce: Nonce, now: int) returns (r: Option<uint32>)
      requires Valid()
      modifies this`id, this`senderCh, sendQueue
      ensures Valid() && r == if destroyed then None else Some(old(id))
      ensures destroyed ==> unchanged(this, sendQueue)
      ensures !destroyed ==>
                && Send() == WriteFragment(suite, sessionKey, old(Send()), f, nonce)
                && senderCh == old(senderCh) + [Seal(suite, sessionKey, old(id), f, nonce)]
                && sendQueue.index.Keys == old(sendQueue.index).Keys + {old(id)}
                && (old(sendQueue.Bijective()) && old(id) !in old(sendQueue.index) ==> sendQueue.Bijective())
      ensures !destroyed ==>
                && old(sendQueue.queue) <= sendQueue.queue
                && sendQueue.Timers() == old(sendQueue.Timers()) + [FirstTimer(now, tripTime)]
    {
      if destroyed {
        return None;
      }
      var taken := NewID();
      var pac := Seal(suite, sessionKey, taken, f, nonce);
      DelayBounds(tripTime, 0);
      sendQueue.Add(pac, Timer(0, now + RetransmitDelay(tripTime, 0)));
      senderCh := senderCh + [pac];
      r := Some(taken);
    }

    /** These fragments have been written since the state `start`, when `wire` had been sent. */
    ghost predicate HasWritten(start: SendState, wire: seq<Packet>, frags: seq<Fragment>, nonces: nat -> Nonce)
      reads this, sendQueue
      requires start.nextID < LIMIT
    {
      && Send() == Wrote(suite, sessionKey, start, frags, nonces)
      && senderCh == wire + SealAll(suite, sessionKey, start.nextID, frags, nonces)
    }

    /** The ids queued are those in `used` and the `n` from `e` on, and the queue is bijective if these were free. */
    ghost predicate HasQueued(used: set<uint32>, e: uint32, n: nat)
      reads this, sendQueue
      requires e < LIMIT
    {
      sendQueue.index.Keys == used + RunIds(e, n) && (FreshRun(used, e, n) ==> sendQueue.Bijective())
    }

    /**
     The list is that from before with packets added at its end. The timers of those it had are as they were, and `n`
     timers started at `now` follow.
     */
    ghost predicate HasTimed(queue: seq<Element>, timers: seq<Timer>, n: nat, now: int)
      reads this, sendQueue, sendQueue.queue
    {
      queue <= sendQueue.queue && sendQueue.Timers() == timers + FirstTimers(n, now, tripTime)
    }

    /** Fragment `i` of a message, after those before it. */
    method WriteNext(f: Fragment, nonces: nat -> Nonce, i: nat, now: int, ghost start: SendState,
                     ghost wire: seq<Packet>, ghost frags: seq<Fragment>, ghost used: set<uint32>,
                     ghost tracked: bool, ghost queue: seq<Element>, ghost timers: seq<Timer>)
      returns (r: uint32)
      requires Valid() && !destroyed && start.nextID < LIMIT && i < |frags| && f == frags[i]
      requires HasWritten(start, wire, frags[..i], nonces) && HasTimed(queue, timers, i, now)
      requires tracked ==> HasQueued(used, start.nextID, i)
      modifies this`id, this`senderCh, sendQueue
      ensures Valid() && r == old(id) && id == NextID(r)
      ensures HasWritten(start, wire, frags[..i + 1], nonces) && HasTimed(queue, timers, i + 1, now)
      ensures tracked ==> HasQueued(used, start.nextID, i + 1)
    {
      WroteOneMore(suite, sessionKey, start, frags[..i], f, nonces, wire);
      assert frags[..i] + [f] == frags[..i + 1];
      NextOfRun(used, start.nextID, i);
      FirstTimersMore(timers, i, now, tripTime);
      var taken := WriteFragmentTo(f, nonces(i), now);
      r := taken.value;
    }

    /** The last fragment; `rid` is the id of the one before, and is kept as the id to return if there is one. */
    method WriteLast(f: Fragment, nonces: nat -> Nonce, i: nat, now: int, rid: uint32, ghost start: SendState,
                     ghost wire: seq<Packet>, ghost frags: seq<Fragment>, ghost used: set<uint32>,
                     ghost tracked: bool, ghost queue: seq<Element>, ghost timers: seq<Timer>)
      returns (r: uint32)
      requires Valid() && !destroyed && start.nextID < LIMIT && i == |frags| - 1 && f == frags[i]
      requires i > 0 ==> rid < LIMIT && id == NextID(rid)
      requires HasWritten(start, wire, frags[..i], nonces) && HasTimed(queue, timers, i, now)
      requires tracked ==> HasQueued(used, start.nextID, i)
      modifies this`id, this`senderCh, sendQueue
      ensures Valid() && r < LIMIT && id == if i == 0 then NextID(r) else NextID(NextID(r))
      ensures HasWritten(start, wire, frags, nonces) && HasTimed(queue, timers, |frags|, now)
      ensures tracked ==> HasQueued(used, start.nextID, |frags|)
    {
      assert frags[..i + 1] == frags;
      r := WriteNext(f, nonces, i, now, start, wire, frags, used, tracked, queue, timers);
      if i > 0 {
        r := rid;
      }
    }

    /** The message has been written since the state `start`, and `rid` is the id returned. */
    ghost predicate WroteMessage(start: SendState, wire: seq<Packet>, message: bytes, nonces: nat -> Nonce, rid: uint32)
      reads this, sendQueue
      requires start.nextID < LIMIT
    {
      var maxLen := EffectiveMax(maxDataLen);
      && HasWritten(start, wire, SplitData(message, maxLen), nonces) && rid < LIMIT
      && id == if |message| <= maxLen then NextID(rid) else NextID(NextID(rid))
    }

    /** The loop over the full fragments; `data` is the last one, after `i` others. */
    method WriteFull(message: bytes, maxLen: nat, nonces: nat -> Nonce, now: int, ghost start: SendState,
                     ghost wire: seq<Packet>, ghost frags: seq<Fragment>, ghost used: set<uint32>,
                     ghost tracked: bool, ghost queue: seq<Element>, ghost timers: seq<Timer>)
      returns (rid: uint32, data: bytes, i: nat)
      requires Valid() && !destroyed && start.nextID < LIMIT && maxLen > 0 && SplitsInto(message, maxLen, frags, 0)
      requires HasWritten(start, wire, frags[..0], nonces) && HasTimed(queue, timers, 0, now)
      requires tracked ==> HasQueued(used, start.nextID, 0)
      modifies this`id, this`senderCh, sendQueue
      ensures Valid() && i == |frags| - 1 && frags[i] == Fragment(STATUS_DATA, data)
      ensures if i == 0 then |message| <= maxLen else |message| > maxLen && rid < LIMIT && id == NextID(rid)
      ensures HasWritten(start, wire, frags[..i], nonces) && HasTimed(queue, timers, i, now)
      ensures tracked ==> HasQueued(used, start.nextID, i)
    {
      data, i, rid := message, 0, 0;
      while |data| > maxLen
        invariant Valid() && SplitsInto(data, maxLen, frags, i)
        invariant if i == 0 then |data| == |message| else |message| > maxLen && rid < LIMIT && id == NextID(rid)
        invariant HasWritten(start, wire, frags[..i], nonces) && HasTimed(queue, timers, i, now)
        invariant tracked ==> HasQueued(used, start.nextID, i)
      {
        rid := WriteNext(Fragment(STATUS_DATA_NEXT, data[..maxLen]), nonces, i, now, start, wire, frags, used,
                         tracked, queue, timers);
        data, i := data[maxLen..], i + 1;
      }
    }

    /** At first nothing has been written. */
    lemma NothingWritten(frags: seq<Fragment>, nonces: nat -> Nonce, now: int)
      requires Valid()
      ensures HasWritten(Send(), senderCh, frags[..0], nonces)
      ensures HasTimed(sendQueue.queue, sendQueue.Timers(), 0, now)
      ensures sendQueue.Bijective() ==> HasQueued(sendQueue.index.Keys, id, 0)
    {
      assert RunIds(id, 0) == {};
    }

    /**
     Each fragment of the message is written as it is split off; on a destroyed channel the first write returns the
     error. The id returned is the fragment's when there is one only, and that of the last but one otherwise.
     */
    method SplitPacket(message: bytes, nonces: nat -> Nonce, now: int) returns (rid: Option<uint32>)
      requires Valid()
      modifies this`id, this`senderCh, sendQueue
      ensures Valid() && (rid.None? <==> destroyed)
      ensures destroyed ==> unchanged(this, sendQueue)
      ensures !destroyed ==> WroteMessage(old(Send()), old(senderCh), message, nonces, rid.value)
      ensures !destroyed && old(sendQueue.Bijective()) ==>
                HasQueued(old(sendQueue.index).Keys, old(id), |SplitData(message, EffectiveMax(maxDataLen))|)
      ensures !destroyed ==>
                HasTimed(old(sendQueue.queue), old(sendQueue.Timers()),
                         |SplitData(message, EffectiveMax(maxDataLen))|, now)
    {
      if destroyed {
        return None;
      }
      var maxLen := EffectiveMax(maxDataLen);
      ghost var queue, timers, tracked := sendQueue.queue, sendQueue.Timers(), sendQueue.Bijective();
      ghost var used, start, wire, frags := sendQueue.index.Keys, Send(), senderCh, SplitData(message, maxLen);
      NothingWritten(frags, nonces, now);
      SplitsWhole(message, maxLen);
      var last, data, i := WriteFull(message, maxLen, nonces, now, start, wire, frags, used, tracked, queue, timers);
      last := WriteLast(Fragment(STATUS_DATA, data), nonces, i, now, last, start, wire, frags, used,
                        tracked, queue, timers);
      rid := Some(last);
    }

    /** What a caller writes a message with. */
    method WriteTo(message: bytes, nonces: nat -> Nonce, now: int) returns (rid: Option<uint32>)
      requires Valid()
      modifies this`id, this`senderCh, sendQueue
      ensures Valid() && (rid.None? <==> destroyed)
      ensures destroyed ==> unchanged(this, sendQueue)
      ensures !destroyed ==> WroteMessage(old(Send()), old(senderCh), message, nonces, rid.value)
      ensures !destroyed && old(sendQueue.Bijective()) ==>
                HasQueued(old(sendQueue.index).Keys, old(id), |SplitData(message, EffectiveMax(maxDataLen))|)
      ensures !destroyed ==>
                HasTimed(old(sendQueue.queue), old(sendQueue.Timers()),
                         |SplitData(message, EffectiveMax(maxDataLen))|, now)
    {
      rid := SplitPacket(message, nonces, now);
    }

    ghost function ScanState(): Scanned
      reads this, sendQueue, sendQueue.queue
    {
      Scanned(sendQueue.Timers(), senderCh, destroyed)
    }

    /** The scan at element `k`: sent again when due, and the channel ends when that has happened too often. */
    method ResendIfDue(k: nat, now: int)
      requires Valid() && !destroyed && k < |sendQueue.queue|
      modifies this`senderCh, this`destroyed, sendQueue.queue[k]
      ensures ScanState() == ScanAt(old(ScanState()), sendQueue.queue[k].pac, k, now, tripTime)
    {
      var e := sendQueue.queue[k];
      DistinctPairs(sendQueue.queue);
      if !(e.timer.due < now) {
        return;
      }
      var attempts := e.timer.attempts + 1;
      e.timer := e.timer.(attempts := attempts);
      if attempts > MAX_RETRANSMIT_ATTEMPTS {
        destroyed := true;
      } else {
        e.timer := e.timer.(due := now + RetransmitDelay(tripTime, attempts));
        senderCh := senderCh + [e.pac];
      }
    }

    /** One scan of the send queue from its front. */
    method Retransmit(now: int)
      requires Valid() && !destroyed
      modifies this`senderCh, this`destroyed, sendQueue.queue
      ensures ScanState() == ScanFirst(sendQueue.Contents(), old(sendQueue.Timers()), old(senderCh),
                                           now, tripTime, |sendQueue.queue|)
    {
      ghost var pacs, timers, wire := sendQueue.Contents(), sendQueue.Timers(), senderCh;
      var i, n := 0, |sendQueue.queue|;
      while i < n
        invariant 0 <= i <= n && !destroyed
        invariant ScanState() == ScanFirst(pacs, timers, wire, now, tripTime, i)
      {
        ResendIfDue(i, now);
        i := i + 1;
        if destroyed {
          ScanStays(pacs, timers, wire, now, tripTime, i, n);
          return;
        }
      }
    }
  }
}
