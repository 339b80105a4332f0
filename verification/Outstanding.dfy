/**
 The numbers of the queued packets beside their wrapped ids: what an ack takes out, and when the
 ids in the queue are distinct (channel.go, tru.go, send_queue.go).
 */
module Outstanding {
  import opened Packets
  import opened Endpoint

  /** The queue holds the outstanding numbers under their wrapped ids, oldest first; `total` have been queued so far. */
  ghost predicate Numbered(total: nat, send: SendState, outstanding: seq<nat>) {
    && send.nextID == total % LIMIT
    && |send.queue| == |outstanding| && total == send.ackRecv + |send.queue|
    && (forall i, j :: 0 <= i < j < |outstanding| ==> outstanding[i] < outstanding[j])
    && (forall i :: 0 <= i < |outstanding| ==> outstanding[i] < total && send.queue[i].id == outstanding[i] % LIMIT)
  }

  /** From the oldest queued packet on, no more than `span` have been queued. */
  predicate Within(total: nat, outstanding: seq<nat>, span: nat) {
    outstanding != [] ==> total - outstanding[0] <= span
  }

  /** Moreover the queue spans at most all ids. */
  ghost predicate QueueShape(total: nat, send: SendState, outstanding: seq<nat>) {
    Numbered(total, send, outstanding) && Within(total, outstanding, LIMIT)
  }

  /** The next packet can be queued without the numbers spanning more than all ids. */
  predicate HasRoom(total: nat, outstanding: seq<nat>) {
    Within(total + 1, outstanding, LIMIT)
  }

  /** The sending half serves an ack; the number of the packet taken from the queue goes with it. */
  function AckStep(send: SendState, outstanding: seq<nat>, id: uint32): (SendState, seq<nat>) {
    var k := Find(send.queue, id);
    (ReceiveAck(send, id), if k < |send.queue| && k < |outstanding| then RemoveAt(outstanding, k) else outstanding)
  }

  lemma SameIdSameNumber(a: nat, b: nat)
    requires a - b < LIMIT && b - a < LIMIT
    ensures a % LIMIT == b % LIMIT <==> a == b
  {
  }

  /** The ids in the queue are all different, and the next one to be issued is not among them while there is room. */
  lemma QueuedIdsDistinct(total: nat, send: SendState, outstanding: seq<nat>)
    requires QueueShape(total, send, outstanding)
    ensures forall i, j :: 0 <= i < j < |send.queue| ==> send.queue[i].id != send.queue[j].id
    ensures HasRoom(total, outstanding) <==> forall i :: 0 <= i < |send.queue| ==> send.queue[i].id != send.nextID
  {
    forall i, j | 0 <= i < j < |send.queue|
      ensures send.queue[i].id != send.queue[j].id
    {
      assert outstanding[0] <= outstanding[i];
      SameIdSameNumber(outstanding[i], outstanding[j]);
    }
    if HasRoom(total, outstanding) {
      forall i | 0 <= i < |send.queue|
        ensures send.queue[i].id != send.nextID
      {
        assert outstanding[0] <= outstanding[i];
        SameIdSameNumber(outstanding[i], total);
      }
    } else {
      OneTurnLater(outstanding[0]);
      assert send.queue[0].id == send.nextID;
    }
  }

  /** An ack takes out the very packet it acknowledges, although it names it only by its wrapped id. */
  lemma AckFindsItsPacket(total: nat, send: SendState, outstanding: seq<nat>, num: nat)
    requires QueueShape(total, send, outstanding)
    requires num < total && num >= total - LIMIT
    ensures var k := Find(send.queue, num % LIMIT);
            && (k < |send.queue| <==> num in outstanding)
            && (k < |send.queue| ==> outstanding[k] == num)
  {
    forall i | 0 <= i < |outstanding|
      ensures send.queue[i].id == num % LIMIT <==> outstanding[i] == num
    {
      SameIdSameNumber(outstanding[i], num);
    }
  }

  /** Why acks must not be a whole turn late: such an ack takes out the packet that has the id now. */
  lemma StaleAckTakesNewer(total: nat, send: SendState, outstanding: seq<nat>, num: nat)
    requires QueueShape(total, send, outstanding) && num + LIMIT in outstanding
    ensures var k := Find(send.queue, num % LIMIT);
            k < |send.queue| && outstanding[k] == num + LIMIT
  {
    var i :| 0 <= i < |outstanding| && outstanding[i] == num + LIMIT;
    assert outstanding[0] <= outstanding[i];
    OneTurnLater(num);
    AckFindsItsPacket(total, send, outstanding, num + LIMIT);
  }

  lemma RemoveAtMembers(q: seq<nat>, k: nat)
    requires k < |q| && forall i, j :: 0 <= i < j < |q| ==> q[i] < q[j]
    ensures forall n :: n in RemoveAt(q, k) <==> n in q && n != q[k]
    ensures forall i, j :: 0 <= i < j < |q| - 1 ==> RemoveAt(q, k)[i] < RemoveAt(q, k)[j]
    ensures |q| > 1 ==> RemoveAt(q, k)[0] >= q[0]
  {
  }

  /** Any id whatever may be acknowledged: what stays in the queue is in order and within every span as before. */
  lemma AckKeepsShape(total: nat, send: SendState, outstanding: seq<nat>, id: uint32)
    requires Numbered(total, send, outstanding)
    ensures var (send', outstanding') := AckStep(send, outstanding, id);
            && Numbered(total, send', outstanding')
            && (forall n :: n in outstanding' ==> n in outstanding)
            && (forall span :: Within(total, outstanding, span) ==> Within(total, outstanding', span))
  {
    var k := Find(send.queue, id);
    if k < |outstanding| {
      RemoveAtMembers(outstanding, k);
    }
  }

  /** The ack of number `num`, served before the ids have come round to it, removes this number and no other. */
  lemma AckRemoves(total: nat, send: SendState, outstanding: seq<nat>, num: nat)
    requires QueueShape(total, send, outstanding)
    requires num < total && num >= total - LIMIT
    ensures forall n :: n in AckStep(send, outstanding, num % LIMIT).1 <==> n in outstanding && n != num
  {
    AckFindsItsPacket(total, send, outstanding, num);
    if num in outstanding {
      RemoveAtMembers(outstanding, Find(send.queue, num % LIMIT));
    }
  }

  /** The next packet is queued under the next id. */
  lemma PushKeepsShape(total: nat, send: SendState, outstanding: seq<nat>, pac: Packet)
    requires Numbered(total, send, outstanding) && pac.id == send.nextID
    ensures var send' := send.(nextID := NextID(send.nextID), queue := send.queue + [pac]);
            Numbered(total + 1, send', outstanding + [total])
  {
    NextIDWraps(total);
  }
}
