/**
 The send queue over whole runs: list and index against the queue on values, under any acks whatever
 (send_queue.go, channel.go).
 */
module Ledger {
  import opened Packets
  import opened Endpoint
  import opened Outstanding
  import opened SendQueues

  /**
   The list and the index of a send queue, with the sending half they belong to; `total` packets have
   been queued, and `outstanding` are the numbers of those still in the list.
   */
  datatype Ledger = Ledger(
    queue: seq<Element>, index: map<uint32, Element>, send: SendState, total: nat, outstanding: seq<nat>)

  const EMPTY := Ledger([], map[], IDLE_SENDER, 0, [])

  datatype Op = Add(e: Element) | Delete(id: uint32)

  /** A new element is added under the next id; any id may be deleted. */
  ghost predicate Enabled(l: Ledger, op: Op) {
    op.Add? ==> op.e !in l.queue && op.e.pac.id == l.send.nextID && l.send.nextID < LIMIT
  }

  /** What `SendQueue.Add` and `SendQueue.Delete` do to list and index, and `AckStep` to the numbers. */
  ghost function Do(l: Ledger, op: Op): Ledger
    requires Enabled(l, op)
  {
    match op
    case Add(e) =>
      var send := l.send.(nextID := NextID(l.send.nextID), queue := l.send.queue + [e.pac]);
      Ledger(l.queue + [e], l.index[e.pac.id := e], send, l.total + 1, l.outstanding + [l.total])
    case Delete(id) =>
      var (send, outstanding) := AckStep(l.send, l.outstanding, id);
      Ledger(Removed(l.queue, l.index, id), l.index - {id}, send, l.total, outstanding)
  }

  /** Every packet of the run is added while there is room. */
  ghost predicate Runs(l: Ledger, run: seq<Op>)
    decreases |run|
  {
    run != [] ==>
      && Enabled(l, run[0]) && (run[0].Add? ==> HasRoom(l.total, l.outstanding))
      && Runs(Do(l, run[0]), run[1..])
  }

  ghost function After(l: Ledger, run: seq<Op>): Ledger
    requires Runs(l, run)
    decreases |run|
  {
    if run == [] then l else After(Do(l, run[0]), run[1..])
  }

  ghost predicate Balanced(l: Ledger) {
    && FullyIndexed(l.queue, l.index) && PacketsIn(l.queue) == l.send.queue
    && QueueShape(l.total, l.send, l.outstanding)
  }

  /** The next id is in the index exactly when there is no room. */
  lemma FreeId(l: Ledger)
    requires Balanced(l)
    ensures l.send.nextID !in l.index <==> HasRoom(l.total, l.outstanding)
  {
    QueuedIdsDistinct(l.total, l.send, l.outstanding);
    FoundByIndex(l.queue, l.index, l.send.nextID);
  }

  /** Room is what keeps list and index in correspondence, and nothing else is needed. */
  lemma AddKeeps(l: Ledger, op: Op)
    requires Balanced(l) && Enabled(l, op) && op.Add?
    ensures Balanced(Do(l, op)) <==> HasRoom(l.total, l.outstanding)
  {
    FreeId(l);
    AddedIndexed(l.queue, l.index, op.e);
    if HasRoom(l.total, l.outstanding) {
      PushKeepsShape(l.total, l.send, l.outstanding, op.e.pac);
      assert PacketsIn(l.queue + [op.e]) == PacketsIn(l.queue) + [op.e.pac];
    }
  }

  lemma DeleteKeeps(l: Ledger, op: Op)
    requires Balanced(l) && op.Delete?
    ensures Balanced(Do(l, op))
  {
    RemovedFound(l.queue, l.index, op.id);
    AckKeepsShape(l.total, l.send, l.outstanding, op.id);
  }

  lemma {:induction false} RunKeeps(l: Ledger, run: seq<Op>)
    requires Balanced(l) && Runs(l, run)
    ensures Balanced(After(l, run))
    decreases |run|
  {
    if run == [] {
    } else {
      if run[0].Add? {
        AddKeeps(l, run[0]);
      } else {
        DeleteKeeps(l, run[0]);
      }
      RunKeeps(Do(l, run[0]), run[1..]);
    }
  }

  lemma EmptyBalanced()
    ensures Balanced(EMPTY)
  {
  }

  /**
   Over every run of adds and deletes, acks of any ids whatever: list and index correspond one to one, the list
   holds what the queue on values does, in the order of sending and so the oldest first, under different ids. The
   correspondence survives the next add if and only if the queue spans fewer than all ids, counted with the new one.
   */
  lemma FreshIds(run: seq<Op>, next: Element)
    requires Runs(EMPTY, run)
    ensures var l := After(EMPTY, run);
            && FullyIndexed(l.queue, l.index) && PacketsIn(l.queue) == l.send.queue && |l.index| == |l.queue|
            && |l.queue| == |l.outstanding|
            && (forall i :: 0 <= i < |l.queue| ==>
                  l.queue[i].pac.id == l.outstanding[i] % LIMIT && l.outstanding[i] < l.total)
            && (forall i, j :: 0 <= i < j < |l.queue| ==>
                  l.outstanding[i] < l.outstanding[j] && l.queue[i].pac.id != l.queue[j].pac.id)
            && (next.pac.id == l.send.nextID && next !in l.queue ==>
                  (FullyIndexed(l.queue + [next], l.index[next.pac.id := next]) <==> HasRoom(l.total, l.outstanding)))
  {
    EmptyBalanced();
    RunKeeps(EMPTY, run);
    var l := After(EMPTY, run);
    QueuedIdsDistinct(l.total, l.send, l.outstanding);
    FreeId(l);
    IndexSize(l.queue, l.index);
    if next !in l.queue {
      AddedIndexed(l.queue, l.index, next);
    }
  }
}
