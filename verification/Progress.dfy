/**
 When the channel can finish. The writer sends a packet again a bounded number of times and then gives the channel
 up, so not every state can; here is the exact condition, and a run that finishes whenever there is one.
 */
module Progress {
  import opened Packets
  import opened Crypt
  import opened Tracking
  import opened Protocol
  import opened Coverage
  import opened Loss

  function IndexOf(q: seq<nat>, n: nat): (k: nat)
    requires n in q
    ensures k < |q| && q[k] == n
  {
    if q[0] == n then 0 else 1 + IndexOf(q[1..], n)
  }

  ghost predicate AllIn(order: seq<nat>, q: seq<nat>) {
    forall i :: 0 <= i < |order| ==> order[i] in q
  }

  /** The peer can still be served number `n`, under the key it has. */
  ghost predicate CanServe(s: System, n: nat) {
    n < |s.keys| && s.keys[n] == s.readerKey && Available(s, n)
  }

  /** The writer can still be served an ack of number `n`. */
  ghost predicate Ackable(s: System, n: nat) {
    !s.ended && (AckCopy(n) in s.acks || CanServe(s, n))
  }

  // ---------------------------------------------------------------- serving what is queued

  /** From `s` to `s'` copies and acks have come on the wire, and what is in `order` was accepted and acknowledged. */
  ghost predicate Served(s: System, s': System, order: seq<nat>) {
    && s' == s.(resends := s'.resends, recv := s'.recv, data := s'.data, acks := s'.acks)
    && Accepted(s.recv) <= Accepted(s'.recv) && s.acks <= s'.acks
    && (forall n :: CanServe(s, n) ==> CanServe(s', n))
    && forall i :: 0 <= i < |order| ==> order[i] in Accepted(s'.recv) && AckCopy(order[i]) in s'.acks
  }

  ghost predicate Serves(p: Suite, s: System, run: seq<Action>, order: seq<nat>) {
    && Runs(p, s, run) && LeavesKeys(run)
    && Inv(p, After(p, s, run)) && Served(s, After(p, s, run), order)
  }

  lemma ServedTwice(s: System, s1: System, s2: System, a: seq<nat>, b: seq<nat>)
    requires Served(s, s1, a) && Served(s1, s2, b)
    ensures Served(s, s2, a + b)
  {
  }

  lemma ServesNone(p: Suite, s: System)
    requires Inv(p, s)
    ensures Serves(p, s, [], [])
  {
  }

  lemma ServesMore(p: Suite, s: System, run: seq<Action>, order: seq<nat>, first: seq<Action>, a: seq<nat>,
                   rest: seq<Action>, b: seq<nat>)
    requires run == first + rest && order == a + b
    requires Serves(p, s, first, a) && Serves(p, After(p, s, first), rest, b)
    ensures Serves(p, s, run, order)
  {
    RunsAppend(p, s, first, rest);
    ServedTwice(s, After(p, s, first), After(p, s, run), a, b);
  }

  lemma OutstandingRecent(p: Suite, s: System, n: nat)
    requires Inv(p, s) && n in s.outstanding
    ensures |s.frags| - HALF <= n < |s.frags| && n - s.recv.advances < HALF && n - s.recv.advances >= -HALF
  {
    assert s.outstanding[0] <= n;
    ExpectedIsOutstanding(p, s);
  }

  lemma DeliverServes(p: Suite, s: System, a: Action)
    requires Inv(p, s) && Enabled(p, s, a) && a.DeliverData?
    ensures Inv(p, Do(p, s, a)) && Served(s, Do(p, s, a), [a.c.num])
  {
    DeliverDataKeeps(p, s, a);
    DeliverDataEffect(p, s, a);
    forall n | CanServe(s, n)
      ensures CanServe(Do(p, s, a), n)
    {
      assert OnItsWay(Do(p, s, a), n) == OnItsWay(s, n);
    }
  }

  lemma DeliverCopy(p: Suite, s: System, c: Copy)
    requires Inv(p, s) && c in s.data && c.num in s.outstanding && s.keys[c.num] == s.readerKey
    ensures Serves(p, s, [DeliverData(c)], [c.num])
  {
    var a := DeliverData(c);
    OutstandingRecent(p, s, c.num);
    assert Enabled(p, s, a);
    DeliverServes(p, s, a);
    RunOne(p, s, a);
  }

  /** A copy of the packet queued at `k`. */
  function QueuedCopy(s: System, k: nat): Copy
    requires k < |s.send.queue| && k < |s.outstanding|
  {
    Copy(s.outstanding[k], Marshal(s.send.queue[k]))
  }

  /** A packet that can be sent again is, and nothing else becomes harder to serve. */
  lemma ResendCopy(p: Suite, s: System, k: nat)
    requires Inv(p, s) && k < |s.outstanding| && Resendable(s, s.outstanding[k])
    ensures Serves(p, s, [Retransmit(k)], [])
    ensures QueuedCopy(s, k) in After(p, s, [Retransmit(k)]).data
  {
    var a := Retransmit(k);
    var s', c := Do(p, s, a), QueuedCopy(s, k);
    StepKeeps(p, s, a);
    RunOne(p, s, a);
    assert c in s'.data;
    forall n | CanServe(s, n)
      ensures CanServe(s', n)
    {
      if OnItsWay(s, n) {
        var d :| d in s.data && d.num == n;
        assert d in s'.data;
      }
    }
  }

  /** How to serve the peer one number: from a copy under way, or else from one sent again. */
  ghost function ServeSteps(s: System, n: nat): seq<Action>
    requires n in s.outstanding && |s.send.queue| == |s.outstanding|
  {
    if OnItsWay(s, n) then
      var c :| c in s.data && c.num == n;
      [DeliverData(c)]
    else
      var k := IndexOf(s.outstanding, n);
      [Retransmit(k), DeliverData(QueuedCopy(s, k))]
  }

  lemma ResendThenDeliver(p: Suite, s: System, k: nat)
    requires Inv(p, s) && k < |s.outstanding| && s.outstanding[k] < |s.keys| && CanServe(s, s.outstanding[k])
    requires Resendable(s, s.outstanding[k])
    ensures Serves(p, s, [Retransmit(k), DeliverData(QueuedCopy(s, k))], [s.outstanding[k]])
  {
    var n, first, rest := s.outstanding[k], [Retransmit(k)], [DeliverData(QueuedCopy(s, k))];
    ResendCopy(p, s, k);
    DeliverCopy(p, After(p, s, first), QueuedCopy(s, k));
    ServesMore(p, s, [Retransmit(k), DeliverData(QueuedCopy(s, k))], [n], first, [], rest, [n]);
  }

  lemma ServeOne(p: Suite, s: System, n: nat)
    requires Inv(p, s) && n in s.outstanding && CanServe(s, n)
    ensures Serves(p, s, ServeSteps(s, n), [n])
  {
    if OnItsWay(s, n) {
      DeliverCopy(p, s, ServeSteps(s, n)[0].c);
    } else {
      ResendThenDeliver(p, s, IndexOf(s.outstanding, n));
    }
  }

  /** The numbers in `order` served one after another. */
  ghost function ServeRun(p: Suite, s: System, order: seq<nat>): seq<Action>
    decreases |order|
  {
    if order == [] || order[0] !in s.outstanding || |s.send.queue| != |s.outstanding| then []
    else
      var first := ServeSteps(s, order[0]);
      first + ServeRun(p, After(p, s, first), order[1..])
  }

  /** All of these are queued, and the peer can be served them. */
  ghost predicate Servable(s: System, order: seq<nat>) {
    AllIn(order, s.outstanding) && forall i :: 0 <= i < |order| ==> CanServe(s, order[i])
  }

  lemma StillServable(s: System, s': System, a: seq<nat>, order: seq<nat>)
    requires Served(s, s', a) && Servable(s, order) && order != []
    ensures Servable(s', order[1..])
  {
  }

  lemma {:induction false} ServeWorks(p: Suite, s: System, order: seq<nat>)
    requires Inv(p, s) && Servable(s, order)
    ensures Serves(p, s, ServeRun(p, s, order), order)
    decreases |order|
  {
    if order == [] {
      ServesNone(p, s);
    } else {
      var n := order[0];
      var first := ServeSteps(s, n);
      var s1 := After(p, s, first);
      ServeOne(p, s, n);
      StillServable(s, s1, [n], order);
      ServeWorks(p, s1, order[1..]);
      ServesMore(p, s, ServeRun(p, s, order), order, first, [n], ServeRun(p, s1, order[1..]), order[1..]);
    }
  }

  // ---------------------------------------------------------------- acknowledging it

  function AckRun(order: seq<nat>): (run: seq<Action>)
    ensures LeavesKeys(run)
  {
    if order == [] then [] else [DeliverAck(AckCopy(order[0]))] + AckRun(order[1..])
  }

  /** Serving the acks of the numbers in `order` takes these out of the queue, and no others. */
  lemma {:induction false} AcksWork(p: Suite, s: System, order: seq<nat>)
    requires Inv(p, s) && !s.ended
    requires forall i :: 0 <= i < |order| ==> AckCopy(order[i]) in s.acks && order[i] >= |s.frags| - LIMIT
    ensures Runs(p, s, AckRun(order))
    ensures var s' := After(p, s, AckRun(order));
            && Inv(p, s') && s' == s.(send := s'.send, outstanding := s'.outstanding)
            && forall n :: n in s'.outstanding <==> n in s.outstanding && n !in order
    decreases |order|
  {
    if order == [] {
    } else {
      var a := DeliverAck(AckCopy(order[0]));
      DeliverAckKeeps(p, s, a);
      DeliverAckEffect(p, s, a);
      var s1 := Do(p, s, a);
      AcksWork(p, s1, order[1..]);
      assert AckRun(order)[1..] == AckRun(order[1..]);
      assert forall n :: n in order <==> n == order[0] || n in order[1..];
    }
  }

  lemma NoneLeft(q: seq<nat>)
    requires forall n :: n !in q
    ensures q == []
  {
    HasElement(q);
  }

  lemma HasElement(q: seq<nat>)
    ensures q != [] ==> exists n :: n in q
  {
    if q != [] {
      assert q[0] in q;
    }
  }

  /** Once all that is queued has been accepted, the expected number is the next to be sent. */
  lemma AllAccepted(p: Suite, s: System)
    requires Inv(p, s) && forall n :: n in s.outstanding ==> n in Accepted(s.recv)
    ensures s.recv.advances == |s.frags|
  {
    ExpectedIsOutstanding(p, s);
    NextFragmentNew(s.frags, s.recv);
  }

  /**
   Progress. From a reachable state in which each queued packet can be served, each of them served in any order
   brings the expected number to the next to be sent, and one ack for each, served in any order, then empties the queue.
   */
  lemma ServeThenAck(p: Suite, s: System, order: seq<nat>, ackOrder: seq<nat>)
    requires Inv(p, s) && !s.ended && forall n :: n in s.outstanding ==> CanServe(s, n)
    requires AllIn(order, s.outstanding) && AllIn(s.outstanding, order)
    requires AllIn(ackOrder, s.outstanding) && AllIn(s.outstanding, ackOrder)
    ensures var run := ServeRun(p, s, order);
            && Runs(p, s, run)
            && After(p, s, run).recv.advances == |s.frags|
            && Runs(p, s, run + AckRun(ackOrder))
            && var s' := After(p, s, run + AckRun(ackOrder));
            && Inv(p, s') && s'.send.queue == [] && s'.recv.advances == |s.frags|
            && s'.written == s.written && s'.pending == s.pending && s'.frags == s.frags
  {
    var run := ServeRun(p, s, order);
    ServeWorks(p, s, order);
    var s1 := After(p, s, run);
    forall n | n in s.outstanding
      ensures n in Accepted(s1.recv) && AckCopy(n) in s1.acks && n in ackOrder
    {
      assert n in order;
    }
    AllAccepted(p, s1);
    forall i | 0 <= i < |ackOrder|
      ensures ackOrder[i] >= |s.frags| - LIMIT
    {
      OutstandingRecent(p, s, ackOrder[i]);
    }
    AcksWork(p, s1, ackOrder);
    RunsAppend(p, s, run, AckRun(ackOrder));
    NoneLeft(After(p, s1, AckRun(ackOrder)).outstanding);
  }
}
