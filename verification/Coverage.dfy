/**
 What the two further assumptions buy: as long as the numbers queued stay within half the ids and no ack is
 a whole turn late, every fragment sent is queued at the writer or accepted by the peer.
 */
module Coverage {
  import opened Packets
  import opened Crypt
  import opened Split
  import opened Receiver
  import opened Tracking
  import opened Outstanding
  import opened Protocol

  /** Every fragment sent is still queued, or the peer has accepted it. */
  ghost predicate Covered(total: nat, outstanding: seq<nat>, accepted: set<int>) {
    forall n: nat :: n < total ==> n in outstanding || n in accepted
  }

  /** Only fragments that were accepted have been acknowledged. */
  ghost predicate AcksTrue(acks: set<Copy>, accepted: set<int>) {
    forall c :: c in acks ==> c.num in accepted
  }

  ghost predicate Inv(p: Suite, s: System) {
    && Consistent(p, s) && Within(|s.frags|, s.outstanding, HALF)
    && AcksTrue(s.acks, Accepted(s.recv)) && Covered(|s.frags|, s.outstanding, Accepted(s.recv))
  }

  /**
   The peer never waits for a fragment that the writer has dropped from its queue, nor for one not yet sent; so
   no fragment is too far ahead of it.
   */
  lemma ExpectedIsOutstanding(p: Suite, s: System)
    requires Inv(p, s)
    ensures s.recv.advances <= |s.frags|
    ensures s.recv.advances < |s.frags| ==> s.recv.advances in s.outstanding
    ensures s.outstanding == [] ==> s.recv.advances == |s.frags|
    ensures s.outstanding != [] ==> s.outstanding[0] <= s.recv.advances
    ensures |s.frags| - s.recv.advances <= HALF
  {
    NextFragmentNew(s.frags, s.recv);
    if s.recv.advances < |s.frags| {
      assert s.recv.advances in s.outstanding;
    }
  }

  lemma EmitKeeps(p: Suite, s: System, a: Action)
    requires Inv(p, s) && Enabled(p, s, a) && a.Emit?
    ensures Inv(p, Do(p, s, a))
  {
    EmitSafe(p, s, a);
    EmitCovered(|s.frags|, s.outstanding, Accepted(s.recv));
  }

  lemma EmitCovered(total: nat, outstanding: seq<nat>, accepted: set<int>)
    requires Covered(total, outstanding, accepted)
    ensures Covered(total + 1, outstanding + [total], accepted)
  {
  }

  lemma DeliverDataKeeps(p: Suite, s: System, a: Action)
    requires Inv(p, s) && Enabled(p, s, a) && a.DeliverData?
    ensures Inv(p, Do(p, s, a))
    ensures Accepted(Do(p, s, a).recv) == Accepted(s.recv) + {a.c.num as int}
  {
    ExpectedIsOutstanding(p, s);
    DeliverDataSafe(p, s, a);
    DeliverDataEffect(p, s, a);
  }

  lemma AckCovered(total: nat, outstanding: seq<nat>, after: seq<nat>, n: nat, accepted: set<int>)
    requires Covered(total, outstanding, accepted) && n in accepted
    requires forall m :: m in after <==> m in outstanding && m != n
    ensures Covered(total, after, accepted)
  {
  }

  lemma DeliverAckKeeps(p: Suite, s: System, a: Action)
    requires Inv(p, s) && Enabled(p, s, a) && a.DeliverAck?
    ensures Inv(p, Do(p, s, a))
    ensures forall n :: n in Do(p, s, a).outstanding <==> n in s.outstanding && n != a.c.num
  {
    DeliverAckSafe(p, s, a);
    DeliverAckEffect(p, s, a);
    AckKeepsShape(|s.frags|, s.send, s.outstanding, a.c.num % LIMIT);
    AckRemoves(|s.frags|, s.send, s.outstanding, a.c.num);
    AckCovered(|s.frags|, s.outstanding, Do(p, s, a).outstanding, a.c.num, Accepted(s.recv));
  }

  lemma OtherKeeps(p: Suite, s: System, a: Action)
    requires Inv(p, s) && Enabled(p, s, a) && IsOther(a)
    ensures Inv(p, Do(p, s, a))
  {
    SafeStepKeeps(p, s, a);
    OtherEffect(p, s, a);
  }

  lemma StepKeeps(p: Suite, s: System, a: Action)
    requires Inv(p, s) && Enabled(p, s, a)
    ensures Inv(p, Do(p, s, a))
  {
    match a
    case Emit(_) => EmitKeeps(p, s, a);
    case DeliverData(_) => DeliverDataKeeps(p, s, a);
    case DeliverAck(_) => DeliverAckKeeps(p, s, a);
    case _ => OtherKeeps(p, s, a);
  }

  lemma StartKeeps(p: Suite)
    ensures Inv(p, START)
  {
    StartConsistent(p);
  }

  lemma {:induction false} RunKeeps(p: Suite, s: System, run: seq<Action>)
    requires Inv(p, s) && Runs(p, s, run)
    ensures Inv(p, After(p, s, run))
    decreases |run|
  {
    if run == [] {
    } else {
      StepKeeps(p, s, run[0]);
      RunKeeps(p, Do(p, s, run[0]), run[1..]);
    }
  }

  /** Number `n` is parked at the peer. */
  ghost predicate Parked(frags: seq<Fragment>, r: RecvState, n: nat) {
    && n < |frags| && n % LIMIT in r.parked
    && r.parked[n % LIMIT] == PacketOf(frags, n) && SeqOf(r.advances, n % LIMIT) == n
  }

  lemma Somewhere(p: Suite, s: System, n: nat)
    requires Inv(p, s)
    ensures n < |s.frags| ==> n in s.outstanding || Parked(s.frags, s.recv, n) || n < s.recv.advances
  {
    if n < |s.frags| && n !in s.outstanding && n >= s.recv.advances {
      ParkedExactly(s.frags, s.recv, n);
    }
  }

  /**
   Nothing is lost. In every run a fragment sent is queued at the writer, parked at the peer or behind
   the expected id, and the expected id lies between the oldest queued fragment and the next to be sent.
   */
  lemma NothingLost(p: Suite, run: seq<Action>, n: nat)
    requires Runs(p, START, run)
    ensures var s := After(p, START, run);
            && (n < |s.frags| ==> n in s.outstanding || Parked(s.frags, s.recv, n) || n < s.recv.advances)
            && s.recv.advances <= |s.frags|
            && (s.outstanding != [] ==> s.outstanding[0] <= s.recv.advances)
            && |s.frags| == s.send.ackRecv + |s.send.queue|
  {
    StartKeeps(p);
    RunKeeps(p, START, run);
    var s := After(p, START, run);
    ExpectedIsOutstanding(p, s);
    Somewhere(p, s, n);
  }

  /** Between writes, an empty send queue means that everything written has been delivered and nothing is left over. */
  lemma EmptyQueueMeansDelivered(p: Suite, s: System)
    requires Inv(p, s) && s.pending == [] && s.send.queue == []
    ensures s.recv.advances == |s.frags| && s.recv.parked == map[] && s.recv.combining == Idle
    ensures s.recv.delivered == AllDeliveries(s.written)
  {
    ExpectedIsOutstanding(p, s);
    assert s.frags == Stream(s.written);
    assert s.recv.parked == map[];
    DeliveredPrefix(p, s);
  }

  lemma QuiescentMeansDelivered(p: Suite, run: seq<Action>)
    requires Runs(p, START, run)
    requires After(p, START, run).pending == [] && After(p, START, run).send.queue == []
    ensures var s := After(p, START, run);
            && s.recv.advances == |s.frags| && s.recv.parked == map[] && s.recv.combining == Idle
            && Splittable(s.written) && s.recv.delivered == AllDeliveries(s.written)
  {
    StartKeeps(p);
    RunKeeps(p, START, run);
    EmptyQueueMeansDelivered(p, After(p, START, run));
  }
}
