/**
 The exact condition under which the channel can still deliver everything written. The writer gives the channel up
 rather than send a packet again for the hundred and first time, so there are reachable states that are stuck.
 */
module Finish {
  import opened Packets
  import opened Crypt
  import opened Split
  import opened Receiver
  import opened Tracking
  import opened Endpoint
  import opened Protocol
  import opened Coverage
  import opened Loss
  import opened Progress

  /**
   Each fragment sent was accepted, or can be served to the peer under its present key. If fragments are still to be
   sent, the writer has not given up and has the peer's key, and a number that can no longer be acknowledged does not
   take the queue beyond half the ids.
   */
  ghost predicate CanDeliver(s: System) {
    && (forall n: nat :: n < |s.frags| ==> n in Accepted(s.recv) || CanServe(s, n))
    && (s.pending != [] ==>
          && !s.ended && s.writerKey == s.readerKey
          && forall n :: n in s.outstanding ==> Ackable(s, n) || |s.frags| + |s.pending| - n <= HALF)
  }

  /** Each packet queued can still be acknowledged. */
  ghost predicate CanEmpty(s: System) {
    forall n :: n in s.outstanding ==> Ackable(s, n)
  }

  /** The run writes nothing more, sets no keys, and delivers everything that has been written. */
  ghost predicate DeliversAll(p: Suite, s: System, run: seq<Action>) {
    && Runs(p, s, run) && LeavesKeys(run) && Splittable(s.written)
    && After(p, s, run).written == s.written && After(p, s, run).recv.delivered == AllDeliveries(s.written)
  }

  /** Moreover it leaves the send queue empty. */
  ghost predicate Finishes(p: Suite, s: System, run: seq<Action>) {
    DeliversAll(p, s, run) && After(p, s, run).send.queue == []
  }

  // ---------------------------------------------------------------- a run, if the condition holds

  lemma {:induction false} PickServable(s: System, q: seq<nat>) returns (order: seq<nat>)
    requires AllIn(q, s.outstanding)
    ensures Servable(s, order) && forall n :: n in q && CanServe(s, n) ==> n in order
    decreases |q|
  {
    if q == [] {
      order := [];
    } else {
      order := PickServable(s, q[1..]);
      if CanServe(s, q[0]) {
        order := [q[0]] + order;
      }
      assert forall n :: n in q ==> n == q[0] || n in q[1..];
    }
  }

  lemma {:induction false} PickAcked(acks: set<Copy>, q: seq<nat>) returns (order: seq<nat>)
    ensures forall n :: n in order <==> n in q && AckCopy(n) in acks
    decreases |q|
  {
    if q == [] {
      order := [];
    } else {
      order := PickAcked(acks, q[1..]);
      if AckCopy(q[0]) in acks {
        order := [q[0]] + order;
      }
      assert forall n :: n in q <==> n == q[0] || n in q[1..];
    }
  }

  ghost predicate SameWriting(s: System, s': System) {
    && s'.written == s.written && s'.pending == s.pending && s'.frags == s.frags && s'.keys == s.keys
    && s'.writerKey == s.writerKey && s'.readerKey == s.readerKey && s'.ended == s.ended
  }

  /** What was sent has been accepted, and only what could not be acknowledged before is still queued. */
  ghost predicate Drained(s: System, s': System) {
    && SameWriting(s, s')
    && (forall n :: n in s'.outstanding ==> n in s.outstanding && n in Accepted(s'.recv) && !Ackable(s, n))
  }

  lemma AckEverything(p: Suite, s: System) returns (run: seq<Action>)
    requires Inv(p, s)
    ensures Runs(p, s, run) && LeavesKeys(run) && Inv(p, After(p, s, run))
    ensures var s' := After(p, s, run);
            && s' == s.(send := s'.send, outstanding := s'.outstanding)
            && forall n :: n in s'.outstanding ==> n in s.outstanding && (s.ended || AckCopy(n) !in s.acks)
  {
    if s.ended {
      run := [];
    } else {
      var order := PickAcked(s.acks, s.outstanding);
      run := AckRun(order);
      forall i | 0 <= i < |order|
        ensures AckCopy(order[i]) in s.acks && order[i] >= |s.frags| - LIMIT
      {
        assert order[i] in order;
        OutstandingRecent(p, s, order[i]);
      }
      AcksWork(p, s, order);
    }
  }

  lemma Drain(p: Suite, s: System) returns (run: seq<Action>)
    requires Inv(p, s) && forall n: nat :: n < |s.frags| ==> n in Accepted(s.recv) || CanServe(s, n)
    ensures Runs(p, s, run) && LeavesKeys(run) && Inv(p, After(p, s, run)) && Drained(s, After(p, s, run))
  {
    var order := PickServable(s, s.outstanding);
    var first := ServeRun(p, s, order);
    ServeWorks(p, s, order);
    var s1 := After(p, s, first);
    var rest := AckEverything(p, s1);
    RunsAppend(p, s, first, rest);
    run := first + rest;
    ServedThenAcked(p, s, s1, After(p, s1, rest), order);
  }

  lemma ServedThenAcked(p: Suite, s: System, s1: System, s2: System, order: seq<nat>)
    requires Inv(p, s) && forall n: nat :: n < |s.frags| ==> n in Accepted(s.recv) || CanServe(s, n)
    requires Served(s, s1, order) && forall n :: n in s.outstanding && CanServe(s, n) ==> n in order
    requires s2 == s1.(send := s2.send, outstanding := s2.outstanding)
    requires forall n :: n in s2.outstanding ==> n in s1.outstanding && (s1.ended || AckCopy(n) !in s1.acks)
    ensures Drained(s, s2)
  {
    forall n | n in s2.outstanding
      ensures n in Accepted(s2.recv) && !Ackable(s, n)
    {
      OutstandingRecent(p, s, n);
      if CanServe(s, n) {
        assert n in order;
      }
    }
  }

  lemma DrainedDelivers(p: Suite, s: System, s': System)
    requires Inv(p, s) && Inv(p, s') && Drained(s, s') && s.pending == []
    ensures s'.recv.delivered == AllDeliveries(s.written)
    ensures CanEmpty(s) ==> s'.send.queue == []
  {
    AllAccepted(p, s');
    assert s'.frags == Stream(s'.written);
    DeliveredPrefix(p, s');
    if CanEmpty(s) {
      NoneLeft(s'.outstanding);
    }
  }

  lemma EmitAllowed(p: Suite, s: System, s': System, nonce: Nonce)
    requires Inv(p, s) && Inv(p, s') && Drained(s, s') && CanDeliver(s) && s.pending != []
    ensures Enabled(p, s', Emit(nonce))
  {
    if s'.outstanding != [] {
      assert s'.outstanding[0] in s'.outstanding;
    }
  }

  /** The next fragment can be sent, and leaves the condition as it was. */
  lemma EmitNext(p: Suite, s: System, s': System, nonce: Nonce)
    requires Inv(p, s) && Inv(p, s') && Drained(s, s') && CanDeliver(s) && s.pending != []
    ensures Enabled(p, s', Emit(nonce))
    ensures var s2 := Do(p, s', Emit(nonce));
            && Inv(p, s2) && s2.written == s.written && |s2.pending| < |s.pending|
            && CanDeliver(s2) && (CanEmpty(s) ==> CanEmpty(s2))
  {
    EmitAllowed(p, s, s', nonce);
    StepKeeps(p, s', Emit(nonce));
    EmitKeepsAcks(p, s', Emit(nonce));
    AllAccepted(p, s');
    NextFragmentNew(s'.frags, s'.recv);
  }

  lemma EmitKeepsAcks(p: Suite, s: System, a: Action)
    requires Inv(p, s) && Enabled(p, s, a) && a.Emit? && s.writerKey == s.readerKey
    ensures CanServe(Do(p, s, a), |s.frags|) && Ackable(Do(p, s, a), |s.frags|)
    ensures forall n :: n in Do(p, s, a).outstanding <==> n in s.outstanding || n == |s.frags|
  {
    var c := Copy(|s.frags|, Marshal(Seal(p, s.writerKey, s.send.nextID, s.pending[0], a.nonce)));
    assert c in Do(p, s, a).data;
  }

  lemma EmitThen(p: Suite, s: System, run: seq<Action>, a: Action, rest: seq<Action>)
    requires Runs(p, s, run) && LeavesKeys(run) && a.Emit? && Enabled(p, After(p, s, run), a)
    requires DeliversAll(p, Do(p, After(p, s, run), a), rest)
    requires Do(p, After(p, s, run), a).written == s.written
    ensures DeliversAll(p, s, run + ([a] + rest))
    ensures After(p, s, run + ([a] + rest)) == After(p, Do(p, After(p, s, run), a), rest)
  {
    assert ([a] + rest)[1..] == rest;
    RunsAppend(p, s, run, [a] + rest);
  }

  lemma {:induction false} FinishFrom(p: Suite, s: System) returns (run: seq<Action>)
    requires Inv(p, s) && CanDeliver(s)
    ensures DeliversAll(p, s, run) && (CanEmpty(s) ==> After(p, s, run).send.queue == [])
    decreases |s.pending|
  {
    run := Drain(p, s);
    var s1 := After(p, s, run);
    if s.pending == [] {
      DrainedDelivers(p, s, s1);
    } else {
      var a := Emit(Zeros(NONCE_LEN));
      EmitNext(p, s, s1, a.nonce);
      var rest := FinishFrom(p, Do(p, s1, a));
      EmitThen(p, s, run, a, rest);
      run := run + ([a] + rest);
    }
  }

  // ---------------------------------------------------------------- no run, if it does not

  /** A fragment that the peer cannot be served now, or could not be served if it were sent. */
  ghost predicate Hopeless(s: System, n: nat) {
    n !in Accepted(s.recv) && if n < |s.frags| then !CanServe(s, n) else s.writerKey != s.readerKey
  }

  lemma HopelessAfterStep(p: Suite, s: System, a: Action, n: nat)
    requires Inv(p, s) && Enabled(p, s, a) && !SetsKey(a) && Hopeless(s, n)
    ensures Hopeless(Do(p, s, a), n)
  {
    FragsStay(p, s, a);
    NoneAcceptedUnserved(p, s, a, n);
    if n < |s.frags| {
      NoneComesBack(p, s, a, n);
    }
  }

  lemma {:induction false} HopelessForEver(p: Suite, s: System, run: seq<Action>, n: nat)
    requires Inv(p, s) && Runs(p, s, run) && LeavesKeys(run) && Hopeless(s, n)
    ensures Inv(p, After(p, s, run)) && Hopeless(After(p, s, run), n)
    decreases |run|
  {
    if run == [] {
    } else {
      assert !SetsKey(run[0]);
      StepKeeps(p, s, run[0]);
      HopelessAfterStep(p, s, run[0], n);
      HopelessForEver(p, Do(p, s, run[0]), run[1..], n);
    }
  }

  lemma UnackableAfterStep(p: Suite, s: System, a: Action, n: nat)
    requires Inv(p, s) && Enabled(p, s, a) && !SetsKey(a) && n in s.outstanding && !Ackable(s, n)
    ensures n in Do(p, s, a).outstanding && !Ackable(Do(p, s, a), n)
  {
    OutstandingRecent(p, s, n);
    FragsStay(p, s, a);
    NoneComesBack(p, s, a, n);
    AcksAfterStep(p, s, a, n);
  }

  /** An ack comes on the wire only when the number is served, and nothing but its ack takes a number out. */
  lemma AcksAfterStep(p: Suite, s: System, a: Action, n: nat)
    requires Inv(p, s) && Enabled(p, s, a) && n in s.outstanding
    ensures s.ended ==> Do(p, s, a).ended
    ensures AckCopy(n) in Do(p, s, a).acks ==>
              AckCopy(n) in s.acks || (a.DeliverData? && a.c.num == n && CanServe(s, n))
    ensures n in Do(p, s, a).outstanding || (AckCopy(n) in s.acks && !s.ended)
  {
    if a.DeliverData? {
      DeliverDataEffect(p, s, a);
    } else if a.DeliverAck? {
      DeliverAckEffect(p, s, a);
      DeliverAckKeeps(p, s, a);
    } else if IsOther(a) {
      OtherEffect(p, s, a);
    }
  }

  lemma {:induction false} UnackableForEver(p: Suite, s: System, run: seq<Action>, n: nat)
    requires Inv(p, s) && Runs(p, s, run) && LeavesKeys(run) && n in s.outstanding && !Ackable(s, n)
    ensures n in After(p, s, run).outstanding
    decreases |run|
  {
    if run == [] {
    } else {
      assert !SetsKey(run[0]);
      StepKeeps(p, s, run[0]);
      UnackableAfterStep(p, s, run[0], n);
      UnackableForEver(p, Do(p, s, run[0]), run[1..], n);
    }
  }

  lemma {:induction false} EndedSendsNothing(p: Suite, s: System, run: seq<Action>)
    requires Inv(p, s) && Runs(p, s, run) && s.ended
    ensures After(p, s, run).frags == s.frags
    decreases |run|
  {
    if run == [] {
    } else {
      StepKeeps(p, s, run[0]);
      EndedSendsNothing(p, Do(p, s, run[0]), run[1..]);
    }
  }

  /** Everything has been delivered only if everything has been sent and accepted. */
  lemma DeliveredMeansAccepted(p: Suite, s: System, written: seq<Message>)
    requires Inv(p, s) && s.written == written && s.recv.delivered == AllDeliveries(written)
    ensures s.recv.advances == |s.frags| == |Stream(written)|
    ensures forall n: nat :: n < |Stream(written)| ==> n in Accepted(s.recv)
  {
    DeliveredPrefix(p, s);
    ExpectedIsOutstanding(p, s);
    NextFragmentNew(s.frags, s.recv);
  }

  lemma NoneHopeless(p: Suite, s: System, run: seq<Action>, n: nat)
    requires Inv(p, s) && DeliversAll(p, s, run) && n < |s.frags| + |s.pending|
    ensures !Hopeless(s, n) && (n >= |s.frags| ==> !s.ended)
  {
    RunKeeps(p, s, run);
    DeliveredMeansAccepted(p, After(p, s, run), s.written);
    assert |Stream(s.written)| == |s.frags| + |s.pending|;
    if Hopeless(s, n) {
      HopelessForEver(p, s, run, n);
    }
    if s.ended {
      EndedSendsNothing(p, s, run);
    }
  }

  lemma UnackableWithin(p: Suite, s: System, run: seq<Action>, n: nat)
    requires Inv(p, s) && DeliversAll(p, s, run) && n in s.outstanding && !Ackable(s, n)
    ensures n in After(p, s, run).outstanding && |s.frags| + |s.pending| - n <= HALF
  {
    RunKeeps(p, s, run);
    DeliveredMeansAccepted(p, After(p, s, run), s.written);
    assert |Stream(s.written)| == |s.frags| + |s.pending|;
    UnackableForEver(p, s, run, n);
    OutstandingRecent(p, After(p, s, run), n);
  }

  lemma ServableOrAccepted(p: Suite, s: System, run: seq<Action>, n: nat)
    requires Inv(p, s) && DeliversAll(p, s, run) && n < |s.frags|
    ensures n in Accepted(s.recv) || CanServe(s, n)
  {
    NoneHopeless(p, s, run, n);
  }

  lemma NeedsServable(p: Suite, s: System, run: seq<Action>)
    requires Inv(p, s) && DeliversAll(p, s, run)
    ensures forall n: nat :: n < |s.frags| ==> n in Accepted(s.recv) || CanServe(s, n)
  {
    forall n: nat | n < |s.frags|
      ensures n in Accepted(s.recv) || CanServe(s, n)
    {
      ServableOrAccepted(p, s, run, n);
    }
  }

  lemma NeedsCanDeliver(p: Suite, s: System, run: seq<Action>)
    requires Inv(p, s) && DeliversAll(p, s, run)
    ensures CanDeliver(s)
  {
    NeedsServable(p, s, run);
    if s.pending != [] {
      NoneHopeless(p, s, run, |s.frags|);
      AcceptedBelow(p, s);
      forall n | n in s.outstanding && !Ackable(s, n)
        ensures |s.frags| + |s.pending| - n <= HALF
      {
        UnackableWithin(p, s, run, n);
      }
    }
  }

  lemma NeedsCanEmpty(p: Suite, s: System, run: seq<Action>)
    requires Inv(p, s) && Finishes(p, s, run)
    ensures CanEmpty(s)
  {
    RunKeeps(p, s, run);
    forall n | n in s.outstanding
      ensures Ackable(s, n)
    {
      if !Ackable(s, n) {
        UnackableForEver(p, s, run, n);
      }
    }
  }

  /** Nothing is accepted before it is sent. */
  lemma AcceptedBelow(p: Suite, s: System)
    requires Inv(p, s)
    ensures |s.frags| !in Accepted(s.recv)
  {
    if |s.frags| in Accepted(s.recv) {
      ParkedExactly(s.frags, s.recv, |s.frags|);
    }
  }

  // ---------------------------------------------------------------- both directions

  /** From a reachable state some run delivers everything written if and only if the condition holds. */
  lemma WhenDeliverable(p: Suite, s: System)
    requires Inv(p, s)
    ensures (exists run :: DeliversAll(p, s, run)) <==> CanDeliver(s)
  {
    if CanDeliver(s) {
      var run := FinishFrom(p, s);
    }
    forall run | DeliversAll(p, s, run)
      ensures CanDeliver(s)
    {
      NeedsCanDeliver(p, s, run);
    }
  }

  /** Some run moreover empties the send queue if and only if each packet queued can still be acknowledged. */
  lemma WhenFinishable(p: Suite, s: System)
    requires Inv(p, s)
    ensures (exists run :: Finishes(p, s, run)) <==> CanDeliver(s) && CanEmpty(s)
  {
    if CanDeliver(s) && CanEmpty(s) {
      var run := FinishFrom(p, s);
      assert Finishes(p, s, run);
    }
    forall run | Finishes(p, s, run)
      ensures CanDeliver(s) && CanEmpty(s)
    {
      NeedsCanDeliver(p, s, run);
      NeedsCanEmpty(p, s, run);
    }
  }

  /**
   So for every run: it can be continued to where everything written is delivered, or to where the queue is empty too,
   exactly under these conditions. They hold while both ends have one key, all fragments were sealed under it, the
   channel has not been given up, and no queued packet has been sent again the maximum number of times.
   */
  lemma NeverStuck(p: Suite, run: seq<Action>)
    requires Runs(p, START, run)
    ensures var s := After(p, START, run);
            && ((exists rest :: DeliversAll(p, s, rest)) <==> CanDeliver(s))
            && ((exists rest :: Finishes(p, s, rest)) <==> CanDeliver(s) && CanEmpty(s))
            && (AtEase(s) ==> CanDeliver(s) && CanEmpty(s))
  {
    StartKeeps(p);
    RunKeeps(p, START, run);
    NeverStuckFrom(p, After(p, START, run));
  }

  lemma NeverStuckFrom(p: Suite, s: System)
    requires Inv(p, s)
    ensures (exists rest :: DeliversAll(p, s, rest)) <==> CanDeliver(s)
    ensures (exists rest :: Finishes(p, s, rest)) <==> CanDeliver(s) && CanEmpty(s)
    ensures AtEase(s) ==> CanDeliver(s) && CanEmpty(s)
  {
    WhenDeliverable(p, s);
    WhenFinishable(p, s);
    if AtEase(s) {
      AtEaseSuffices(p, s);
    }
  }

  ghost predicate AtEase(s: System) {
    && !s.ended && s.writerKey == s.readerKey
    && forall n :: n in s.outstanding ==>
         n < |s.keys| && n < |s.resends| && s.keys[n] == s.readerKey && s.resends[n] < MAX_RESENDS
  }

  lemma AtEaseSuffices(p: Suite, s: System)
    requires Inv(p, s) && AtEase(s)
    ensures CanDeliver(s) && CanEmpty(s)
  {
    forall n | n in s.outstanding
      ensures CanServe(s, n)
    {
      assert Resendable(s, n);
    }
  }

  // ---------------------------------------------------------------- a channel that is stuck

  /** One message in one fragment is queued; it has been sent again `n` times, and no copy is left. */
  ghost function LostSoFar(p: Suite, msg: Message, nonce: Nonce, n: nat): System {
    Sent(p, [], [], msg, nonce).(data := {}, resends := [n])
  }

  ghost function SentCopy(p: Suite, msg: Message, nonce: Nonce): Copy {
    Copy(0, Marshal(Seal(p, [], 0, Fragment(STATUS_DATA, msg.data), nonce)))
  }

  /** It is written, sent, and lost `n + 1` times. */
  ghost function LostRun(p: Suite, msg: Message, nonce: Nonce, n: nat): seq<Action> {
    if n == 0 then [Write(msg), Emit(nonce), LoseData(SentCopy(p, msg, nonce))]
    else LostRun(p, msg, nonce, n - 1) + [Retransmit(0), LoseData(SentCopy(p, msg, nonce))]
  }

  lemma LostOnce(p: Suite, msg: Message, nonce: Nonce)
    requires msg.maxLen > 0 && |msg.data| <= msg.maxLen
    ensures Runs(p, START, LostRun(p, msg, nonce, 0))
    ensures After(p, START, LostRun(p, msg, nonce, 0)) == LostSoFar(p, msg, nonce, 0)
  {
    var run, s := LostRun(p, msg, nonce, 0), Sent(p, [], [], msg, nonce);
    var lose := LoseData(SentCopy(p, msg, nonce));
    assert run[1..] == [Emit(nonce), lose] && run[1..][1..] == [lose];
    WritesOne(p, [], msg);
    SendsOne(p, [], msg, nonce);
    assert Do(p, START, Write(msg)) == Written([], msg);
    LosesOne(p, s, lose.c);
    RunOne(p, s, lose);
  }

  lemma LosesOne(p: Suite, s: System, c: Copy)
    requires s.data == {c}
    ensures Enabled(p, s, LoseData(c)) && Do(p, s, LoseData(c)) == s.(data := {})
  {
    assert {c} - {c} == {};
  }

  lemma LostAgain(p: Suite, msg: Message, nonce: Nonce, n: nat)
    requires n < MAX_RESENDS
    ensures var s, run := LostSoFar(p, msg, nonce, n), [Retransmit(0), LoseData(SentCopy(p, msg, nonce))];
            Runs(p, s, run) && After(p, s, run) == LostSoFar(p, msg, nonce, n + 1)
  {
    var s, c := LostSoFar(p, msg, nonce, n), SentCopy(p, msg, nonce);
    var s1 := s.(resends := [n + 1], data := {c});
    assert s.resends[0 := n + 1] == [n + 1] && {} + {c} == {c};
    assert Enabled(p, s, Retransmit(0)) && Do(p, s, Retransmit(0)) == s1;
    LosesOne(p, s1, c);
    RunOne(p, s, Retransmit(0));
    RunOne(p, s1, LoseData(c));
    RunsAppend(p, s, [Retransmit(0)], [LoseData(c)]);
  }

  lemma {:induction false} LostMany(p: Suite, msg: Message, nonce: Nonce, n: nat)
    requires msg.maxLen > 0 && |msg.data| <= msg.maxLen && n <= MAX_RESENDS
    ensures Runs(p, START, LostRun(p, msg, nonce, n))
    ensures After(p, START, LostRun(p, msg, nonce, n)) == LostSoFar(p, msg, nonce, n)
  {
    if n == 0 {
      LostOnce(p, msg, nonce);
    } else {
      LostMany(p, msg, nonce, n - 1);
      LostAgain(p, msg, nonce, n - 1);
      RunsAppend(p, START, LostRun(p, msg, nonce, n - 1), [Retransmit(0), LoseData(SentCopy(p, msg, nonce))]);
    }
  }

  /** A message lost a hundred and one times is lost for good: a reachable state from which nothing delivers it. */
  lemma StuckAfterAll(p: Suite, msg: Message, nonce: Nonce)
    requires msg.maxLen > 0 && |msg.data| <= msg.maxLen
    ensures var run := LostRun(p, msg, nonce, MAX_RESENDS);
            Runs(p, START, run) && Gone(After(p, START, run), 0) && !CanDeliver(After(p, START, run))
  {
    LostMany(p, msg, nonce, MAX_RESENDS);
    var s := LostSoFar(p, msg, nonce, MAX_RESENDS);
    FreshAccepted();
    assert !OnItsWay(s, 0) && !Resendable(s, 0);
  }

  lemma FreshAccepted()
    ensures 0 !in Accepted(FRESH)
  {
  }
}
