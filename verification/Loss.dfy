/**
 When the assumptions fail, and what then cannot be made good: fragments that are gone for ever, and messages
 that are garbled because the two ends do not have the same key.
 */
module Loss {
  import opened Packets
  import opened Crypt
  import opened Split
  import opened Receiver
  import opened Tracking
  import opened Endpoint
  import opened Outstanding
  import opened Protocol

  /** A copy of number `n` is under way. */
  ghost predicate OnItsWay(s: System, n: nat) {
    exists c :: c in s.data && c.num == n
  }

  /** The writer can still send number `n` again. */
  predicate Resendable(s: System, n: nat) {
    !s.ended && n in s.outstanding && n < |s.resends| && s.resends[n] < MAX_RESENDS
  }

  /** A copy of number `n` is under way, or can be. */
  ghost predicate Available(s: System, n: nat) {
    OnItsWay(s, n) || Resendable(s, n)
  }

  /** A fragment was sent and not accepted, and there is no copy of it left and there will be none. */
  ghost predicate Gone(s: System, n: nat) {
    n < |s.frags| && n !in Accepted(s.recv) && !Available(s, n)
  }

  lemma NoneComesBackOther(p: Suite, s: System, a: Action, n: nat)
    requires Possible(p, s, a) && IsOther(a)
    ensures Available(Do(p, s, a), n) ==> Available(s, n)
  {
    OtherEffect(p, s, a);
  }

  /** No step brings back a number that was sent before. */
  lemma NoneComesBack(p: Suite, s: System, a: Action, n: nat)
    requires Consistent(p, s) && Safe(p, s, a) && n < |s.frags|
    ensures n in Do(p, s, a).outstanding ==> n in s.outstanding
    ensures Available(Do(p, s, a), n) ==> Available(s, n)
  {
    if a.DeliverData? {
      DeliverDataEffect(p, s, a);
    } else if a.DeliverAck? {
      DeliverAckEffect(p, s, a);
      DeliverAckSafe(p, s, a);
    } else if IsOther(a) {
      OtherEffect(p, s, a);
      NoneComesBackOther(p, s, a, n);
    }
  }

  lemma ServedOnItsWay(p: Suite, s: System, a: Action)
    requires Consistent(p, s) && Safe(p, s, a) && a.DeliverData?
    ensures OnItsWay(s, a.c.num) && a.c.num < |s.frags|
  {
    assert Carries(p, s.keys, s.frags, a.c.num, a.c.wire);
  }

  /** Nothing is accepted but what is served, and that was available. */
  lemma NoneAcceptedUnserved(p: Suite, s: System, a: Action, n: nat)
    requires Consistent(p, s) && Safe(p, s, a)
    ensures n in Accepted(Do(p, s, a).recv) ==> n in Accepted(s.recv) || (a.DeliverData? && a.c.num == n)
    ensures a.DeliverData? ==> OnItsWay(s, a.c.num) && a.c.num < |s.frags|
  {
    if a.DeliverData? {
      ServedOnItsWay(p, s, a);
      DeliverDataSafe(p, s, a);
    } else if a.DeliverAck? {
      DeliverAckEffect(p, s, a);
    } else if IsOther(a) {
      OtherEffect(p, s, a);
    }
  }

  lemma GoneAfterStep(p: Suite, s: System, a: Action, n: nat)
    requires Consistent(p, s) && Safe(p, s, a) && Gone(s, n)
    ensures Gone(Do(p, s, a), n)
  {
    FragsStay(p, s, a);
    NoneComesBack(p, s, a, n);
    NoneAcceptedUnserved(p, s, a, n);
  }

  /** What has been sent stays sent, under the key it was sealed under. */
  lemma FragsStay(p: Suite, s: System, a: Action)
    requires Consistent(p, s) && Safe(p, s, a)
    ensures |s.frags| <= |Do(p, s, a).frags| <= |s.frags| + 1 && s.keys <= Do(p, s, a).keys
    ensures !a.SetReaderKey? ==> Do(p, s, a).readerKey == s.readerKey
    ensures !a.SetWriterKey? ==> Do(p, s, a).writerKey == s.writerKey
    ensures |Do(p, s, a).frags| > |s.frags| ==> a.Emit? && Do(p, s, a).keys == s.keys + [s.writerKey]
  {
    if a.DeliverData? {
      DeliverDataEffect(p, s, a);
    } else if a.DeliverAck? {
      DeliverAckEffect(p, s, a);
    }
  }

  /** What is gone stays gone, in every run whatever, and the expected number never passes it. */
  lemma {:induction false} GoneForEver(p: Suite, s: System, run: seq<Action>, n: nat)
    requires Consistent(p, s) && SafeRun(p, s, run) && Gone(s, n)
    ensures var s' := After(p, s, run);
            Gone(s', n) && s'.recv.advances <= n && |s'.recv.delivered| < |s'.written|
    decreases |run|
  {
    if run == [] {
      NextFragmentNew(s.frags, s.recv);
      DeliveredPrefix(p, s);
    } else {
      SafeStepKeeps(p, s, run[0]);
      GoneAfterStep(p, s, run[0], n);
      GoneForEver(p, Do(p, s, run[0]), run[1..], n);
    }
  }

  /** What has left the queue never returns to it. */
  lemma {:induction false} AckedForEver(p: Suite, s: System, run: seq<Action>, n: nat)
    requires Consistent(p, s) && SafeRun(p, s, run) && n < |s.frags| && n !in s.outstanding
    ensures Consistent(p, After(p, s, run))
    ensures n < |After(p, s, run).frags| && n !in After(p, s, run).outstanding
    decreases |run|
  {
    if run == [] {
    } else {
      SafeStepKeeps(p, s, run[0]);
      FragsStay(p, s, run[0]);
      NoneComesBack(p, s, run[0], n);
      AckedForEver(p, Do(p, s, run[0]), run[1..], n);
    }
  }

  /**
   Why the span must stay within half the ids. A queued fragment that far beyond the expected one is acknowledged
   when it arrives, and dropped: once the ack is served it is neither queued nor accepted. From the moment on that
   no further copy of it is under way, however that comes about, it is lost: no run ever delivers it.
   */
  lemma TooFarAheadLost(p: Suite, s: System, c: Copy, run: seq<Action>, rest: seq<Action>)
    requires Consistent(p, s) && Within(|s.frags|, s.outstanding, LIMIT) && !s.ended
    requires Safe(p, s, DeliverData(c)) && c.num in s.outstanding && HALF <= c.num - s.recv.advances
    ensures var s1 := Do(p, s, DeliverData(c));
            && s1.recv == s.recv.(drop := s.recv.drop + 1) && Possible(p, s1, DeliverAck(AckCopy(c.num)))
            && var s2 := Do(p, s1, DeliverAck(AckCopy(c.num)));
            && Consistent(p, s2) && c.num !in s2.outstanding && c.num !in Accepted(s2.recv)
            && var s3 := After(p, s2, run);
            SafeRun(p, s2, run) && c.num !in Accepted(s3.recv) && !OnItsWay(s3, c.num) && SafeRun(p, s3, rest) ==>
              && After(p, s3, rest).recv.advances <= c.num
              && |After(p, s3, rest).recv.delivered| < |After(p, s3, rest).written|
  {
    var a := DeliverData(c);
    var s1 := Do(p, s, a);
    DeliverDataEffect(p, s, a);
    DeliverDataSafe(p, s, a);
    TooFarAheadDropped(s.frags, s.recv, c.num);
    AckTakesOut(p, s1, c.num);
    var s2 := Do(p, s1, DeliverAck(AckCopy(c.num)));
    var s3 := After(p, s2, run);
    if SafeRun(p, s2, run) && c.num !in Accepted(s3.recv) && !OnItsWay(s3, c.num) && SafeRun(p, s3, rest) {
      AckedForEver(p, s2, run, c.num);
      GoneForEver(p, s3, rest, c.num);
    }
  }

  lemma AckTakesOut(p: Suite, s: System, n: nat)
    requires Consistent(p, s) && Within(|s.frags|, s.outstanding, LIMIT) && !s.ended
    requires n in s.outstanding && AckCopy(n) in s.acks
    ensures var s' := Do(p, s, DeliverAck(AckCopy(n)));
            && Consistent(p, s') && n !in s'.outstanding && s'.recv == s.recv && s'.frags == s.frags
  {
    var a := DeliverAck(AckCopy(n));
    DeliverAckEffect(p, s, a);
    DeliverAckSafe(p, s, a);
    assert s.outstanding[0] <= n;
    AckRemoves(|s.frags|, s.send, s.outstanding, n);
  }

  // ---------------------------------------------------------------- keys that do not fit

  /** The writer, whose key is `key`, writes one message; then the peer, whose key is `other`, is served its packet. */
  function EarlyWrite(p: Suite, key: bytes, other: bytes, msg: Message, nonce: Nonce): seq<Action> {
    var pac := Seal(p, key, 0, Fragment(STATUS_DATA, msg.data), nonce);
    [SetWriterKey(key), Write(msg), Emit(nonce), SetReaderKey(other), DeliverData(Copy(0, Marshal(pac)))]
  }

  /** The message is written, and not yet sent. */
  ghost function Written(key: bytes, msg: Message): System {
    START.(writerKey := key, written := [msg], pending := [Fragment(STATUS_DATA, msg.data)])
  }

  /** It is sent as one packet, and the peer has its key. */
  ghost function Sent(p: Suite, key: bytes, other: bytes, msg: Message, nonce: Nonce): System {
    var f := Fragment(STATUS_DATA, msg.data);
    var pac := Seal(p, key, 0, f, nonce);
    System([msg], [], [f], [key], [0], SendState(1, [pac], 0, 0), [0], key, false,
           FRESH, other, {Copy(0, Marshal(pac))}, {})
  }

  lemma WritesOne(p: Suite, key: bytes, msg: Message)
    requires msg.maxLen > 0 && |msg.data| <= msg.maxLen
    ensures Do(p, START.(writerKey := key), Write(msg)) == Written(key, msg)
  {
  }

  lemma SendsOne(p: Suite, key: bytes, msg: Message, nonce: Nonce)
    ensures Do(p, Written(key, msg), Emit(nonce)) == Sent(p, key, [], msg, nonce)
  {
  }

  lemma AfterFirst(p: Suite, s: System, run: seq<Action>, k: nat)
    requires k < |run| && Possible(p, s, run[k])
    ensures After(p, s, run[k..]) == After(p, Do(p, s, run[k]), run[k + 1..])
  {
    assert run[k..][1..] == run[k + 1..];
  }

  lemma EarlyWriteSends(p: Suite, key: bytes, other: bytes, msg: Message, nonce: Nonce)
    requires msg.maxLen > 0 && |msg.data| <= msg.maxLen
    ensures var run := EarlyWrite(p, key, other, msg, nonce);
            After(p, START, run) == After(p, Sent(p, key, other, msg, nonce), run[4..])
  {
    var run := EarlyWrite(p, key, other, msg, nonce);
    WritesOne(p, key, msg);
    SendsOne(p, key, msg, nonce);
    assert run[0..] == run;
    AfterFirst(p, START, run, 0);
    AfterFirst(p, START.(writerKey := key), run, 1);
    AfterFirst(p, Written(key, msg), run, 2);
    AfterFirst(p, Sent(p, key, [], msg, nonce), run, 3);
  }

  /**
   Why the keys must fit. A short message is handed to the peer's reader, and acknowledged, whatever the keys of the
   two ends; its bytes are those written if and only if the keys give the same bytes for it. A writer that has no
   key yet, while its peer will have one when the packet arrives, is the case in which that fails.
   */
  lemma OtherKeyDelivers(p: Suite, key: bytes, other: bytes, msg: Message, nonce: Nonce)
    requires msg.maxLen > 0 && |msg.data| <= msg.maxLen && |msg.data| <= XOR_MAX
    ensures var s := After(p, START, EarlyWrite(p, key, other, msg, nonce));
            && s.written == [msg] && |s.recv.delivered| == 1 && AckCopy(0) in s.acks
            && (s.recv.delivered[0].data == msg.data <==>
                forall i :: 0 <= i < |msg.data| ==>
                  KeyByte(p, key, 0, |msg.data|, i) == KeyByte(p, other, 0, |msg.data|, i))
  {
    var run, s := EarlyWrite(p, key, other, msg, nonce), Sent(p, key, other, msg, nonce);
    EarlyWriteSends(p, key, other, msg, nonce);
    AfterFirst(p, s, run, 4);
    assert run[5..] == [];
    ServesOne(p, key, other, msg, nonce);
  }

  lemma ServesOne(p: Suite, key: bytes, other: bytes, msg: Message, nonce: Nonce)
    requires |msg.data| <= XOR_MAX
    ensures var a := EarlyWrite(p, key, other, msg, nonce)[4];
            && Possible(p, Sent(p, key, other, msg, nonce), a)
            && var s := Do(p, Sent(p, key, other, msg, nonce), a);
            && s.written == [msg] && |s.recv.delivered| == 1 && AckCopy(0) in s.acks
            && (s.recv.delivered[0].data == msg.data <==>
                forall i :: 0 <= i < |msg.data| ==>
                  KeyByte(p, key, 0, |msg.data|, i) == KeyByte(p, other, 0, |msg.data|, i))
  {
    var f := Fragment(STATUS_DATA, msg.data);
    OpenedUnderOtherKey(p, key, other, 0, f, nonce);
    var pac := OpenData(p, other, Marshal(Seal(p, key, 0, f, nonce))).value;
    OneAckCopy(0);
    assert Accept(FRESH, pac) == SendToReader(FRESH, pac);
  }
}
