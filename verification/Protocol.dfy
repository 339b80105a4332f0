/**
 One direction of a channel as a system: a writer, its peer, and a network that loses, duplicates
 and reorders. Copies on the wire carry, for the proof only, the unbounded number of their fragment.
 The network may serve a copy again and again, so it is a set.
 */
module Protocol {
  import opened Packets
  import opened Crypt
  import opened Split
  import opened Receiver
  import opened Tracking
  import opened Endpoint
  import opened Outstanding
  import SendQueues

  const MAX_RESENDS: nat := SendQueues.MAX_RETRANSMIT_ATTEMPTS

  datatype Copy = Copy(num: nat, wire: bytes)

  /**
   `written` are the messages given to the writer, `pending` the fragments of the last one still to
   be sent, `frags` all fragments sent, each with the session key it was sealed under and the number
   of times it was sent again; `outstanding` are the numbers of the queued packets. Each end has its
   own session key, and `ended` says that the writer has given the channel up.
   */
  datatype System = System(
    written: seq<Message>, pending: seq<Fragment>, frags: seq<Fragment>, keys: seq<bytes>, resends: seq<nat>,
    send: SendState, outstanding: seq<nat>, writerKey: bytes, ended: bool,
    recv: RecvState, readerKey: bytes, data: set<Copy>, acks: set<Copy>)

  const START := System([], [], [], [], [], IDLE_SENDER, [], [], false, FRESH, [], {}, {})

  /** `RefuseData` is a datagram that does not decrypt; it has no effect. */
  datatype Action =
    | Write(msg: Message)
    | Emit(nonce: Nonce)
    | Retransmit(k: nat)
    | GiveUp(k: nat)
    | SetWriterKey(key: bytes)
    | SetReaderKey(key: bytes)
    | LoseData(c: Copy)
    | LoseAck(c: Copy)
    | DeliverData(c: Copy)
    | RefuseData(c: Copy)
    | DeliverAck(c: Copy)

  predicate Queued(s: System, k: nat) {
    k < |s.send.queue| && k < |s.outstanding| && s.outstanding[k] < |s.resends|
  }

  /**
   What the code can do at all. That both ids are below the limit holds in every reachable state, and is stated
   only to make the steps well defined.
   */
  ghost predicate Possible(p: Suite, s: System, a: Action) {
    match a
    case Write(msg) => !s.ended && s.pending == [] && msg.maxLen > 0
    case Emit(_) => !s.ended && s.pending != [] && s.send.nextID < LIMIT
    case Retransmit(k) => !s.ended && Queued(s, k) && s.resends[s.outstanding[k]] < MAX_RESENDS
    case GiveUp(k) => !s.ended && Queued(s, k) && s.resends[s.outstanding[k]] >= MAX_RESENDS
    case SetWriterKey(_) => true
    case SetReaderKey(_) => true
    case LoseData(c) => c in s.data
    case LoseAck(c) => c in s.acks
    case DeliverData(c) => c in s.data && s.recv.expectedID < LIMIT
    case RefuseData(c) => c in s.data && OpenData(p, s.readerKey, c.wire).None?
    case DeliverAck(c) => c in s.acks && !s.ended
  }

  /** Assumption: a copy served was sealed under the key that the peer has when it is served. */
  predicate KeyFits(s: System, a: Action) {
    a.DeliverData? ==> a.c.num < |s.keys| && s.keys[a.c.num] == s.readerKey
  }

  /** Assumption: a copy served is neither older than half the ids nor a whole turn of ids ahead. */
  predicate InWindow(s: System, a: Action) {
    a.DeliverData? ==> -HALF <= a.c.num - s.recv.advances < LIMIT
  }

  /** Assumption: the numbers queued stay within half the ids, and no ack is served that is older than all of them. */
  predicate Bounded(s: System, a: Action) {
    && (a.Emit? ==> Within(|s.frags| + 1, s.outstanding, HALF))
    && (a.DeliverAck? ==> a.c.num >= |s.frags| - LIMIT)
  }

  /** What safety rests on. */
  ghost predicate Safe(p: Suite, s: System, a: Action) {
    Possible(p, s, a) && KeyFits(s, a) && InWindow(s, a)
  }

  /** What progress, and that nothing is lost, rest on. */
  ghost predicate Enabled(p: Suite, s: System, a: Action) {
    Safe(p, s, a) && Bounded(s, a)
  }

  function Copies(num: nat, pacs: seq<Packet>): set<Copy> {
    set i | 0 <= i < |pacs| :: Copy(num, Marshal(pacs[i]))
  }

  ghost function Do(p: Suite, s: System, a: Action): System
    requires Possible(p, s, a)
  {
    match a
    case Write(msg) =>
      s.(written := s.written + [msg], pending := SplitData(msg.data, msg.maxLen))
    case Emit(nonce) =>
      var pac := Seal(p, s.writerKey, s.send.nextID, s.pending[0], nonce);
      s.(pending := s.pending[1..], frags := s.frags + [s.pending[0]],
         keys := s.keys + [s.writerKey], resends := s.resends + [0],
         send := WriteFragment(p, s.writerKey, s.send, s.pending[0], nonce),
         outstanding := s.outstanding + [|s.frags|], data := s.data + {Copy(|s.frags|, Marshal(pac))})
    case Retransmit(k) =>
      var num := s.outstanding[k];
      s.(resends := s.resends[num := s.resends[num] + 1], data := s.data + {Copy(num, Marshal(s.send.queue[k]))})
    case GiveUp(k) => s.(ended := true)
    case SetWriterKey(key) => s.(writerKey := key)
    case SetReaderKey(key) => s.(readerKey := key)
    case LoseData(c) => s.(data := s.data - {c})
    case LoseAck(c) => s.(acks := s.acks - {c})
    case DeliverData(c) =>
      var (recv, acks) := ServeOpened(s.recv, OpenData(p, s.readerKey, c.wire));
      s.(recv := recv, acks := s.acks + Copies(c.num, acks))
    case RefuseData(c) => s
    case DeliverAck(c) =>
      match OpenAck(c.wire) {
        case None => s
        case Some(id) =>
          var (send, outstanding) := AckStep(s.send, s.outstanding, id);
          s.(send := send, outstanding := outstanding)
      }
  }

  predicate SetsKey(a: Action) { a.SetWriterKey? || a.SetReaderKey? }

  /** The keys of both ends stay as they are. */
  ghost predicate LeavesKeys(run: seq<Action>) {
    forall i :: 0 <= i < |run| ==> !SetsKey(run[i])
  }

  /** What a list of actions leads to; one that is not possible does nothing. */
  ghost function After(p: Suite, s: System, run: seq<Action>): System
    decreases |run|
  {
    if run == [] then s
    else After(p, if Possible(p, s, run[0]) then Do(p, s, run[0]) else s, run[1..])
  }

  /** Every action is possible where it is taken, and meets the assumptions of safety. */
  ghost predicate SafeRun(p: Suite, s: System, run: seq<Action>)
    decreases |run|
  {
    run != [] ==> Safe(p, s, run[0]) && SafeRun(p, Do(p, s, run[0]), run[1..])
  }

  /** Every action meets all assumptions. */
  ghost predicate Runs(p: Suite, s: System, run: seq<Action>)
    decreases |run|
  {
    run != [] ==> Enabled(p, s, run[0]) && Runs(p, Do(p, s, run[0]), run[1..])
  }

  lemma {:induction false} RunsAreSafe(p: Suite, s: System, run: seq<Action>)
    requires Runs(p, s, run)
    ensures SafeRun(p, s, run)
    decreases |run|
  {
    if run == [] {
    } else {
      RunsAreSafe(p, Do(p, s, run[0]), run[1..]);
    }
  }

  lemma {:induction false} RunsAppend(p: Suite, s: System, a: seq<Action>, b: seq<Action>)
    requires Runs(p, s, a) && Runs(p, After(p, s, a), b)
    ensures Runs(p, s, a + b) && After(p, s, a + b) == After(p, After(p, s, a), b)
    decreases |a|
  {
    if a == [] {
      assert a + b == b;
    } else {
      RunsAppend(p, Do(p, s, a[0]), a[1..], b);
      assert (a + b)[1..] == a[1..] + b;
    }
  }

  lemma RunOne(p: Suite, s: System, a: Action)
    requires Enabled(p, s, a)
    ensures Runs(p, s, [a]) && After(p, s, [a]) == Do(p, s, a)
  {
    assert [a][1..] == [];
  }

  // ---------------------------------------------------------------- what every safe step keeps

  ghost predicate Carries(p: Suite, keys: seq<bytes>, frags: seq<Fragment>, num: nat, wire: bytes) {
    num < |frags| && num < |keys| && OpenData(p, keys[num], wire) == Some(PacketOf(frags, num))
  }

  function AckCopy(n: nat): Copy { Copy(n, Marshal(AckFor(n % LIMIT))) }

  ghost predicate WriterOk(written: seq<Message>, pending: seq<Fragment>, frags: seq<Fragment>) {
    && Splittable(written) && frags + pending == Stream(written)
    && forall i :: 0 <= i < |pending| ==> IsData(pending[i].status)
  }

  ghost predicate QueueCarries(p: Suite, keys: seq<bytes>, frags: seq<Fragment>, queue: seq<Packet>,
                               outstanding: seq<nat>) {
    && |queue| == |outstanding|
    && forall i :: 0 <= i < |queue| ==> Carries(p, keys, frags, outstanding[i], Marshal(queue[i]))
  }

  ghost predicate NetworkOk(p: Suite, keys: seq<bytes>, frags: seq<Fragment>, data: set<Copy>, acks: set<Copy>) {
    && (forall c :: c in data ==> Carries(p, keys, frags, c.num, c.wire))
    && (forall c :: c in acks ==> c.num < |frags| && c == AckCopy(c.num))
  }

  ghost predicate Consistent(p: Suite, s: System) {
    && |s.keys| == |s.resends| == |s.frags| && WriterOk(s.written, s.pending, s.frags)
    && Numbered(|s.frags|, s.send, s.outstanding) && QueueCarries(p, s.keys, s.frags, s.send.queue, s.outstanding)
    && Tracks(s.frags, s.recv) && NetworkOk(p, s.keys, s.frags, s.data, s.acks)
  }

  lemma {:induction false} SplitIsData(data: bytes, maxLen: nat)
    requires maxLen > 0
    ensures forall i :: 0 <= i < |SplitData(data, maxLen)| ==> IsData(SplitData(data, maxLen)[i].status)
  {
    forall i | 0 <= i < |SplitData(data, maxLen)|
      ensures IsData(SplitData(data, maxLen)[i].status)
    {
      SplitShape(data, maxLen, i);
    }
  }

  lemma StreamGrows(written: seq<Message>, msg: Message)
    requires Splittable(written) && msg.maxLen > 0
    ensures Splittable(written + [msg])
    ensures Stream(written + [msg]) == Stream(written) + SplitData(msg.data, msg.maxLen)
  {
  }

  lemma WriteSafe(p: Suite, s: System, a: Action)
    requires Consistent(p, s) && Safe(p, s, a) && a.Write?
    ensures Consistent(p, Do(p, s, a))
  {
    StreamGrows(s.written, a.msg);
    SplitIsData(a.msg.data, a.msg.maxLen);
    assert s.frags + [] == s.frags;
  }

  /** More fragments leave what the copies of earlier ones carry. */
  lemma CarriesMore(p: Suite, keys: seq<bytes>, frags: seq<Fragment>, key: bytes, f: Fragment, num: nat, wire: bytes)
    requires Carries(p, keys, frags, num, wire)
    ensures Carries(p, keys + [key], frags + [f], num, wire)
  {
  }

  lemma EmitCarries(p: Suite, keys: seq<bytes>, frags: seq<Fragment>, key: bytes, id: uint32, f: Fragment, nonce: Nonce)
    requires |keys| == |frags| && id == |frags| % LIMIT && IsData(f.status)
    ensures Carries(p, keys + [key], frags + [f], |frags|, Marshal(Seal(p, key, id, f, nonce)))
  {
    OpenSealed(p, key, id, f, nonce);
  }

  lemma EmitQueue(p: Suite, keys: seq<bytes>, frags: seq<Fragment>, queue: seq<Packet>, outstanding: seq<nat>,
                  key: bytes, f: Fragment, pac: Packet)
    requires QueueCarries(p, keys, frags, queue, outstanding)
    requires Carries(p, keys + [key], frags + [f], |frags|, Marshal(pac))
    ensures QueueCarries(p, keys + [key], frags + [f], queue + [pac], outstanding + [|frags|])
  {
    forall i | 0 <= i < |outstanding|
      ensures Carries(p, keys + [key], frags + [f], outstanding[i], Marshal(queue[i]))
    {
      CarriesMore(p, keys, frags, key, f, outstanding[i], Marshal(queue[i]));
    }
  }

  lemma EmitNetwork(p: Suite, keys: seq<bytes>, frags: seq<Fragment>, data: set<Copy>, acks: set<Copy>,
                    key: bytes, f: Fragment, c: Copy)
    requires NetworkOk(p, keys, frags, data, acks) && Carries(p, keys + [key], frags + [f], c.num, c.wire)
    ensures NetworkOk(p, keys + [key], frags + [f], data + {c}, acks)
  {
    forall d | d in data
      ensures Carries(p, keys + [key], frags + [f], d.num, d.wire)
    {
      CarriesMore(p, keys, frags, key, f, d.num, d.wire);
    }
  }

  lemma EmitWriter(written: seq<Message>, pending: seq<Fragment>, frags: seq<Fragment>)
    requires WriterOk(written, pending, frags) && pending != []
    ensures WriterOk(written, pending[1..], frags + [pending[0]])
  {
  }

  lemma EmitSafe(p: Suite, s: System, a: Action)
    requires Consistent(p, s) && Safe(p, s, a) && a.Emit?
    ensures Consistent(p, Do(p, s, a))
  {
    var f, key, num := s.pending[0], s.writerKey, |s.frags|;
    var pac := Seal(p, key, s.send.nextID, f, a.nonce);
    EmitWriter(s.written, s.pending, s.frags);
    EmitCarries(p, s.keys, s.frags, key, s.send.nextID, f, a.nonce);
    PushKeepsShape(num, s.send, s.outstanding, pac);
    EmitQueue(p, s.keys, s.frags, s.send.queue, s.outstanding, key, f, pac);
    EmitNetwork(p, s.keys, s.frags, s.data, s.acks, key, f, Copy(num, Marshal(pac)));
    TracksMore(s.frags, f, s.recv);
  }

  lemma RetransmitSafe(p: Suite, s: System, a: Action)
    requires Consistent(p, s) && Safe(p, s, a) && a.Retransmit?
    ensures Consistent(p, Do(p, s, a))
  {
    assert Carries(p, s.keys, s.frags, s.outstanding[a.k], Marshal(s.send.queue[a.k]));
  }

  lemma OneAckCopy(n: nat)
    ensures Copies(n, [AckFor(n % LIMIT)]) == {AckCopy(n)}
    ensures OpenAck(AckCopy(n).wire) == Some(n % LIMIT)
  {
    var acks := [AckFor(n % LIMIT)];
    assert Copies(n, acks) == {Copy(n, Marshal(acks[0]))};
    UnmarshalMarshal(AckFor(n % LIMIT));
  }

  /** Serving a copy of `n` touches the receiving half and puts one ack of `n` on the wire. */
  lemma DeliverDataEffect(p: Suite, s: System, a: Action)
    requires Consistent(p, s) && Safe(p, s, a) && a.DeliverData?
    ensures a.c.num < |s.frags|
    ensures Do(p, s, a) ==
            s.(recv := Accept(s.recv, PacketOf(s.frags, a.c.num)), acks := s.acks + {AckCopy(a.c.num)})
  {
    assert Carries(p, s.keys, s.frags, a.c.num, a.c.wire);
    OneAckCopy(a.c.num);
  }

  lemma DeliverDataSafe(p: Suite, s: System, a: Action)
    requires Consistent(p, s) && Safe(p, s, a) && a.DeliverData?
    ensures Consistent(p, Do(p, s, a))
    ensures Accepted(Do(p, s, a).recv) ==
            Accepted(s.recv) + (if a.c.num - s.recv.advances < HALF then {a.c.num as int} else {})
  {
    DeliverDataEffect(p, s, a);
    AcceptWithinTurn(s.frags, s.recv, a.c.num);
  }

  lemma RemoveAtCarries(p: Suite, keys: seq<bytes>, frags: seq<Fragment>, queue: seq<Packet>, outstanding: seq<nat>,
                        k: nat)
    requires QueueCarries(p, keys, frags, queue, outstanding) && k < |queue|
    ensures QueueCarries(p, keys, frags, RemoveAt(queue, k), RemoveAt(outstanding, k))
  {
  }

  lemma AckCarries(p: Suite, keys: seq<bytes>, frags: seq<Fragment>, send: SendState, outstanding: seq<nat>, id: uint32)
    requires QueueCarries(p, keys, frags, send.queue, outstanding)
    ensures var (send', outstanding') := AckStep(send, outstanding, id);
            QueueCarries(p, keys, frags, send'.queue, outstanding')
  {
    var k := Find(send.queue, id);
    if k < |send.queue| {
      RemoveAtCarries(p, keys, frags, send.queue, outstanding, k);
    }
  }

  lemma DeliverAckEffect(p: Suite, s: System, a: Action)
    requires Consistent(p, s) && Safe(p, s, a) && a.DeliverAck?
    ensures a.c == AckCopy(a.c.num) && a.c.num < |s.frags|
    ensures var (send, outstanding) := AckStep(s.send, s.outstanding, a.c.num % LIMIT);
            Do(p, s, a) == s.(send := send, outstanding := outstanding)
  {
    OneAckCopy(a.c.num);
  }

  lemma DeliverAckSafe(p: Suite, s: System, a: Action)
    requires Consistent(p, s) && Safe(p, s, a) && a.DeliverAck?
    ensures Consistent(p, Do(p, s, a))
    ensures forall n :: n in Do(p, s, a).outstanding ==> n in s.outstanding
  {
    DeliverAckEffect(p, s, a);
    AckKeepsShape(|s.frags|, s.send, s.outstanding, a.c.num % LIMIT);
    AckCarries(p, s.keys, s.frags, s.send, s.outstanding, a.c.num % LIMIT);
  }

  /** Every other step leaves what was sent, queued, received and acknowledged as it is, but for acks that are lost. */
  ghost predicate Keeps(s: System, s': System) {
    && s'.frags == s.frags && s'.keys == s.keys && s'.outstanding == s.outstanding && s'.recv == s.recv
    && s'.acks <= s.acks && (s.ended ==> s'.ended)
  }

  predicate IsOther(a: Action) { !a.Emit? && !a.DeliverData? && !a.DeliverAck? }

  lemma OtherEffect(p: Suite, s: System, a: Action)
    requires Possible(p, s, a) && IsOther(a)
    ensures Keeps(s, Do(p, s, a))
  {
  }

  lemma SafeStepKeeps(p: Suite, s: System, a: Action)
    requires Consistent(p, s) && Safe(p, s, a)
    ensures Consistent(p, Do(p, s, a))
  {
    match a
    case Write(_) => WriteSafe(p, s, a);
    case Emit(_) => EmitSafe(p, s, a);
    case Retransmit(_) => RetransmitSafe(p, s, a);
    case DeliverData(_) => DeliverDataSafe(p, s, a);
    case DeliverAck(_) => DeliverAckSafe(p, s, a);
    case _ =>
  }

  /** A fresh receiver has accepted nothing. */
  lemma FreshTracks(frags: seq<Fragment>, r: RecvState)
    requires r == FRESH
    ensures Tracks(frags, r)
  {
    assert Feed(Idle, FirstPackets(frags, 0)) == Fed(Idle, []);
  }

  lemma StartConsistent(p: Suite)
    ensures Consistent(p, START)
  {
    FreshTracks(START.frags, START.recv);
  }

  lemma {:induction false} SafeRunKeeps(p: Suite, s: System, run: seq<Action>)
    requires Consistent(p, s) && SafeRun(p, s, run)
    ensures Consistent(p, After(p, s, run))
    decreases |run|
  {
    if run == [] {
    } else {
      SafeStepKeeps(p, s, run[0]);
      SafeRunKeeps(p, Do(p, s, run[0]), run[1..]);
    }
  }

  // ---------------------------------------------------------------- in order, each once

  /** The wrapped ids of the first `n` numbers. */
  function Ids(n: nat): (ids: seq<uint32>)
    ensures |ids| == n
  {
    seq(n, i requires 0 <= i < n => i % LIMIT)
  }

  lemma {:induction false} FirstPacketsCarried(frags: seq<Fragment>, n: nat, total: nat)
    requires n <= |frags| && n <= total
    ensures FirstPackets(frags, n) == Carry(Ids(total), frags[..n])
  {
    if n == 0 {
    } else {
      FirstPacketsCarried(frags, n - 1, total);
      assert frags[..n] == frags[..n - 1] + [frags[n - 1]];
      CarryAppend(Ids(total), frags[..n - 1], [frags[n - 1]]);
      assert Carry(Ids(total)[n - 1..], [frags[n - 1]]) == [PacketOf(frags, n - 1)];
    }
  }

  /** All messages written so far, as the reader should see them in the end. */
  function AllDeliveries(written: seq<Message>): (d: seq<Packet>)
    requires Splittable(written)
    ensures |d| == |written|
  {
    Delivery(Ids(|Stream(written)|), written)
  }

  /** What has been delivered is a prefix of what was written, and all of it once the expected number is past it all. */
  lemma DeliveredPrefix(p: Suite, s: System)
    requires Consistent(p, s)
    ensures s.recv.delivered <= AllDeliveries(s.written)
    ensures s.recv.advances == |Stream(s.written)| ==>
              s.recv.combining == Idle && s.recv.delivered == AllDeliveries(s.written)
    ensures s.recv.advances < |Stream(s.written)| ==> |s.recv.delivered| < |s.written|
  {
    var all, e := Stream(s.written), s.recv.advances;
    assert s.frags == all[..|s.frags|];
    assert s.frags[..e] == all[..e];
    FirstPacketsCarried(s.frags, e, |all|);
    PrefixOfStream(Ids(|all|), s.written, e);
    if e == |all| {
      assert all[..e] == all;
      StreamThenCombine(Ids(|all|), s.written);
    } else {
      PartOfStream(Ids(|all|), s.written, e);
    }
  }

  lemma DeliveredInOrder(p: Suite, s: System)
    requires Consistent(p, s)
    ensures |s.recv.delivered| <= |s.written|
    ensures forall i :: 0 <= i < |s.recv.delivered| ==>
              s.recv.delivered[i] == Packet(|Stream(s.written[..i])| % LIMIT, STATUS_DATA, s.written[i].data)
  {
    DeliveredPrefix(p, s);
    forall i | 0 <= i < |s.recv.delivered|
      ensures s.recv.delivered[i] == Packet(|Stream(s.written[..i])| % LIMIT, STATUS_DATA, s.written[i].data)
    {
      DeliveryAt(Ids(|Stream(s.written)|), s.written, i);
    }
  }

  /**
   Safety. In every run what the reader has been handed is a prefix of what the writer was given: each
   message once, in order, with equal bytes and its first fragment's id, across any number of id wraps, any
   acks whatever and any change of keys. It rests on the two assumptions about data copies alone.
   */
  lemma InOrderExactlyOnce(p: Suite, run: seq<Action>)
    requires SafeRun(p, START, run)
    ensures var s := After(p, START, run);
            && |s.recv.delivered| <= |s.written| && Splittable(s.written)
            && forall i :: 0 <= i < |s.recv.delivered| ==>
                 s.recv.delivered[i] ==
                 Packet(|Stream(s.written[..i])| % LIMIT, STATUS_DATA, s.written[i].data)
  {
    StartConsistent(p);
    SafeRunKeeps(p, START, run);
    DeliveredInOrder(p, After(p, START, run));
  }
}
