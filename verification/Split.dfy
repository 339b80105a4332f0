/** Splitting messages into fragments and joining them again (split.go). */
module Split {
  import opened Packets

  datatype Fragment = Fragment(status: byte, data: bytes)

  /** A message and the maximum fragment length in force when it was written. */
  datatype Message = Message(data: bytes, maxLen: nat)

  function SplitData(data: bytes, maxLen: nat): (f: seq<Fragment>)
    requires maxLen > 0
    ensures |f| > 0
  {
    if |data| <= maxLen then [Fragment(STATUS_DATA, data)]
    else [Fragment(STATUS_DATA_NEXT, data[..maxLen])] + SplitData(data[maxLen..], maxLen)
  }

  /** Every fragment is within the maximum, and exactly the last one is unflagged. */
  lemma {:induction false} SplitShape(data: bytes, maxLen: nat, i: nat)
    requires maxLen > 0 && i < |SplitData(data, maxLen)|
    ensures var f := SplitData(data, maxLen);
            && |f[i].data| <= maxLen
            && f[i].status == (if i == |f| - 1 then STATUS_DATA else STATUS_DATA_NEXT)
            && (i < |f| - 1 ==> |f[i].data| == maxLen)
  {
    if |data| <= maxLen || i == 0 {
    } else {
      SplitShape(data[maxLen..], maxLen, i - 1);
    }
  }

  /** As few fragments as the maximum allows, and one for an empty message. */
  lemma {:induction false} SplitCount(data: bytes, maxLen: nat)
    requires maxLen > 0
    ensures var n := |SplitData(data, maxLen)|;
            |data| <= n * maxLen && (if |data| <= maxLen then n == 1 else (n - 1) * maxLen < |data|)
    decreases |data|
  {
    if |data| <= maxLen {
    } else {
      var n := |SplitData(data[maxLen..], maxLen)|;
      SplitCount(data[maxLen..], maxLen);
      assert (n + 1) * maxLen == n * maxLen + maxLen && n * maxLen == (n - 1) * maxLen + maxLen;
    }
  }

  /** From `i` on, the fragments are those that `data` is split into. */
  ghost predicate SplitsInto(data: bytes, maxLen: nat, frags: seq<Fragment>, i: nat)
    requires maxLen > 0
    decreases |data|
  {
    && i < |frags|
    && if |data| <= maxLen then frags[i] == Fragment(STATUS_DATA, data) && i == |frags| - 1
       else frags[i] == Fragment(STATUS_DATA_NEXT, data[..maxLen]) && SplitsInto(data[maxLen..], maxLen, frags, i + 1)
  }

  lemma {:induction false} SplitsFrom(data: bytes, maxLen: nat, frags: seq<Fragment>, i: nat)
    requires maxLen > 0 && i <= |frags| && frags[i..] == SplitData(data, maxLen)
    ensures SplitsInto(data, maxLen, frags, i)
    decreases |data|
  {
    assert frags[i] == frags[i..][0];
    if |data| <= maxLen {
    } else {
      assert frags[i + 1..] == frags[i..][1..];
      SplitsFrom(data[maxLen..], maxLen, frags, i + 1);
    }
  }

  lemma SplitsWhole(data: bytes, maxLen: nat)
    requires maxLen > 0
    ensures SplitsInto(data, maxLen, SplitData(data, maxLen), 0)
  {
    var frags := SplitData(data, maxLen);
    assert frags[0..] == frags;
    SplitsFrom(data, maxLen, frags, 0);
  }

  // ---------------------------------------------------------------- joining

  datatype Combining = Idle | Gathering(first: Packet, data: bytes)

  function Combine(c: Combining, pac: Packet): (Combining, Option<Packet>) {
    if pac.status == STATUS_DATA_NEXT then
      if c.Idle? then (Gathering(pac, pac.data), None)
      else (Gathering(c.first, c.data + pac.data), None)
    else if pac.status == STATUS_DATA then
      if c.Gathering? then (Idle, Some(c.first.(data := c.data + pac.data, status := STATUS_DATA)))
      else (Idle, Some(pac))
    else (c, None)
  }

  /** Other packets go by without a trace. */
  lemma CombineOther(c: Combining, pac: Packet)
    ensures pac.status != 4 && pac.status != 0x84 ==> Combine(c, pac) == (c, None)
  {
  }

  class CombinePacket {
    var combine: bool
    var data: bytes
    var first: Option<Packet>

    ghost predicate Valid()
      reads this
    {
      (combine <==> first.Some?) && (!combine ==> data == [])
    }

    ghost function State(): Combining
      reads this
      requires Valid()
    {
      if combine then Gathering(first.value, data) else Idle
    }

    constructor ()
      ensures Valid() && State() == Idle
    {
      combine, data, first := false, [], None;
    }

    method Packet(pac: Packet) returns (retPac: Option<Packet>)
      requires Valid()
      modifies this
      ensures Valid() && (State(), retPac) == Combine(old(State()), pac)
    {
      retPac := None;
      if !combine && pac.status == STATUS_DATA_NEXT {
        first, data, combine := Some(pac), pac.data, true;
      } else if combine && pac.status == STATUS_DATA_NEXT {
        data := data + pac.data;
      } else if combine && pac.status == STATUS_DATA {
        data := data + pac.data;
        retPac := Some(first.value.(data := data, status := STATUS_DATA));
        Clear();
      } else if !combine && pac.status == STATUS_DATA {
        retPac := Some(pac);
      }
    }

    method Clear()
      modifies this
      ensures Valid() && State() == Idle
    {
      data, first, combine := [], None, false;
    }
  }

  datatype Fed = Fed(state: Combining, out: seq<Packet>)

  function Emitted(o: Option<Packet>): seq<Packet> {
    if o.Some? then [o.value] else []
  }

  /** Feeding packets one after another to a combiner. */
  function Feed(c: Combining, pacs: seq<Packet>): Fed {
    if pacs == [] then Fed(c, [])
    else
      var before := Feed(c, pacs[..|pacs| - 1]);
      var (state, o) := Combine(before.state, pacs[|pacs| - 1]);
      Fed(state, before.out + Emitted(o))
  }

  lemma FeedOneMore(c: Combining, pacs: seq<Packet>, pac: Packet)
    ensures var before := Feed(c, pacs);
            var (state, o) := Combine(before.state, pac);
            Feed(c, pacs + [pac]) == Fed(state, before.out + Emitted(o))
  {
    assert (pacs + [pac])[..|pacs|] == pacs;
  }

  lemma {:induction false} FeedAppend(c: Combining, a: seq<Packet>, b: seq<Packet>)
    ensures var mid := Feed(c, a);
            var end := Feed(mid.state, b);
            Feed(c, a + b) == Fed(end.state, mid.out + end.out)
  {
    if b == [] {
      assert a + b == a;
    } else {
      var b', last := b[..|b| - 1], b[|b| - 1];
      assert b == b' + [last] && a + b == (a + b') + [last];
      FeedAppend(c, a, b');
      FeedOneMore(c, a + b', last);
      FeedOneMore(Feed(c, a).state, b', last);
    }
  }

  lemma FeedCons(c: Combining, pac: Packet, rest: seq<Packet>)
    ensures var (state, o) := Combine(c, pac);
            Feed(c, [pac] + rest) == Fed(Feed(state, rest).state, Emitted(o) + Feed(state, rest).out)
  {
    assert [pac][..0] == [] && Feed(c, []) == Fed(c, []);
    FeedAppend(c, [pac], rest);
  }

  /** Fragments as the packets that carry them under the given ids. */
  function Carry(ids: seq<uint32>, frags: seq<Fragment>): (pacs: seq<Packet>)
    requires |ids| >= |frags|
    ensures |pacs| == |frags|
  {
    seq(|frags|, i requires 0 <= i < |frags| => Packet(ids[i], frags[i].status, frags[i].data))
  }

  lemma CarryAppend(ids: seq<uint32>, a: seq<Fragment>, b: seq<Fragment>)
    requires |ids| >= |a| + |b|
    ensures Carry(ids, a + b) == Carry(ids, a) + Carry(ids[|a|..], b)
  {
  }

  lemma CarryCons(ids: seq<uint32>, f: Fragment, rest: seq<Fragment>)
    requires |ids| >= 1 + |rest|
    ensures Carry(ids, [f] + rest) == [Packet(ids[0], f.status, f.data)] + Carry(ids[1..], rest)
  {
  }

  lemma FeedFragment(c: Combining, ids: seq<uint32>, f: Fragment, rest: seq<Fragment>)
    requires |ids| >= 1 + |rest|
    ensures var (state, o) := Combine(c, Packet(ids[0], f.status, f.data));
            var end := Feed(state, Carry(ids[1..], rest));
            Feed(c, Carry(ids, [f] + rest)) == Fed(end.state, Emitted(o) + end.out)
  {
    CarryCons(ids, f, rest);
    FeedCons(c, Packet(ids[0], f.status, f.data), Carry(ids[1..], rest));
  }

  lemma FeedLast(c: Combining, ids: seq<uint32>, f: Fragment)
    requires |ids| >= 1
    ensures var (state, o) := Combine(c, Packet(ids[0], f.status, f.data));
            Feed(c, Carry(ids, [f])) == Fed(state, Emitted(o))
  {
  }

  lemma {:induction false} GatherRest(ids: seq<uint32>, first: Packet, acc: bytes, data: bytes, maxLen: nat)
    requires maxLen > 0 && |ids| >= |SplitData(data, maxLen)|
    ensures Feed(Gathering(first, acc), Carry(ids, SplitData(data, maxLen))) ==
            Fed(Idle, [first.(data := acc + data, status := STATUS_DATA)])
    decreases |data|
  {
    if |data| <= maxLen {
      FeedLast(Gathering(first, acc), ids, Fragment(STATUS_DATA, data));
    } else {
      assert (acc + data[..maxLen]) + data[maxLen..] == acc + data;
      var f := Fragment(STATUS_DATA_NEXT, data[..maxLen]);
      FeedFragment(Gathering(first, acc), ids, f, SplitData(data[maxLen..], maxLen));
      GatherRest(ids[1..], first, acc + data[..maxLen], data[maxLen..], maxLen);
    }
  }

  /** One message, split and joined, comes back whole under its first fragment's id and leaves the combiner idle. */
  lemma SplitThenCombine(ids: seq<uint32>, data: bytes, maxLen: nat)
    requires maxLen > 0 && |ids| >= |SplitData(data, maxLen)|
    ensures Feed(Idle, Carry(ids, SplitData(data, maxLen))) == Fed(Idle, [Packet(ids[0], STATUS_DATA, data)])
  {
    if |data| <= maxLen {
      FeedLast(Idle, ids, Fragment(STATUS_DATA, data));
    } else {
      assert data[..maxLen] + data[maxLen..] == data;
      var f := Fragment(STATUS_DATA_NEXT, data[..maxLen]);
      FeedFragment(Idle, ids, f, SplitData(data[maxLen..], maxLen));
      GatherRest(ids[1..], Packet(ids[0], f.status, f.data), data[..maxLen], data[maxLen..], maxLen);
    }
  }

  // ---------------------------------------------------------------- streams of messages

  ghost predicate Splittable(msgs: seq<Message>) {
    forall i :: 0 <= i < |msgs| ==> msgs[i].maxLen > 0
  }

  /** The fragments of all messages, in order. */
  function Stream(msgs: seq<Message>): seq<Fragment>
    requires Splittable(msgs)
  {
    if msgs == [] then []
    else
      var last := msgs[|msgs| - 1];
      Stream(msgs[..|msgs| - 1]) + SplitData(last.data, last.maxLen)
  }

  /** What the reader should see: each message once, in order, with the id of its first fragment. */
  function Delivery(ids: seq<uint32>, msgs: seq<Message>): (d: seq<Packet>)
    requires Splittable(msgs) && |ids| >= |Stream(msgs)|
    ensures |d| == |msgs|
  {
    if msgs == [] then []
    else
      var before := msgs[..|msgs| - 1];
      Delivery(ids, before) + [Packet(ids[|Stream(before)|], STATUS_DATA, msgs[|msgs| - 1].data)]
  }

  lemma {:induction false} StreamPrefix(msgs: seq<Message>, i: nat)
    requires Splittable(msgs) && i <= |msgs|
    ensures Stream(msgs[..i]) <= Stream(msgs) && (i < |msgs| ==> Stream(msgs[..i]) < Stream(msgs))
  {
    if i == |msgs| {
      assert msgs[..i] == msgs;
    } else {
      StreamPrefix(msgs[..|msgs| - 1], i);
      assert msgs[..|msgs| - 1][..i] == msgs[..i];
    }
  }

  /** The i-th delivery has the bytes of the i-th message and the id of its first fragment. */
  lemma {:induction false} DeliveryAt(ids: seq<uint32>, msgs: seq<Message>, i: nat)
    requires Splittable(msgs) && i < |msgs| && |ids| >= |Stream(msgs)|
    ensures |Stream(msgs[..i])| < |Stream(msgs)|
    ensures Delivery(ids, msgs)[i] == Packet(ids[|Stream(msgs[..i])|], STATUS_DATA, msgs[i].data)
  {
    StreamPrefix(msgs, i);
    if i == |msgs| - 1 {
    } else {
      DeliveryAt(ids, msgs[..|msgs| - 1], i);
      assert msgs[..|msgs| - 1][..i] == msgs[..i];
    }
  }

  lemma FeedCarried(c: Combining, ids: seq<uint32>, a: seq<Fragment>, b: seq<Fragment>)
    requires |ids| >= |a| + |b|
    ensures var mid := Feed(c, Carry(ids, a));
            var end := Feed(mid.state, Carry(ids[|a|..], b));
            Feed(c, Carry(ids, a + b)) == Fed(end.state, mid.out + end.out)
  {
    CarryAppend(ids, a, b);
    FeedAppend(c, Carry(ids, a), Carry(ids[|a|..], b));
  }

  /** Any list of messages survives splitting and joining, and the combiner is idle after each of them. */
  lemma {:induction false} StreamThenCombine(ids: seq<uint32>, msgs: seq<Message>)
    requires Splittable(msgs) && |ids| >= |Stream(msgs)|
    ensures Feed(Idle, Carry(ids, Stream(msgs))) == Fed(Idle, Delivery(ids, msgs))
  {
    if msgs == [] {
    } else {
      var before, last := msgs[..|msgs| - 1], msgs[|msgs| - 1];
      var n := |Stream(before)|;
      StreamThenCombine(ids, before);
      SplitThenCombine(ids[n..], last.data, last.maxLen);
      FeedCarried(Idle, ids, Stream(before), SplitData(last.data, last.maxLen));
    }
  }

  lemma StreamEnds(msgs: seq<Message>)
    requires Splittable(msgs) && Stream(msgs) != []
    ensures Stream(msgs)[|Stream(msgs)| - 1].status == STATUS_DATA
  {
    var last := msgs[|msgs| - 1];
    SplitShape(last.data, last.maxLen, |SplitData(last.data, last.maxLen)| - 1);
  }

  lemma FeedEmits(c: Combining, pacs: seq<Packet>)
    requires pacs != [] && pacs[|pacs| - 1].status == STATUS_DATA
    ensures |Feed(c, pacs).out| > 0
  {
  }

  /** Joining fewer fragments than all leaves out at least the last message. */
  lemma PartOfStream(ids: seq<uint32>, msgs: seq<Message>, n: nat)
    requires Splittable(msgs) && n < |Stream(msgs)| <= |ids|
    ensures |Feed(Idle, Carry(ids, Stream(msgs)[..n])).out| < |msgs|
  {
    var all := Stream(msgs);
    assert all == all[..n] + all[n..];
    StreamThenCombine(ids, msgs);
    FeedCarried(Idle, ids, all[..n], all[n..]);
    StreamEnds(msgs);
    FeedEmits(Feed(Idle, Carry(ids, all[..n])).state, Carry(ids[n..], all[n..]));
  }

  /** Joining only a prefix of the fragments gives a prefix of the messages. */
  lemma PrefixOfStream(ids: seq<uint32>, msgs: seq<Message>, n: nat)
    requires Splittable(msgs) && n <= |Stream(msgs)| <= |ids|
    ensures Feed(Idle, Carry(ids, Stream(msgs)[..n])).out <= Delivery(ids, msgs)
  {
    var all := Stream(msgs);
    assert all == all[..n] + all[n..];
    StreamThenCombine(ids, msgs);
    FeedCarried(Idle, ids, all[..n], all[n..]);
  }
}
