/**
 What one data packet does to the receiving half of a channel (tru.go, data branch of `serve`,
 and the queue drain of receive_queue.go), as functions on values, and what these keep.
 */
module Receiver {
  import opened Packets
  import opened Split

  /** `advances` counts the moves of the expected id; `delivered` is everything handed to the reader. */
  datatype RecvState = RecvState(
    expectedID: uint32, parked: map<uint32, Packet>, combining: Combining, delivered: seq<Packet>,
    drop: nat, advances: nat)

  const FRESH := RecvState(0, map[], Idle, [], 0, 0)

  /** The expected id advances, and the packet goes through the combiner to the reader. */
  function SendToReader(r: RecvState, pac: Packet): (r': RecvState)
    requires r.expectedID < LIMIT
  {
    var (c, o) := Combine(r.combining, pac);
    r.(expectedID := NextID(r.expectedID), combining := c,
       delivered := r.delivered + Emitted(o), advances := r.advances + 1)
  }

  /** Drains the run of parked packets that starts at the expected id. */
  function Process(r: RecvState): (r': RecvState)
    requires r.expectedID < LIMIT
    ensures r'.expectedID < LIMIT && r'.expectedID !in r'.parked
    decreases |r.parked|
  {
    var id := r.expectedID;
    if id !in r.parked then r
    else
      RemovalShrinks(r.parked, id);
      Process(SendToReader(r, r.parked[id]).(parked := r.parked - {id}))
  }

  /** One decrypted data packet: drop, park, or deliver and drain. */
  function Accept(r: RecvState, pac: Packet): (r': RecvState)
    requires r.expectedID < LIMIT
    ensures r'.expectedID < LIMIT
  {
    var dist := Distance(r.expectedID, pac.id);
    if dist < 0 then r.(drop := r.drop + 1)
    else if dist > 0 then
      if pac.id !in r.parked then r.(parked := r.parked[pac.id := pac]) else r.(drop := r.drop + 1)
    else Process(SendToReader(r, pac))
  }

  function AcceptAll(r: RecvState, pacs: seq<Packet>): (r': RecvState)
    requires r.expectedID < LIMIT
    ensures r'.expectedID < LIMIT
  {
    if pacs == [] then r else Accept(AcceptAll(r, pacs[..|pacs| - 1]), pacs[|pacs| - 1])
  }

  lemma AcceptAllOneMore(r: RecvState, pacs: seq<Packet>, pac: Packet)
    requires r.expectedID < LIMIT
    ensures AcceptAll(r, pacs + [pac]) == Accept(AcceptAll(r, pacs), pac)
  {
  }

  lemma RemovalShrinks(m: map<uint32, Packet>, id: uint32)
    requires id in m
    ensures |m - {id}| == |m| - 1
  {
  }

  // ---------------------------------------------------------------- facts about any packets whatever

  /** Every parked id is ahead of the expected one by less than half the ids. */
  ghost predicate Ahead(r: RecvState) {
    && r.expectedID < LIMIT
    && forall k :: k in r.parked ==> k < LIMIT && 0 < Distance(r.expectedID, k) < HALF
  }

  ghost predicate NotBehind(r: RecvState) {
    && r.expectedID < LIMIT
    && forall k :: k in r.parked ==> k < LIMIT && 0 <= Distance(r.expectedID, k) < HALF
  }

  lemma AdvanceNotBehind(r: RecvState, pac: Packet)
    requires NotBehind(r)
    ensures NotBehind(SendToReader(r, pac).(parked := r.parked - {r.expectedID}))
  {
    forall k | k in r.parked && k != r.expectedID
      ensures 0 <= Distance(NextID(r.expectedID), k) < HALF
    {
      DistanceZero(r.expectedID, k);
      DistanceStep(r.expectedID, k);
    }
  }

  lemma {:induction false} ProcessAhead(r: RecvState)
    requires NotBehind(r)
    ensures Ahead(Process(r))
    decreases |r.parked|
  {
    var id := r.expectedID;
    if id in r.parked {
      RemovalShrinks(r.parked, id);
      AdvanceNotBehind(r, r.parked[id]);
      ProcessAhead(SendToReader(r, r.parked[id]).(parked := r.parked - {id}));
    } else {
      forall k | k in r.parked
        ensures Distance(id, k) != 0
      {
        DistanceZero(id, k);
      }
    }
  }

  lemma AcceptAhead(r: RecvState, pac: Packet)
    requires Ahead(r) && pac.id < LIMIT
    ensures Ahead(Accept(r, pac))
  {
    DistanceRange(r.expectedID, pac.id);
    if Distance(r.expectedID, pac.id) == 0 {
      DistanceZero(r.expectedID, r.expectedID);
      assert r.expectedID !in r.parked;
      assert r.parked - {r.expectedID} == r.parked;
      AdvanceNotBehind(r, pac);
      ProcessAhead(SendToReader(r, pac));
    }
  }

  /** Whatever packets arrive, the expected id is never parked and no parked id is half the ids or more away. */
  lemma {:induction false} AlwaysAhead(pacs: seq<Packet>)
    requires forall i :: 0 <= i < |pacs| ==> pacs[i].id < LIMIT
    ensures Ahead(AcceptAll(FRESH, pacs))
    ensures AcceptAll(FRESH, pacs).expectedID !in AcceptAll(FRESH, pacs).parked
    ensures |AcceptAll(FRESH, pacs).parked| <= HALF - 1
  {
    if pacs == [] {
    } else {
      AlwaysAhead(pacs[..|pacs| - 1]);
      AcceptAhead(AcceptAll(FRESH, pacs[..|pacs| - 1]), pacs[|pacs| - 1]);
    }
    ParkedBound(AcceptAll(FRESH, pacs));
  }

  /** The id `i` places after `e`, wrapping. */
  function IdAt(e: uint32, i: nat): (id: uint32)
    requires e < LIMIT
    ensures id < LIMIT
    decreases i
  {
    if i == 0 then e else IdAt(NextID(e), i - 1)
  }

  lemma {:induction false} IdAtClosed(e: uint32, i: nat)
    requires e < LIMIT
    ensures IdAt(e, i) == (e + i) % LIMIT
    ensures e + i < 2 * LIMIT ==> IdAt(e, i) == if e + i < LIMIT then e + i else e + i - LIMIT
    decreases i
  {
    if i == 0 {
    } else {
      IdAtClosed(NextID(e), i - 1);
      if NextID(e) == 0 {
        assert e + i == LIMIT + (i - 1);
      }
    }
  }

  lemma {:induction false} IdAtOneMore(e: uint32, i: nat)
    requires e < LIMIT
    ensures IdAt(e, i + 1) == NextID(IdAt(e, i))
    decreases i
  {
    if i == 0 {
    } else {
      IdAtOneMore(NextID(e), i - 1);
    }
  }

  /** The ids one to `n` ahead of `e`. */
  ghost function IdsAhead(e: uint32, n: nat): (s: set<uint32>)
    requires e < LIMIT
    ensures |s| <= n
    ensures forall d :: 1 <= d <= n ==> IdAt(e, d) in s
  {
    if n == 0 then {} else IdsAhead(e, n - 1) + {IdAt(e, n)}
  }

  lemma IdAtDistance(e: uint32, k: uint32)
    requires e < LIMIT && k < LIMIT && 0 <= Distance(e, k)
    ensures IdAt(e, Distance(e, k)) == k
  {
    DistanceAhead(e, k);
    IdAtClosed(e, Distance(e, k));
  }

  lemma ParkedBound(r: RecvState)
    requires Ahead(r)
    ensures |r.parked| <= HALF - 1
  {
    var ids := IdsAhead(r.expectedID, HALF - 1);
    forall k | k in r.parked
      ensures k in ids
    {
      IdAtDistance(r.expectedID, k);
      assert IdAt(r.expectedID, Distance(r.expectedID, k)) in ids;
    }
    SubsetSize(r.parked.Keys, ids);
  }

  lemma {:induction false} SubsetSize(a: set<uint32>, b: set<uint32>)
    requires a <= b
    ensures |a| <= |b|
  {
    if a == {} {
    } else {
      var x :| x in a;
      SubsetSize(a - {x}, b - {x});
    }
  }

  /** Packets accounted for. */
  function Accounted(r: RecvState): nat { r.advances + |r.parked| + r.drop }

  lemma {:induction false} ProcessAccounted(r: RecvState)
    requires r.expectedID < LIMIT
    ensures Accounted(Process(r)) == Accounted(r)
    decreases |r.parked|
  {
    var id := r.expectedID;
    if id !in r.parked {
    } else {
      RemovalShrinks(r.parked, id);
      ProcessAccounted(SendToReader(r, r.parked[id]).(parked := r.parked - {id}));
    }
  }

  lemma AcceptAccounted(r: RecvState, pac: Packet)
    requires r.expectedID < LIMIT
    ensures Accounted(Accept(r, pac)) == Accounted(r) + 1
  {
    if Distance(r.expectedID, pac.id) == 0 {
      ProcessAccounted(SendToReader(r, pac));
    }
  }

  /** Conservation: each packet served advanced the expected id, is parked, or was counted as dropped. */
  lemma {:induction false} Conservation(pacs: seq<Packet>)
    ensures var r := AcceptAll(FRESH, pacs);
            |pacs| == r.advances + |r.parked| + r.drop
  {
    if pacs == [] {
    } else {
      Conservation(pacs[..|pacs| - 1]);
      AcceptAccounted(AcceptAll(FRESH, pacs[..|pacs| - 1]), pacs[|pacs| - 1]);
    }
  }

  // ---------------------------------------------------------------- the drain

  ghost predicate RunParked(m: map<uint32, Packet>, e: uint32, n: nat)
    requires e < LIMIT
  {
    forall i :: 0 <= i < n ==> IdAt(e, i) in m
  }

  ghost function RunIds(e: uint32, n: nat): set<uint32>
    requires e < LIMIT
  {
    set i | 0 <= i < n :: IdAt(e, i)
  }

  ghost function RunPackets(m: map<uint32, Packet>, e: uint32, n: nat): (s: seq<Packet>)
    requires e < LIMIT && RunParked(m, e, n)
    ensures |s| == n
    ensures forall i :: 0 <= i < n ==> s[i] == m[IdAt(e, i)]
  {
    seq(n, i requires 0 <= i < n => m[IdAt(e, i)])
  }

  /** `n` is the length of the maximal run of parked ids that starts at `e`; a run cannot pass the whole id space. */
  ghost predicate MaximalRun(m: map<uint32, Packet>, e: uint32, n: nat)
    requires e < LIMIT
  {
    n <= LIMIT && RunParked(m, e, n) && (n < LIMIT ==> IdAt(e, n) !in m)
  }

  /** `r'` is `r` with its maximal run of `n` packets taken out and sent to the reader in order, once each. */
  ghost predicate TookRun(r: RecvState, r': RecvState, n: nat)
    requires r.expectedID < LIMIT
  {
    && MaximalRun(r.parked, r.expectedID, n)
    && r'.parked == r.parked - RunIds(r.expectedID, n)
    && r'.expectedID == IdAt(r.expectedID, n)
    && Fed(r'.combining, r'.delivered) ==
       (var f := Feed(r.combining, RunPackets(r.parked, r.expectedID, n)); Fed(f.state, r.delivered + f.out))
    && r'.advances == r.advances + n && r'.drop == r.drop
  }

  /** The drain does just that on any map whatever, with any wrap of the ids. */
  lemma {:induction false} ProcessTakesRun(r: RecvState)
    requires r.expectedID < LIMIT
    ensures Process(r).advances >= r.advances
    ensures TookRun(r, Process(r), Process(r).advances - r.advances)
    decreases |r.parked|
  {
    var e, m := r.expectedID, r.parked;
    if e !in m {
      NoneTaken(r);
    } else {
      RemovalShrinks(m, e);
      var next := SendToReader(r, m[e]).(parked := m - {e});
      var end := Process(next);
      assert Process(r) == end;
      ProcessTakesRun(next);
      OneMoreTaken(r, end, end.advances - next.advances);
    }
  }

  lemma NoneTaken(r: RecvState)
    requires r.expectedID < LIMIT && r.expectedID !in r.parked
    ensures TookRun(r, r, 0)
  {
  }

  lemma OneMoreTaken(r: RecvState, r': RecvState, n: nat)
    requires r.expectedID < LIMIT && r.expectedID in r.parked
    requires TookRun(SendToReader(r, r.parked[r.expectedID]).(parked := r.parked - {r.expectedID}), r', n)
    ensures TookRun(r, r', n + 1)
  {
    var e, m := r.expectedID, r.parked;
    RunExtends(m, e, n);
    FeedCons(r.combining, m[e], RunPackets(m - {e}, NextID(e), n));
  }

  /** A run that leaves one id out never comes round to it. */
  lemma RunNotWhole(m: map<uint32, Packet>, e: uint32, n: nat)
    requires e < LIMIT && e !in m && RunParked(m, NextID(e), n) && n <= LIMIT
    ensures n < LIMIT && (n < LIMIT - 1 ==> IdAt(NextID(e), n) != e)
  {
    IdAtClosed(NextID(e), LIMIT - 1);
    IdAtClosed(NextID(e), n);
  }

  lemma RunExtends(m: map<uint32, Packet>, e: uint32, n: nat)
    requires e < LIMIT && e in m && MaximalRun(m - {e}, NextID(e), n)
    ensures MaximalRun(m, e, n + 1)
    ensures (m - {e}) - RunIds(NextID(e), n) == m - RunIds(e, n + 1)
    ensures RunPackets(m, e, n + 1) == [m[e]] + RunPackets(m - {e}, NextID(e), n)
  {
    var m' := m - {e};
    RunNotWhole(m', e, n);
    forall i | 0 <= i < n + 1
      ensures IdAt(e, i) in m
    {
      assert i > 0 ==> IdAt(NextID(e), i - 1) in m';
    }
    RunIdsExtend(e, n);
  }

  lemma RunIdsExtend(e: uint32, n: nat)
    requires e < LIMIT
    ensures RunIds(e, n + 1) == {e} + RunIds(NextID(e), n)
  {
    assert IdAt(e, 0) == e;
    forall x | x in RunIds(e, n + 1)
      ensures x in {e} + RunIds(NextID(e), n)
    {
      var i :| 0 <= i < n + 1 && x == IdAt(e, i);
      assert i > 0 ==> x == IdAt(NextID(e), i - 1);
    }
    forall x | x in RunIds(NextID(e), n)
      ensures x in RunIds(e, n + 1)
    {
      var i :| 0 <= i < n && x == IdAt(NextID(e), i);
      assert x == IdAt(e, i + 1);
    }
  }
}
