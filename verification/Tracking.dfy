/**
 The receiver works with ids modulo 2^20; here it is measured against fragments numbered without
 bound, and shown to be nothing but the set of fragments it has accepted.
 */
module Tracking {
  import opened Packets
  import opened Split
  import opened Receiver

  /** Fragment number `s` as its packet, in the clear. */
  function PacketOf(frags: seq<Fragment>, s: nat): Packet
    requires s < |frags|
  {
    Packet(s % LIMIT, frags[s].status, frags[s].data)
  }

  function FirstPackets(frags: seq<Fragment>, n: nat): (p: seq<Packet>)
    requires n <= |frags|
    ensures |p| == n
  {
    if n == 0 then [] else FirstPackets(frags, n - 1) + [PacketOf(frags, n - 1)]
  }

  ghost predicate ParkedAt(frags: seq<Fragment>, e: nat, k: uint32, pac: Packet) {
    k < LIMIT && e <= SeqOf(e, k) < |frags| && pac == PacketOf(frags, SeqOf(e, k))
  }

  /** As `Tracks`, but the next fragment expected may be parked: the state in the middle of a drain. */
  ghost predicate TracksLoosely(frags: seq<Fragment>, r: RecvState) {
    && r.advances <= |frags|
    && r.expectedID == r.advances % LIMIT
    && (forall k :: k in r.parked ==> ParkedAt(frags, r.advances, k, r.parked[k]))
    && Feed(Idle, FirstPackets(frags, r.advances)) == Fed(r.combining, r.delivered)
  }

  /** The state is what the first `advances` fragments, plus some later ones parked, lead to. */
  ghost predicate Tracks(frags: seq<Fragment>, r: RecvState) {
    TracksLoosely(frags, r) && r.expectedID !in r.parked
  }

  /** The numbers of the fragments accepted so far. */
  ghost function Accepted(r: RecvState): set<int> {
    Below(r.advances) + ParkedSeqs(r)
  }

  ghost function Below(n: nat): (b: set<int>)
    ensures forall s :: s in b <==> 0 <= s < n
  {
    if n == 0 then {} else Below(n - 1) + {n - 1}
  }

  ghost function ParkedSeqs(r: RecvState): set<int> {
    set k | k in r.parked :: SeqOf(r.advances, k)
  }

  lemma SeqOfSelf(e: nat, k: uint32)
    requires k < LIMIT
    ensures SeqOf(e, k) == e <==> k == e % LIMIT
  {
  }

  lemma SeqOfStep(e: nat, k: uint32)
    requires k < LIMIT && SeqOf(e, k) > e
    ensures SeqOf(e + 1, k) == SeqOf(e, k)
  {
    NextIDWraps(e);
    DistanceStep(e % LIMIT, k);
  }

  /** Sending the expected fragment on keeps track, whether it was just served or taken from the parked ones. */
  lemma AdvanceTracks(frags: seq<Fragment>, r: RecvState)
    requires TracksLoosely(frags, r) && r.advances < |frags|
    ensures var r' := SendToReader(r, PacketOf(frags, r.advances)).(parked := r.parked - {r.expectedID});
            TracksLoosely(frags, r') && Accepted(r') == Accepted(r) + {r.advances as int}
  {
    var e := r.advances;
    var r' := SendToReader(r, PacketOf(frags, e)).(parked := r.parked - {r.expectedID});
    NextIDWraps(e);
    AdvanceFeeds(frags, r);
    forall k | k in r.parked && k != r.expectedID
      ensures e < SeqOf(e, k) && SeqOf(e + 1, k) == SeqOf(e, k)
    {
      assert ParkedAt(frags, e, k, r.parked[k]);
      SeqOfSelf(e, k);
      SeqOfStep(e, k);
    }
    AdvanceAccepted(r, r');
  }

  lemma AdvanceFeeds(frags: seq<Fragment>, r: RecvState)
    requires TracksLoosely(frags, r) && r.advances < |frags|
    ensures var r' := SendToReader(r, PacketOf(frags, r.advances));
            Feed(Idle, FirstPackets(frags, r.advances + 1)) == Fed(r'.combining, r'.delivered)
  {
  }

  lemma AdvanceAccepted(r: RecvState, r': RecvState)
    requires r'.advances == r.advances + 1 && r'.parked == r.parked - {r.expectedID}
    requires r.expectedID == r.advances % LIMIT
    requires forall k :: k in r'.parked ==> SeqOf(r'.advances, k) == SeqOf(r.advances, k)
    ensures Accepted(r') == Accepted(r) + {r.advances as int}
  {
  }

  lemma {:induction false} ProcessTracks(frags: seq<Fragment>, r: RecvState)
    requires TracksLoosely(frags, r)
    ensures var r' := Process(r);
            && Tracks(frags, r') && Accepted(r') == Accepted(r)
            && r'.drop == r.drop && r'.advances >= r.advances
    decreases |r.parked|
  {
    var id, e := r.expectedID, r.advances;
    if id !in r.parked {
    } else {
      RemovalShrinks(r.parked, id);
      assert ParkedAt(frags, e, id, r.parked[id]);
      SeqOfSelf(e, id);
      AdvanceTracks(frags, r);
      assert SeqOf(e, id) in ParkedSeqs(r);
      assert Accepted(r) + {e as int} == Accepted(r);
      ProcessTracks(frags, SendToReader(r, r.parked[id]).(parked := r.parked - {id}));
    }
  }

  /**
   One served fragment adds its number to the accepted set, and does nothing else: the packet is
   counted as dropped exactly when its fragment had been accepted before.
   */
  lemma AcceptTracks(frags: seq<Fragment>, r: RecvState, s: nat)
    requires Tracks(frags, r) && s < |frags| && -HALF <= s - r.advances < HALF
    ensures var r' := Accept(r, PacketOf(frags, s));
            && Tracks(frags, r') && Accepted(r') == Accepted(r) + {s as int}
            && r'.drop == r.drop + (if s in Accepted(r) then 1 else 0) && r'.advances >= r.advances
  {
    var e, pac := r.advances, PacketOf(frags, s);
    SeqOfExact(e, s);
    if s == e {
      assert r.parked - {r.expectedID} == r.parked;
      NextFragmentNew(frags, r);
      AdvanceTracks(frags, r);
      ProcessTracks(frags, SendToReader(r, pac));
    } else if s > e {
      SeqOfSelf(e, pac.id);
      if pac.id in r.parked {
        assert SeqOf(e, pac.id) in ParkedSeqs(r);
        assert Accepted(r) + {s as int} == Accepted(r);
      } else {
        ParkAccepted(frags, r, s);
      }
    } else {
      assert Accepted(r) + {s as int} == Accepted(r);
    }
  }

  lemma ParkAccepted(frags: seq<Fragment>, r: RecvState, s: nat)
    requires Tracks(frags, r) && s < |frags| && 0 < s - r.advances < HALF && s % LIMIT !in r.parked
    ensures var r' := r.(parked := r.parked[s % LIMIT := PacketOf(frags, s)]);
            Accepted(r') == Accepted(r) + {s as int} && s !in Accepted(r)
  {
    var r' := r.(parked := r.parked[s % LIMIT := PacketOf(frags, s)]);
    SeqOfExact(r.advances, s);
    assert s % LIMIT in r'.parked;
    forall t | t in ParkedSeqs(r)
      ensures t in ParkedSeqs(r') && t != s
    {
      var k :| k in r.parked && t == SeqOf(r.advances, k);
      assert k in r'.parked && ParkedAt(frags, r.advances, k, r.parked[k]);
      SeqOfWraps(r.advances, k);
    }
    forall t | t in ParkedSeqs(r')
      ensures t in ParkedSeqs(r) || t == s
    {
      var k :| k in r'.parked && t == SeqOf(r.advances, k);
      assert k != s % LIMIT ==> k in r.parked;
    }
  }

  /** The number of expected-id moves is the least number never accepted. */
  lemma NextFragmentNew(frags: seq<Fragment>, r: RecvState)
    requires Tracks(frags, r)
    ensures r.advances !in Accepted(r) && forall s: nat :: s < r.advances ==> s in Accepted(r)
  {
    forall k | k in r.parked
      ensures SeqOf(r.advances, k) != r.advances
    {
      assert ParkedAt(frags, r.advances, k, r.parked[k]);
      SeqOfSelf(r.advances, k);
    }
  }

  /** The parked packets are exactly the accepted fragments beyond the expected one, under their ids. */
  lemma ParkedExactly(frags: seq<Fragment>, r: RecvState, s: nat)
    requires Tracks(frags, r) && s >= r.advances
    ensures s in Accepted(r) <==> s < |frags| && s % LIMIT in r.parked && SeqOf(r.advances, s % LIMIT) == s
    ensures s in Accepted(r) ==> r.parked[s % LIMIT] == PacketOf(frags, s)
  {
    if s in Accepted(r) {
      var k :| k in r.parked && s == SeqOf(r.advances, k);
      assert ParkedAt(frags, r.advances, k, r.parked[k]);
      SeqOfWraps(r.advances, k);
    }
  }

  /** The receiver refines a set: its state is determined by which fragments it has accepted. */
  lemma AcceptedDetermines(frags: seq<Fragment>, r1: RecvState, r2: RecvState)
    requires Tracks(frags, r1) && Tracks(frags, r2) && Accepted(r1) == Accepted(r2)
    ensures r1 == r2.(drop := r1.drop)
  {
    NextFragmentNew(frags, r1);
    NextFragmentNew(frags, r2);
    assert r1.advances == r2.advances;
    SameParked(frags, r1, r2);
    SameParked(frags, r2, r1);
    assert r1.parked == r2.parked;
  }

  lemma SameParked(frags: seq<Fragment>, r1: RecvState, r2: RecvState)
    requires Tracks(frags, r1) && Tracks(frags, r2) && Accepted(r1) == Accepted(r2)
    requires r1.advances == r2.advances
    ensures forall k :: k in r1.parked ==> k in r2.parked && r1.parked[k] == r2.parked[k]
  {
    var e := r1.advances;
    forall k | k in r1.parked
      ensures k in r2.parked && r1.parked[k] == r2.parked[k]
    {
      assert ParkedAt(frags, e, k, r1.parked[k]);
      var s := SeqOf(e, k);
      SeqOfWraps(e, k);
      assert s in ParkedSeqs(r1);
      ParkedExactly(frags, r1, s);
      ParkedExactly(frags, r2, s);
    }
  }

  // ---------------------------------------------------------------- outside the window

  /** A fragment half the ids or more ahead looks old: it is dropped. */
  lemma TooFarAheadDropped(frags: seq<Fragment>, r: RecvState, s: nat)
    requires Tracks(frags, r) && s < |frags| && HALF <= s - r.advances && s < r.advances + LIMIT
    ensures Accept(r, PacketOf(frags, s)) == r.(drop := r.drop + 1) && s !in Accepted(r)
  {
    DistanceFolds(r.advances, s);
    forall k | k in r.parked
      ensures SeqOf(r.advances, k) != s
    {
      DistanceRange(r.advances % LIMIT, k);
    }
  }

  /** Up to a whole turn ahead a fragment is accepted or dropped, and never taken for another. */
  lemma AcceptWithinTurn(frags: seq<Fragment>, r: RecvState, s: nat)
    requires Tracks(frags, r) && s < |frags| && -HALF <= s - r.advances < LIMIT
    ensures var r' := Accept(r, PacketOf(frags, s));
            && Tracks(frags, r') && r'.advances >= r.advances
            && Accepted(r') == Accepted(r) + (if s - r.advances < HALF then {s as int} else {})
  {
    if s - r.advances < HALF {
      AcceptTracks(frags, r, s);
    } else {
      TooFarAheadDropped(frags, r, s);
    }
  }

  /**
   A copy more than half the ids old is taken for the fragment that has its id now: delivered for it, parked for
   it, or dropped if that one is already parked. It never counts as the old fragment it is.
   */
  lemma StaleTakenForNew(frags: seq<Fragment>, r: RecvState, s: nat)
    requires Tracks(frags, r) && s < |frags| && s - r.advances < -HALF && r.advances <= s + LIMIT
    ensures SeqOf(r.advances, s % LIMIT) == s + LIMIT
    ensures var pac := PacketOf(frags, s);
            Accept(r, pac) ==
            if s + LIMIT == r.advances then Process(SendToReader(r, pac))
            else if s + LIMIT in Accepted(r) then r.(drop := r.drop + 1)
            else r.(parked := r.parked[s % LIMIT := pac])
  {
    DistanceFolds(r.advances, s);
    if s + LIMIT > r.advances {
      StaleParked(frags, r, s);
    }
  }

  lemma StaleParked(frags: seq<Fragment>, r: RecvState, s: nat)
    requires Tracks(frags, r) && s < |frags| && r.advances < s + LIMIT && SeqOf(r.advances, s % LIMIT) == s + LIMIT
    ensures s % LIMIT in r.parked <==> s + LIMIT in Accepted(r)
  {
    var k := s % LIMIT;
    OneTurnLater(s);
    ParkedExactly(frags, r, s + LIMIT);
    if k in r.parked {
      assert ParkedAt(frags, r.advances, k, r.parked[k]);
    }
  }

  // ---------------------------------------------------------------- many fragments, any order

  function PacketsOf(frags: seq<Fragment>, order: seq<nat>): (p: seq<Packet>)
    requires forall i :: 0 <= i < |order| ==> order[i] < |frags|
    ensures |p| == |order|
  {
    seq(|order|, i requires 0 <= i < |order| => PacketOf(frags, order[i]))
  }

  ghost function Elements(order: seq<nat>): (e: set<int>)
    ensures forall i :: 0 <= i < |order| ==> order[i] in e
    ensures forall s :: s in e ==> s in order
  {
    if order == [] then {} else Elements(order[..|order| - 1]) + {order[|order| - 1]}
  }

  /** Every number in `order` is classifiable at the receiver now and for as long as no more fragments are written. */
  ghost predicate InWindow(frags: seq<Fragment>, r: RecvState, order: seq<nat>) {
    forall i :: 0 <= i < |order| ==> order[i] < |frags| && |frags| - HALF <= order[i] < r.advances + HALF
  }

  lemma AcceptAllLast(frags: seq<Fragment>, r: RecvState, order: seq<nat>)
    requires r.expectedID < LIMIT && order != []
    requires forall i :: 0 <= i < |order| ==> order[i] < |frags|
    ensures var before, s := order[..|order| - 1], order[|order| - 1];
            && AcceptAll(r, PacketsOf(frags, order)) ==
               Accept(AcceptAll(r, PacketsOf(frags, before)), PacketOf(frags, s))
            && Elements(order) == Elements(before) + {s as int}
  {
    var before, s := order[..|order| - 1], order[|order| - 1];
    assert PacketsOf(frags, order)[..|order| - 1] == PacketsOf(frags, before);
  }

  lemma {:induction false} AcceptAllTracks(frags: seq<Fragment>, r: RecvState, order: seq<nat>)
    requires Tracks(frags, r) && InWindow(frags, r, order)
    ensures var r' := AcceptAll(r, PacketsOf(frags, order));
            && Tracks(frags, r') && Accepted(r') == Accepted(r) + Elements(order)
            && r'.advances >= r.advances
  {
    if order == [] {
    } else {
      var before, s := order[..|order| - 1], order[|order| - 1];
      AcceptAllTracks(frags, r, before);
      AcceptTracks(frags, AcceptAll(r, PacketsOf(frags, before)), s);
      AcceptAllLast(frags, r, order);
    }
  }

  lemma {:induction false} AcceptAllAccounted(r: RecvState, pacs: seq<Packet>)
    requires r.expectedID < LIMIT
    ensures Accounted(AcceptAll(r, pacs)) == Accounted(r) + |pacs|
  {
    if pacs == [] {
    } else {
      AcceptAllAccounted(r, pacs[..|pacs| - 1]);
      AcceptAccounted(AcceptAll(r, pacs[..|pacs| - 1]), pacs[|pacs| - 1]);
    }
  }

  /**
   Arrival order and duplication do not matter: serving the same fragments in any two ways gives the
   same state, down to the bytes delivered; the drop counters differ by the number of extra copies.
   */
  lemma OrderIndependent(frags: seq<Fragment>, r: RecvState, order1: seq<nat>, order2: seq<nat>)
    requires Tracks(frags, r) && InWindow(frags, r, order1) && InWindow(frags, r, order2)
    requires Elements(order1) == Elements(order2)
    ensures var r1, r2 := AcceptAll(r, PacketsOf(frags, order1)), AcceptAll(r, PacketsOf(frags, order2));
            r1 == r2.(drop := r1.drop) && r1.drop - r2.drop == |order1| - |order2|
  {
    AcceptAllTracks(frags, r, order1);
    AcceptAllTracks(frags, r, order2);
    AcceptedDetermines(frags, AcceptAll(r, PacketsOf(frags, order1)), AcceptAll(r, PacketsOf(frags, order2)));
    AcceptAllAccounted(r, PacketsOf(frags, order1));
    AcceptAllAccounted(r, PacketsOf(frags, order2));
  }

  // ---------------------------------------------------------------- more fragments

  lemma {:induction false} FirstPacketsStable(frags: seq<Fragment>, f: Fragment, n: nat)
    requires n <= |frags|
    ensures FirstPackets(frags + [f], n) == FirstPackets(frags, n)
  {
    if n == 0 {
    } else {
      FirstPacketsStable(frags, f, n - 1);
    }
  }

  /** A newly written fragment changes nothing at the receiver. */
  lemma TracksMore(frags: seq<Fragment>, f: Fragment, r: RecvState)
    requires Tracks(frags, r)
    ensures Tracks(frags + [f], r)
  {
    FirstPacketsStable(frags, f, r.advances);
    forall k | k in r.parked
      ensures ParkedAt(frags + [f], r.advances, k, r.parked[k])
    {
      assert ParkedAt(frags, r.advances, k, r.parked[k]);
    }
  }
}
