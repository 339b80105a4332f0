/** The send queue: a list of packets waiting for their acks, and an index into it by id (send_queue.go). */
module SendQueues {
  import opened Packets
  import opened Endpoint

  const MILLISECOND := 1_000_000
  const MIN_RTT := 30 * MILLISECOND
  const MAX_RTT := 3000 * MILLISECOND
  const START_RTT := 200 * MILLISECOND
  const MAX_RETRANSMIT_ATTEMPTS := 100

  /** Nanoseconds until the next resend, by middle trip time (0 when unknown) and resends so far. */
  function RetransmitDelay(tripTime: nat, attempts: nat): nat {
    var rtt := if tripTime == 0 then START_RTT else MIN_RTT + tripTime;
    var grown := if attempts > 0 then rtt * (attempts + 1) else rtt;
    if grown > MAX_RTT then MAX_RTT else grown
  }

  /** The retransmission state of a queued packet. */
  datatype Timer = Timer(attempts: nat, due: int)

  /** That of a packet just written: not sent again, and due after 200 ms, or 30 ms more than a trip, 3 s at most. */
  function FirstTimer(now: int, tripTime: nat): Timer {
    Timer(0, now + if tripTime == 0 then 200_000_000 else if tripTime > 2_970_000_000 then 3_000_000_000
                   else 30_000_000 + tripTime)
  }

  function FirstTimers(n: nat, now: int, tripTime: nat): (t: seq<Timer>)
    ensures |t| == n
  {
    if n == 0 then [] else FirstTimers(n - 1, now, tripTime) + [FirstTimer(now, tripTime)]
  }

  lemma FirstTimersMore(timers: seq<Timer>, n: nat, now: int, tripTime: nat)
    ensures (timers + FirstTimers(n, now, tripTime)) + [FirstTimer(now, tripTime)] ==
            timers + FirstTimers(n + 1, now, tripTime)
  {
  }

  /** The delay before send number `sends + 1` in nanoseconds: that many times the first, 3 s at most. */
  function DelayInNumbers(tripTime: nat, sends: nat): nat {
    var d := (if tripTime == 0 then 200_000_000 else 30_000_000 + tripTime) * sends;
    if d > 3_000_000_000 then 3_000_000_000 else d
  }

  /** A list element; the packet it holds does not change, its timer does. */
  class Element {
    const pac: Packet
    var timer: Timer

    constructor (pac: Packet, timer: Timer)
      ensures this.pac == pac && this.timer == timer
    {
      this.pac, this.timer := pac, timer;
    }
  }

  function PacketsIn(queue: seq<Element>): (c: seq<Packet>)
    ensures |c| == |queue| && forall i {:trigger c[i]} :: 0 <= i < |c| ==> c[i] == queue[i].pac
  {
    seq(|queue|, i requires 0 <= i < |queue| => queue[i].pac)
  }

  /** The list without this element. */
  function Without(queue: seq<Element>, e: Element): seq<Element> {
    if queue == [] then [] else if queue[0] == e then queue[1..] else [queue[0]] + Without(queue[1..], e)
  }

  /** The list after a delete by id: without the element the index names, if any. */
  function Removed(queue: seq<Element>, index: map<uint32, Element>, id: uint32): seq<Element> {
    if id in index then Without(queue, index[id]) else queue
  }

  lemma {:induction false} WithoutIsRemoveAt(queue: seq<Element>, k: nat)
    requires k < |queue| && forall i :: 0 <= i < k ==> queue[i] != queue[k]
    ensures Without(queue, queue[k]) == RemoveAt(queue, k)
    decreases |queue|
  {
    if k == 0 {
    } else {
      WithoutIsRemoveAt(queue[1..], k - 1);
      assert RemoveAt(queue, k) == [queue[0]] + RemoveAt(queue[1..], k - 1);
    }
  }

  ghost predicate Distinct(queue: seq<Element>) {
    queue != [] ==> queue[|queue| - 1] !in queue[..|queue| - 1] && Distinct(queue[..|queue| - 1])
  }

  lemma {:induction false} DistinctPairs(queue: seq<Element>)
    ensures Distinct(queue) <==> forall i, j :: 0 <= i < j < |queue| ==> queue[i] != queue[j]
  {
    if queue == [] {
    } else {
      var front, last := queue[..|queue| - 1], queue[|queue| - 1];
      DistinctPairs(front);
      assert forall i :: 0 <= i < |front| ==> front[i] == queue[i];
      assert last in front <==> exists i :: 0 <= i < |front| && queue[i] == last;
    }
  }

  /** The list has no element twice, and the index points into it. */
  ghost predicate Indexed(queue: seq<Element>, index: map<uint32, Element>) {
    && Distinct(queue)
    && (forall id :: id in index ==> index[id] in queue && index[id].pac.id == id)
  }

  /** Moreover the index reaches every element of the list. */
  ghost predicate FullyIndexed(queue: seq<Element>, index: map<uint32, Element>) {
    && Indexed(queue, index)
    && forall i :: 0 <= i < |queue| ==> queue[i].pac.id in index && index[queue[i].pac.id] == queue[i]
  }

  /** An id still queued is what breaks the correspondence of list and index, and nothing else is. */
  lemma AddedIndexed(queue: seq<Element>, index: map<uint32, Element>, e: Element)
    requires Indexed(queue, index) && e !in queue
    ensures Indexed(queue + [e], index[e.pac.id := e])
    ensures FullyIndexed(queue, index) ==>
              (FullyIndexed(queue + [e], index[e.pac.id := e]) <==> e.pac.id !in index)
  {
  }

  lemma RemovedIndexed(queue: seq<Element>, index: map<uint32, Element>, k: nat)
    requires Indexed(queue, index) && k < |queue| && queue[k].pac.id in index && index[queue[k].pac.id] == queue[k]
    ensures Indexed(RemoveAt(queue, k), index - {queue[k].pac.id})
  {
    var q, rest := RemoveAt(queue, k), index - {queue[k].pac.id};
    DistinctPairs(queue);
    DistinctPairs(q);
    forall x | x in rest
      ensures rest[x] in q
    {
      var i :| 0 <= i < |queue| && queue[i] == index[x];
      assert q[if i < k then i else i - 1] == index[x];
    }
  }

  lemma RemovedFullyIndexed(queue: seq<Element>, index: map<uint32, Element>, k: nat)
    requires FullyIndexed(queue, index) && k < |queue|
    ensures FullyIndexed(RemoveAt(queue, k), index - {queue[k].pac.id})
  {
    var q, rest := RemoveAt(queue, k), index - {queue[k].pac.id};
    RemovedIndexed(queue, index, k);
    DistinctPairs(queue);
    forall i | 0 <= i < |q|
      ensures q[i].pac.id in rest && rest[q[i].pac.id] == q[i]
    {
      var j := if i < k then i else i + 1;
      assert q[i] == queue[j] && queue[j] != queue[k];
    }
  }

  lemma RemovedContents(queue: seq<Element>, k: nat)
    requires k < |queue|
    ensures PacketsIn(RemoveAt(queue, k)) == RemoveAt(PacketsIn(queue), k)
  {
  }

  lemma WithoutAt(queue: seq<Element>, k: nat)
    requires k < |queue| && Distinct(queue)
    ensures Without(queue, queue[k]) == RemoveAt(queue, k)
  {
    DistinctPairs(queue);
    WithoutIsRemoveAt(queue, k);
  }

  /** In a fully indexed list a search by id leads to the element the index names, or to none. */
  lemma FoundByIndex(queue: seq<Element>, index: map<uint32, Element>, id: uint32)
    requires FullyIndexed(queue, index)
    ensures var k := Find(PacketsIn(queue), id);
            && (k < |queue| <==> id in index)
            && (k < |queue| ==> index[id] == queue[k])
  {
    var k := Find(PacketsIn(queue), id);
    if k < |queue| {
      assert queue[k].pac.id == id;
    }
    if id in index {
      var j :| 0 <= j < |queue| && queue[j] == index[id];
      assert PacketsIn(queue)[j].id == id;
    }
  }

  /** A delete by id in a fully indexed list takes out the packet that a search by id finds. */
  lemma RemovedFound(queue: seq<Element>, index: map<uint32, Element>, id: uint32)
    requires FullyIndexed(queue, index)
    ensures FullyIndexed(Removed(queue, index, id), index - {id})
    ensures var pacs := PacketsIn(queue);
            var k := Find(pacs, id);
            PacketsIn(Removed(queue, index, id)) == if k < |pacs| then RemoveAt(pacs, k) else pacs
  {
    var k := Find(PacketsIn(queue), id);
    FoundByIndex(queue, index, id);
    if k < |queue| {
      WithoutAt(queue, k);
      RemovedFullyIndexed(queue, index, k);
      RemovedContents(queue, k);
    } else {
      assert index - {id} == index;
    }
  }

  ghost function Elements(queue: seq<Element>): set<Element> {
    set e | e in queue
  }

  lemma {:induction false} CountElements(queue: seq<Element>)
    requires Distinct(queue)
    ensures |Elements(queue)| == |queue|
  {
    if queue == [] {
    } else {
      var front, last := queue[..|queue| - 1], queue[|queue| - 1];
      CountElements(front);
      assert queue == front + [last];
      assert Elements(queue) == Elements(front) + {last};
    }
  }

  ghost function Named(index: map<uint32, Element>): set<Element> {
    index.Values
  }

  lemma {:induction false} CountNamed(index: map<uint32, Element>)
    requires forall id :: id in index ==> index[id].pac.id == id
    ensures |Named(index)| == |index|
    decreases |index|
  {
    if index == map[] {
    } else {
      var id :| id in index;
      var rest := index - {id};
      assert index.Keys == rest.Keys + {id};
      CountNamed(rest);
      assert Named(index) == Named(rest) + {index[id]};
    }
  }

  lemma {:induction false} SubsetCount(a: set<Element>, b: set<Element>)
    requires a <= b
    ensures |a| <= |b| && (|a| == |b| ==> a == b)
  {
    if a == {} {
    } else {
      var e :| e in a;
      SubsetCount(a - {e}, b - {e});
    }
  }

  /** The index is never larger than the list, and as large exactly when the two correspond one to one. */
  lemma IndexSize(queue: seq<Element>, index: map<uint32, Element>)
    requires Indexed(queue, index)
    ensures |index| <= |queue|
    ensures |index| == |queue| <==> FullyIndexed(queue, index)
  {
    CountElements(queue);
    CountNamed(index);
    assert Named(index) <= Elements(queue);
    SubsetCount(Named(index), Elements(queue));
    if |index| == |queue| {
      forall i | 0 <= i < |queue|
        ensures queue[i].pac.id in index && index[queue[i].pac.id] == queue[i]
      {
        assert queue[i] in Named(index);
      }
    }
    if FullyIndexed(queue, index) {
      forall e | e in queue
        ensures e in Named(index)
      {
        assert index[e.pac.id] == e;
      }
      assert Named(index) == Elements(queue);
    }
  }

  class SendQueue {
    var queue: seq<Element>
    var index: map<uint32, Element>

    /** Holds in every state, whatever ids are added. */
    ghost predicate Valid()
      reads this
    {
      Indexed(queue, index)
    }

    /** List and index correspond one to one; holds as long as no id is added that is still queued. */
    ghost predicate Bijective()
      reads this
    {
      FullyIndexed(queue, index)
    }

    ghost function Contents(): seq<Packet>
      reads this
    {
      PacketsIn(queue)
    }

    ghost function Timers(): (t: seq<Timer>)
      reads this, queue
      ensures |t| == |queue| && forall i {:trigger t[i]} :: 0 <= i < |t| ==> t[i] == queue[i].timer
    {
      seq(|queue|, i requires 0 <= i < |queue| reads this, queue => queue[i].timer)
    }

    constructor ()
      ensures Bijective() && queue == [] && index == map[]
    {
      queue, index := [], map[];
    }

    method Add(pac: Packet, timer: Timer)
      requires Valid()
      modifies this
      ensures Valid() && Contents() == old(Contents()) + [pac]
      ensures |queue| == |old(queue)| + 1 && fresh(queue[|queue| - 1]) && queue[..|queue| - 1] == old(queue)
      ensures queue[|queue| - 1].timer == timer
      ensures index == old(index)[pac.id := queue[|queue| - 1]]
      ensures old(Bijective()) ==> (Bijective() <==> pac.id !in old(index))
    {
      var e := new Element(pac, timer);
      AddedIndexed(queue, index, e);
      queue := queue + [e];
      index := index[pac.id := e];
    }

    method Get(id: uint32) returns (e: Element?)
      requires Valid()
      ensures if id in index then e == index[id] else e == null
    {
      e := if id in index then index[id] else null;
    }

    /** What is removed is the element the index names; in a bijective queue, the packet with that id. */
    method Delete(id: uint32) returns (pac: Option<Packet>)
      requires Valid()
      modifies this
      ensures Valid() && index == old(index) - {id}
      ensures pac == if id in old(index) then Some(old(index)[id].pac) else None
      ensures queue == Removed(old(queue), old(index), id)
      ensures old(Bijective()) ==> Bijective()
      ensures old(Bijective()) ==>
                (var k := Find(old(Contents()), id);
                 && (k < |old(queue)| <==> id in old(index))
                 && Contents() == if k < |old(queue)| then RemoveAt(old(Contents()), k) else old(Contents()))
    {
      var e := Get(id);
      if Bijective() {
        FoundByIndex(queue, index, id);
        RemovedFound(queue, index, id);
      }
      if e == null {
        return None;
      }
      pac := Some(e.pac);
      ghost var k: nat :| k < |queue| && queue[k] == e;
      WithoutAt(queue, k);
      RemovedIndexed(queue, index, k);
      queue := Without(queue, e);
      index := index - {id};
    }

    /** The oldest packet still waiting. */
    method GetFirst() returns (pac: Option<Packet>)
      ensures pac == if Contents() == [] then None else Some(Contents()[0])
    {
      pac := if queue == [] then None else Some(queue[0].pac);
    }

    /** The length is taken from the index: the list's exactly when the queue is bijective, and too small if not. */
    method Len() returns (n: nat)
      requires Valid()
      ensures n == |index| && n <= |queue|
      ensures n == |queue| <==> Bijective()
    {
      n := |index|;
      IndexSize(queue, index);
    }
  }

  // ---------------------------------------------------------------- the retransmission scan

  /** The state of a scan: all timers, everything sent so far, and whether it has given the channel up. */
  datatype Scanned = Scanned(timers: seq<Timer>, sent: seq<Packet>, gaveUp: bool)

  /** The scan at element `k`, which holds `pac`. */
  function ScanAt(s: Scanned, pac: Packet, k: nat, now: int, tripTime: nat): (r: Scanned)
    requires k < |s.timers|
    ensures |r.timers| == |s.timers|
  {
    var t := s.timers[k];
    if !(t.due < now) then s
    else
      var again := t.(attempts := t.attempts + 1);
      if again.attempts > MAX_RETRANSMIT_ATTEMPTS then s.(timers := s.timers[k := again], gaveUp := true)
      else
        var due := now + RetransmitDelay(tripTime, again.attempts);
        s.(timers := s.timers[k := again.(due := due)], sent := s.sent + [pac])
  }

  /** The scan of the first `n` elements at time `now`; it stops where it gives up. */
  function ScanFirst(pacs: seq<Packet>, timers: seq<Timer>, wire: seq<Packet>, now: int, tripTime: nat, n: nat)
    : (r: Scanned)
    requires n <= |pacs| == |timers|
    ensures |r.timers| == |timers|
  {
    if n == 0 then Scanned(timers, wire, false)
    else
      var s := ScanFirst(pacs, timers, wire, now, tripTime, n - 1);
      if s.gaveUp then s else ScanAt(s, pacs[n - 1], n - 1, now, tripTime)
  }

  lemma {:induction false} ScanStays(pacs: seq<Packet>, timers: seq<Timer>, wire: seq<Packet>, now: int, tripTime: nat,
                                        i: nat, n: nat)
    requires i <= n <= |pacs| == |timers| && ScanFirst(pacs, timers, wire, now, tripTime, i).gaveUp
    ensures ScanFirst(pacs, timers, wire, now, tripTime, n) == ScanFirst(pacs, timers, wire, now, tripTime, i)
  {
    if i == n {
    } else {
      ScanStays(pacs, timers, wire, now, tripTime, i, n - 1);
    }
  }

  /** Those of the first `n` packets whose time has come, in queue order. */
  function DueFirst(pacs: seq<Packet>, timers: seq<Timer>, now: int, n: nat): seq<Packet>
    requires n <= |pacs| == |timers|
  {
    if n == 0 then []
    else DueFirst(pacs, timers, now, n - 1) + (if timers[n - 1].due < now then [pacs[n - 1]] else [])
  }

  /** A packet that is due and has been sent again the maximum number of times. */
  predicate Exhausted(t: Timer, now: int) { t.due < now && t.attempts >= MAX_RETRANSMIT_ATTEMPTS }

  /**
   A scan gives up exactly when some due packet has been sent again a hundred times. Until then it sends every
   due packet once, in queue order, counts the attempt and leaves none due; what was not due is untouched.
   */
  lemma {:induction false} ScanSendsDue(pacs: seq<Packet>, timers: seq<Timer>, wire: seq<Packet>, now: int,
                                          tripTime: nat, n: nat)
    requires n <= |pacs| == |timers|
    ensures var r := ScanFirst(pacs, timers, wire, now, tripTime, n);
            && (r.gaveUp <==> exists i :: 0 <= i < n && Exhausted(timers[i], now))
            && wire <= r.sent <= wire + DueFirst(pacs, timers, now, n)
            && (!r.gaveUp ==> r.sent == wire + DueFirst(pacs, timers, now, n))
            && (!r.gaveUp ==> forall i :: 0 <= i < |timers| ==>
                  if i < n && timers[i].due < now then
                    && r.timers[i].attempts == timers[i].attempts + 1
                    && r.timers[i].due == now + DelayInNumbers(tripTime, timers[i].attempts + 2)
                    && r.timers[i].due > now
                  else r.timers[i] == timers[i])
  {
    if n == 0 {
    } else {
      ScanSendsDue(pacs, timers, wire, now, tripTime, n - 1);
      DelayBounds(tripTime, timers[n - 1].attempts + 1);
    }
  }

  /** A scan that gives up has sent what was due before, and counts the attempt it does not make. */
  lemma ScanGivesUp(pacs: seq<Packet>, timers: seq<Timer>, wire: seq<Packet>, now: int, tripTime: nat, f: nat, n: nat)
    requires f < n <= |pacs| == |timers| && Exhausted(timers[f], now)
    requires forall i :: 0 <= i < f ==> !Exhausted(timers[i], now)
    ensures var r := ScanFirst(pacs, timers, wire, now, tripTime, n);
            var before := ScanFirst(pacs, timers, wire, now, tripTime, f);
            && r == Scanned(before.timers[f := timers[f].(attempts := timers[f].attempts + 1)],
                            wire + DueFirst(pacs, timers, now, f), true)
            && forall i :: f < i < |timers| ==> r.timers[i] == timers[i]
  {
    ScanSendsDue(pacs, timers, wire, now, tripTime, f);
    ScanStays(pacs, timers, wire, now, tripTime, f + 1, n);
  }

  /** A packet waits longer the more often it has been sent and the longer trips take, within fixed bounds. */
  lemma DelayBounds(tripTime: nat, attempts: nat)
    ensures RetransmitDelay(tripTime, attempts) == DelayInNumbers(tripTime, attempts + 1)
    ensures FirstTimer(0, tripTime) == Timer(0, RetransmitDelay(tripTime, 0))
    ensures MIN_RTT <= RetransmitDelay(tripTime, attempts) <= MAX_RTT
    ensures RetransmitDelay(tripTime, attempts) <= RetransmitDelay(tripTime, attempts + 1)
    ensures tripTime > 0 ==> RetransmitDelay(tripTime, attempts) <= RetransmitDelay(tripTime + 1, attempts)
    ensures RetransmitDelay(tripTime, attempts) < MAX_RTT ==>
              RetransmitDelay(tripTime, attempts) == RetransmitDelay(tripTime, 0) * (attempts + 1)
  {
    var rtt := if tripTime == 0 then START_RTT else MIN_RTT + tripTime;
    assert rtt * (attempts + 1) >= rtt && rtt * (attempts + 2) == rtt * (attempts + 1) + rtt;
    assert (rtt + 1) * (attempts + 1) >= rtt * (attempts + 1);
  }
}
