/** Packets per second as a ring of ten sums, one for each tenth of a second (speed.go). */
module Speed {
  const SLOTS: nat := 10

  datatype SpeedState = SpeedState(speed: nat, current: nat, currentSum: nat, sums: seq<nat>)

  const STOPPED := SpeedState(0, 0, 0, [0, 0, 0, 0, 0, 0, 0, 0, 0, 0])

  predicate Sound(s: SpeedState) { s.current < SLOTS && |s.sums| == SLOTS }

  /** A call at time `bucket`, counted in tenths of a second; the timer's calls are not counted. */
  datatype Call = Call(bucket: nat, counted: bool)

  function Sum(s: seq<nat>): nat {
    if s == [] then 0 else Sum(s[..|s| - 1]) + s[|s| - 1]
  }

  function AddStep(s: SpeedState, c: Call): (s': SpeedState)
    requires Sound(s)
    ensures Sound(s')
  {
    var i := c.bucket % SLOTS;
    var closed := s.sums[s.current := s.currentSum];
    var t := if i != s.current then SpeedState(Sum(closed), i, 0, closed) else s;
    if c.counted then t.(currentSum := t.currentSum + 1) else t
  }

  class SpeedMeter {
    var speed: nat
    var current: nat
    var currentSum: nat
    const sumArray: array<nat>

    ghost function State(): SpeedState
      reads this, sumArray
    {
      SpeedState(speed, current, currentSum, sumArray[..])
    }

    constructor ()
      ensures State() == STOPPED && fresh(sumArray)
    {
      speed, current, currentSum := 0, 0, 0;
      sumArray := new nat[SLOTS](_ => 0);
      new;
      assert sumArray[..] == STOPPED.sums;
    }

    /** `unixMilli` is the clock in milliseconds. */
    method Add(unixMilli: nat, counted: bool)
      requires Sound(State())
      modifies this, sumArray
      ensures State() == AddStep(old(State()), Call(unixMilli / 100, counted))
    {
      var i := unixMilli / 100 % SLOTS;
      if i != current {
        sumArray[current] := currentSum;
        var total := 0;
        for k := 0 to sumArray.Length
          invariant total == Sum(sumArray[..k])
        {
          assert sumArray[..k + 1][..k] == sumArray[..k];
          total := total + sumArray[k];
        }
        assert sumArray[..sumArray.Length] == sumArray[..];
        speed := total;
        currentSum := 0;
        current := i;
      }
      if counted {
        currentSum := currentSum + 1;
      }
    }
  }

  // ---------------------------------------------------------------- the whole call history

  function AddAll(h: seq<Call>): (s: SpeedState)
    ensures Sound(s)
  {
    if h == [] then STOPPED else AddStep(AddAll(h[..|h| - 1]), h[|h| - 1])
  }

  function Index(c: Call): (i: nat)
    ensures i < SLOTS
  {
    c.bucket % SLOTS
  }

  /** The slot the meter is in after these calls. */
  function CurrentIndex(h: seq<Call>): (i: nat)
    ensures i < SLOTS
  {
    if h == [] then 0 else Index(h[|h| - 1])
  }

  /** The calls of the last stay in slot `j`, which ends when a call falls in another slot. */
  function LastVisit(h: seq<Call>, j: nat): seq<Call> {
    if h == [] then []
    else
      var front, c := h[..|h| - 1], h[|h| - 1];
      if Index(c) != j then LastVisit(front, j)
      else if CurrentIndex(front) == j then LastVisit(front, j) + [c]
      else [c]
  }

  function Counted(v: seq<Call>): nat {
    if v == [] then 0 else Counted(v[..|v| - 1]) + (if v[|v| - 1].counted then 1 else 0)
  }

  /** Counted calls in buckets `lo` up to but not including `hi`. */
  function Count(v: seq<Call>, lo: int, hi: int): nat {
    if v == [] then 0
    else
      var c := v[|v| - 1];
      Count(v[..|v| - 1], lo, hi) + (if c.counted && lo <= c.bucket < hi then 1 else 0)
  }

  /** Counted calls before bucket `lo`. */
  function Older(v: seq<Call>, lo: int): nat {
    if v == [] then 0
    else
      var c := v[|v| - 1];
      Older(v[..|v| - 1], lo) + (if c.counted && c.bucket < lo then 1 else 0)
  }

  /** The counted calls of each slot's last visit; then those of them in a window of ten buckets, and before it. */
  function Visits(h: seq<Call>): (n: seq<nat>)
    ensures |n| == SLOTS
  {
    seq(SLOTS, j requires 0 <= j < SLOTS => Counted(LastVisit(h, j)))
  }

  function VisitsInside(h: seq<Call>, lo: int): (n: seq<nat>)
    ensures |n| == SLOTS
  {
    seq(SLOTS, j requires 0 <= j < SLOTS => Count(LastVisit(h, j), lo, lo + SLOTS))
  }

  function VisitsBefore(h: seq<Call>, lo: int): (n: seq<nat>)
    ensures |n| == SLOTS
  {
    seq(SLOTS, j requires 0 <= j < SLOTS => Older(LastVisit(h, j), lo))
  }

  lemma OneMoreCall(h: seq<Call>, c: Call)
    ensures AddAll(h + [c]) == AddStep(AddAll(h), c) && CurrentIndex(h + [c]) == Index(c)
    ensures forall j: nat :: LastVisit(h + [c], j) ==
              if Index(c) != j then LastVisit(h, j)
              else if CurrentIndex(h) == j then LastVisit(h, j) + [c]
              else [c]
  {
    assert (h + [c])[..|h|] == h;
  }

  lemma CountOneMore(v: seq<Call>, c: Call, lo: int, hi: int)
    ensures Count(v + [c], lo, hi) == Count(v, lo, hi) + (if c.counted && lo <= c.bucket < hi then 1 else 0)
    ensures Older(v + [c], lo) == Older(v, lo) + (if c.counted && c.bucket < lo then 1 else 0)
    ensures Counted(v + [c]) == Counted(v) + (if c.counted then 1 else 0)
  {
    assert (v + [c])[..|v|] == v;
  }

  lemma JustOne(c: Call, lo: int, hi: int)
    ensures Counted([c]) == if c.counted then 1 else 0
    ensures Count([c], lo, hi) == if c.counted && lo <= c.bucket < hi then 1 else 0
  {
    assert [c][..0] == [];
  }

  /** The sums with the current one put in its slot. */
  function ClosedSums(s: SpeedState): (closed: seq<nat>)
    requires Sound(s)
    ensures |closed| == SLOTS
  {
    s.sums[s.current := s.currentSum]
  }

  ghost predicate HoldsVisits(h: seq<Call>, s: SpeedState) {
    Sound(s) && s.current == CurrentIndex(h) && ClosedSums(s) == Visits(h)
  }

  /** A call starts or goes on with its own slot, and leaves the others. */
  lemma StepSlot(s: SpeedState, c: Call, j: nat)
    requires Sound(s) && j < SLOTS
    ensures ClosedSums(AddStep(s, c))[j] ==
            if j != Index(c) then ClosedSums(s)[j]
            else (if s.current == j then ClosedSums(s)[j] else 0) + (if c.counted then 1 else 0)
  {
  }

  lemma StepHoldsVisits(h: seq<Call>, c: Call)
    requires HoldsVisits(h, AddAll(h))
    ensures HoldsVisits(h + [c], AddAll(h + [c]))
  {
    var s := AddAll(h);
    OneMoreCall(h, c);
    JustOne(c, 0, 0);
    CountOneMore(LastVisit(h, Index(c)), c, 0, 0);
    forall j: nat | j < SLOTS
      ensures ClosedSums(AddStep(s, c))[j] == Visits(h + [c])[j]
    {
      assert ClosedSums(s)[j] == Visits(h)[j];
      StepSlot(s, c, j);
    }
  }

  /** For any history: each slot holds what its last visit counted. */
  lemma {:induction false} AlwaysHoldsVisits(h: seq<Call>)
    ensures HoldsVisits(h, AddAll(h))
  {
    if h == [] {
      assert ClosedSums(STOPPED) == Visits([]);
    } else {
      var front, c := h[..|h| - 1], h[|h| - 1];
      assert h == front + [c];
      AlwaysHoldsVisits(front);
      StepHoldsVisits(front, c);
    }
  }

  /**
   Whatever the calls and their times: the speed is set when a call falls in another slot than the one before,
   and only then, to the sum of what the last visit to each of the ten slots has counted.
   */
  lemma SpeedAtSwitch(h: seq<Call>, c: Call)
    ensures AddAll(h + [c]).speed == if Index(c) == CurrentIndex(h) then AddAll(h).speed else Sum(Visits(h))
  {
    OneMoreCall(h, c);
    AlwaysHoldsVisits(h);
  }

  // ---------------------------------------------------------------- against a window of ten buckets

  /** Time does not run backwards. */
  ghost predicate Ordered(h: seq<Call>) {
    forall i, j :: 0 <= i < j < |h| ==> h[i].bucket <= h[j].bucket
  }

  /** The calls of a visit are calls of the history, in the slot visited. */
  lemma {:induction false} VisitFromHistory(h: seq<Call>, j: nat)
    ensures forall x :: x in LastVisit(h, j) ==> x in h && Index(x) == j
  {
    if h == [] {
    } else {
      VisitFromHistory(h[..|h| - 1], j);
    }
  }

  lemma {:induction false} NoneInside(v: seq<Call>, lo: int, hi: int)
    requires forall x :: x in v ==> x.bucket < lo
    ensures Count(v, lo, hi) == 0
  {
    if v == [] {
    } else {
      NoneInside(v[..|v| - 1], lo, hi);
    }
  }

  lemma {:induction false} CountedSplits(v: seq<Call>, lo: int, hi: int)
    requires lo <= hi && forall x :: x in v ==> x.bucket < hi
    ensures Counted(v) == Count(v, lo, hi) + Older(v, lo)
  {
    if v == [] {
    } else {
      assert v[|v| - 1] in v;
      CountedSplits(v[..|v| - 1], lo, hi);
    }
  }

  lemma {:induction false} NoneOlder(v: seq<Call>, lo: int)
    ensures Older(v, lo) == 0 <==> forall x :: x in v && x.counted ==> x.bucket >= lo
  {
    if v == [] {
    } else {
      var front, c := v[..|v| - 1], v[|v| - 1];
      NoneOlder(front, lo);
      assert c in v;
      assert forall x :: x in v ==> x in front || x == c;
      assert forall x :: x in front ==> x in v;
    }
  }

  lemma {:induction false} SumUpdate(s: seq<nat>, i: nat, x: nat)
    requires i < |s|
    ensures Sum(s[i := x]) + s[i] == Sum(s) + x
  {
    var front := s[..|s| - 1];
    if i == |s| - 1 {
      assert s[i := x][..|s| - 1] == front;
    } else {
      assert s[i := x][..|s| - 1] == front[i := x];
      SumUpdate(front, i, x);
    }
  }

  lemma {:induction false} SumOfSums(s: seq<nat>, a: seq<nat>, b: seq<nat>)
    requires |s| == |a| == |b| && forall i :: 0 <= i < |s| ==> s[i] == a[i] + b[i]
    ensures Sum(s) == Sum(a) + Sum(b)
  {
    if s == [] {
    } else {
      SumOfSums(s[..|s| - 1], a[..|a| - 1], b[..|b| - 1]);
    }
  }

  lemma {:induction false} SumZero(s: seq<nat>)
    ensures Sum(s) == 0 <==> forall i :: 0 <= i < |s| ==> s[i] == 0
  {
    if s == [] {
    } else {
      SumZero(s[..|s| - 1]);
    }
  }

  /** A new visit to a slot comes at least ten buckets after the one before. */
  lemma OldVisitPast(h: seq<Call>, c: Call, lo: int)
    requires Ordered(h + [c]) && c.bucket < lo + SLOTS && CurrentIndex(h) != Index(c)
    ensures Count(LastVisit(h, Index(c)), lo, lo + SLOTS) == 0
  {
    var v := LastVisit(h, Index(c));
    VisitFromHistory(h, Index(c));
    forall x | x in v
      ensures x.bucket < lo
    {
      var i :| 0 <= i < |h| && h[i] == x;
      var g := h + [c];
      assert g[i].bucket <= g[|h|].bucket && g[|h| - 1].bucket <= g[|h|].bucket;
      assert i < |h| - 1 ==> g[i].bucket <= g[|h| - 1].bucket;
      SameSlot(x.bucket, c.bucket);
    }
    NoneInside(v, lo, lo + SLOTS);
  }

  lemma SameSlot(a: nat, b: nat)
    requires a % SLOTS == b % SLOTS && a < b
    ensures a + SLOTS <= b
  {
  }

  /** In the window the last visits miss nothing: what came before them lies ten buckets back or more. */
  lemma {:induction false} WindowInVisits(h: seq<Call>, lo: int)
    requires Ordered(h) && (h != [] ==> h[|h| - 1].bucket < lo + SLOTS)
    ensures Sum(VisitsInside(h, lo)) == Count(h, lo, lo + SLOTS)
  {
    if h == [] {
      SumZero(VisitsInside(h, lo));
    } else {
      var front, c := h[..|h| - 1], h[|h| - 1];
      assert h == front + [c];
      assert forall i :: 0 <= i < |front| ==> front[i] == h[i];
      WindowInVisits(front, lo);
      WindowStep(front, c, lo);
    }
  }

  /** A call adds to the window of its own slot what it adds to the window. */
  lemma OwnVisit(h: seq<Call>, c: Call, lo: int)
    requires Ordered(h + [c]) && c.bucket < lo + SLOTS
    ensures Count(LastVisit(h + [c], Index(c)), lo, lo + SLOTS) ==
            Count(LastVisit(h, Index(c)), lo, lo + SLOTS) + (if c.counted && lo <= c.bucket then 1 else 0)
  {
    OneMoreCall(h, c);
    if CurrentIndex(h) == Index(c) {
      CountOneMore(LastVisit(h, Index(c)), c, lo, lo + SLOTS);
    } else {
      JustOne(c, lo, lo + SLOTS);
      OldVisitPast(h, c, lo);
    }
  }

  /** It adds nothing to the others. */
  lemma VisitStep(h: seq<Call>, c: Call, lo: int, j: nat)
    requires Ordered(h + [c]) && c.bucket < lo + SLOTS && j < SLOTS
    ensures VisitsInside(h + [c], lo)[j] ==
            VisitsInside(h, lo)[j] + (if j == Index(c) && c.counted && lo <= c.bucket then 1 else 0)
  {
    if j == Index(c) {
      OwnVisit(h, c, lo);
    } else {
      OneMoreCall(h, c);
    }
  }

  lemma WindowStep(h: seq<Call>, c: Call, lo: int)
    requires Ordered(h + [c]) && c.bucket < lo + SLOTS
    requires Sum(VisitsInside(h, lo)) == Count(h, lo, lo + SLOTS)
    ensures Sum(VisitsInside(h + [c], lo)) == Count(h + [c], lo, lo + SLOTS)
  {
    var i, before, after := Index(c), VisitsInside(h, lo), VisitsInside(h + [c], lo);
    CountOneMore(h, c, lo, lo + SLOTS);
    forall j: nat | j < SLOTS
      ensures after[j] == if j == i then after[i] else before[j]
    {
      VisitStep(h, c, lo, j);
    }
    VisitStep(h, c, lo, i);
    assert after == before[i := after[i]];
    SumUpdate(before, i, after[i]);
  }

  /** Some last visit has a counted call that is older than the window of ten buckets before `c`. */
  ghost predicate Overdue(h: seq<Call>, c: Call) {
    exists j, x :: 0 <= j < SLOTS && x in LastVisit(h, j) && x.counted && x.bucket < c.bucket - SLOTS
  }

  /**
   While time does not run backwards, the speed at a switch is the number of counted calls in the ten buckets before
   it, plus those older calls that no later visit has replaced. It is exact if and only if there are none.
   */
  lemma ExactUnlessOverdue(h: seq<Call>, c: Call)
    requires Ordered(h + [c]) && Index(c) != CurrentIndex(h)
    ensures var lo: int := c.bucket - SLOTS;
            && AddAll(h + [c]).speed == Count(h, lo, c.bucket) + Sum(VisitsBefore(h, lo))
            && (AddAll(h + [c]).speed == Count(h, lo, c.bucket) <==> !Overdue(h, c))
  {
    var lo: int := c.bucket - SLOTS;
    SpeedAtSwitch(h, c);
    BeforeSwitch(h, c);
    WindowInVisits(h, lo);
    VisitsSplit(h, lo);
    NoneBefore(h, c);
  }

  lemma VisitsSplit(h: seq<Call>, lo: int)
    requires forall x :: x in h ==> x.bucket < lo + SLOTS
    ensures Sum(Visits(h)) == Sum(VisitsInside(h, lo)) + Sum(VisitsBefore(h, lo))
  {
    forall j: nat | j < SLOTS
      ensures Visits(h)[j] == VisitsInside(h, lo)[j] + VisitsBefore(h, lo)[j]
    {
      VisitFromHistory(h, j);
      CountedSplits(LastVisit(h, j), lo, lo + SLOTS);
    }
    SumOfSums(Visits(h), VisitsInside(h, lo), VisitsBefore(h, lo));
  }

  lemma BeforeSwitch(h: seq<Call>, c: Call)
    requires Ordered(h + [c]) && Index(c) != CurrentIndex(h)
    ensures Ordered(h) && forall x :: x in h ==> x.bucket < c.bucket
  {
    var g := h + [c];
    forall i | 0 <= i < |h|
      ensures h[i].bucket < c.bucket
    {
      assert g[i].bucket <= g[|h| - 1].bucket || i == |h| - 1;
      assert g[|h| - 1].bucket <= g[|h|].bucket;
    }
    forall i, j | 0 <= i < j < |h|
      ensures h[i].bucket <= h[j].bucket
    {
      assert g[i].bucket <= g[j].bucket;
    }
  }

  lemma NoneBefore(h: seq<Call>, c: Call)
    ensures Sum(VisitsBefore(h, c.bucket - SLOTS)) == 0 <==> !Overdue(h, c)
  {
    var lo: int := c.bucket - SLOTS;
    SumZero(VisitsBefore(h, lo));
    forall j: nat | j < SLOTS
      ensures VisitsBefore(h, lo)[j] == 0 <==> forall x :: x in LastVisit(h, j) && x.counted ==> x.bucket >= lo
    {
      NoneOlder(LastVisit(h, j), lo);
    }
  }

  // ---------------------------------------------------------------- steady time

  /** Time advances by at most one bucket from call to call. */
  ghost predicate Steady(h: seq<Call>) {
    forall i :: 0 <= i < |h| - 1 ==> h[i].bucket <= h[i + 1].bucket <= h[i].bucket + 1
  }

  function Last(h: seq<Call>): nat
    requires h != []
  {
    h[|h| - 1].bucket
  }

  lemma {:induction false} SteadyOrdered(h: seq<Call>)
    requires Steady(h)
    ensures Ordered(h)
  {
    if h == [] {
    } else {
      var front := h[..|h| - 1];
      SteadyOrdered(front);
      forall i | 0 <= i < |h| - 1
        ensures h[i].bucket <= h[|h| - 1].bucket
      {
        assert front[i].bucket <= front[|front| - 1].bucket || i == |front| - 1;
        assert h[|h| - 2].bucket <= h[|h| - 2 + 1].bucket;
      }
    }
  }

  /** In steady time every last visit is within the ten buckets up to the last call. */
  lemma {:induction false} SteadyVisits(h: seq<Call>, j: nat)
    requires Steady(h) && h != [] && j < SLOTS
    ensures forall x :: x in LastVisit(h, j) ==> x.bucket > Last(h) - SLOTS
  {
    var front, c := h[..|h| - 1], h[|h| - 1];
    if front == [] {
    } else {
      assert h[|h| - 2].bucket <= h[|h| - 2 + 1].bucket <= h[|h| - 2].bucket + 1;
      SteadyVisits(front, j);
      VisitFromHistory(front, j);
      NextSlot(Last(front));
      forall x | x in LastVisit(h, j)
        ensures x.bucket > Last(h) - SLOTS
      {
        if x.bucket + SLOTS == c.bucket {
          TenBack(x.bucket, c.bucket);
        }
      }
    }
  }

  lemma NextSlot(b: nat)
    ensures (b + 1) % SLOTS != b % SLOTS
  {
  }

  lemma TenBack(a: nat, b: nat)
    requires a + SLOTS == b
    ensures a % SLOTS == b % SLOTS
  {
  }

  /**
   As long as time advances by at most one bucket from call to call, the speed is set at each switch of bucket,
   and only there, to the number of counted calls in the ten most recent completed buckets.
   */
  lemma SlidingWindow(h: seq<Call>, c: Call)
    requires h != [] && Steady(h + [c])
    ensures AddAll(h + [c]).speed ==
            if c.bucket == Last(h) then AddAll(h).speed else Count(h, c.bucket - SLOTS, c.bucket)
  {
    var g := h + [c];
    assert g[|h| - 1].bucket <= g[|h| - 1 + 1].bucket <= g[|h| - 1].bucket + 1;
    SpeedAtSwitch(h, c);
    if c.bucket != Last(h) {
      assert Steady(h) by {
        assert forall i :: 0 <= i < |h| ==> h[i] == g[i];
      }
      SteadyOrdered(g);
      ExactUnlessOverdue(h, c);
      forall j: nat | j < SLOTS
        ensures forall x :: x in LastVisit(h, j) ==> x.bucket >= c.bucket - SLOTS
      {
        SteadyVisits(h, j);
      }
    }
  }

  /**
   Two inputs on which the speed is too high: after a gap of eleven buckets, and after a gap of ten, which the meter
   does not notice.
   */
  lemma TooHigh(c0: Call, c10: Call, c11: Call)
    requires c0 == Call(0, true) && c10 == Call(10, true) && c11 == Call(11, true)
    ensures AddAll([c0] + [c11]).speed == 1 && Count([c0], 1, 11) == 0
    ensures AddAll([c0] + [c10] + [c11]).speed == 2 && Count([c0] + [c10], 1, 11) == 1
  {
    OneMoreCall([], c0);
    OneMoreCall([c0], c11);
    OneMoreCall([c0], c10);
    OneMoreCall([c0] + [c10], c11);
    JustOne(c0, 1, 11);
    CountOneMore([c0], c10, 1, 11);
    SumUpdate(STOPPED.sums, 0, 1);
    SumUpdate(STOPPED.sums, 0, 2);
    SumZero(STOPPED.sums);
  }
}
