/**
 Progress without a schedule: in any run, however it interleaves losses, duplicates, writes and acks, what
 is delivered and acknowledged at some point stays so.
 */
module Fairness {
  import opened Packets
  import opened Crypt
  import opened Split
  import opened Tracking
  import opened Protocol
  import opened Coverage

  /** Some copy of number `n` is served during the run. */
  predicate Delivers(run: seq<Action>, n: nat) {
    exists i :: 0 <= i < |run| && run[i].DeliverData? && run[i].c.num == n
  }

  /** Some ack of number `n` is served during the run. */
  predicate Acks(run: seq<Action>, n: nat) {
    exists i :: 0 <= i < |run| && run[i].DeliverAck? && run[i].c.num == n
  }

  lemma DeliversSplits(run: seq<Action>, n: nat)
    requires run != []
    ensures Delivers(run, n) <==> (run[0].DeliverData? && run[0].c.num == n) || Delivers(run[1..], n)
  {
    assert forall i :: 0 < i < |run| ==> run[i] == run[1..][i - 1];
  }

  lemma AcksSplits(run: seq<Action>, n: nat)
    requires run != []
    ensures Acks(run, n) <==> (run[0].DeliverAck? && run[0].c.num == n) || Acks(run[1..], n)
  {
    assert forall i :: 0 < i < |run| ==> run[i] == run[1..][i - 1];
  }

  lemma WrittenGrows(p: Suite, s: System, a: Action)
    requires Possible(p, s, a)
    ensures s.written <= Do(p, s, a).written && s.frags <= Do(p, s, a).frags
    ensures !a.DeliverData? ==> Do(p, s, a).recv == s.recv
  {
  }

  /** A step takes nothing back: not what was written, sent or accepted. */
  lemma StepGrows(p: Suite, s: System, a: Action)
    requires Inv(p, s) && Enabled(p, s, a)
    ensures var s' := Do(p, s, a);
            && Inv(p, s') && s.written <= s'.written && s.frags <= s'.frags
            && Accepted(s.recv) <= Accepted(s'.recv)
            && (a.DeliverData? ==> a.c.num in Accepted(s'.recv))
  {
    StepKeeps(p, s, a);
    if a.DeliverData? {
      DeliverDataKeeps(p, s, a);
    } else if a.DeliverAck? {
      DeliverAckEffect(p, s, a);
    }
    WrittenGrows(p, s, a);
  }

  /** A step puts no number that has been sent before into the queue, and an ack takes its number out. */
  lemma StepDrains(p: Suite, s: System, a: Action, n: nat)
    requires Inv(p, s) && Enabled(p, s, a) && n < |s.frags|
    ensures n in Do(p, s, a).outstanding ==> n in s.outstanding && !(a.DeliverAck? && a.c.num == n)
  {
    if a.DeliverAck? {
      DeliverAckKeeps(p, s, a);
    } else if a.DeliverData? {
      DeliverDataEffect(p, s, a);
    } else if IsOther(a) {
      OtherEffect(p, s, a);
    }
  }

  lemma {:induction false} RunGrows(p: Suite, s: System, run: seq<Action>)
    requires Inv(p, s) && Runs(p, s, run)
    ensures var s' := After(p, s, run);
            Inv(p, s') && s.written <= s'.written && s.frags <= s'.frags && Accepted(s.recv) <= Accepted(s'.recv)
    decreases |run|
  {
    if run == [] {
    } else {
      StepGrows(p, s, run[0]);
      RunGrows(p, Do(p, s, run[0]), run[1..]);
    }
  }

  lemma {:induction false} DeliveredStays(p: Suite, s: System, run: seq<Action>, n: nat)
    requires Inv(p, s) && Runs(p, s, run) && Delivers(run, n)
    ensures n in Accepted(After(p, s, run).recv)
    decreases |run|
  {
    var s1 := Do(p, s, run[0]);
    StepGrows(p, s, run[0]);
    DeliversSplits(run, n);
    if Delivers(run[1..], n) {
      DeliveredStays(p, s1, run[1..], n);
    } else {
      RunGrows(p, s1, run[1..]);
    }
  }

  lemma {:induction false} AckedStaysOut(p: Suite, s: System, run: seq<Action>, n: nat)
    requires Inv(p, s) && Runs(p, s, run) && n < |s.frags|
    ensures n in After(p, s, run).outstanding ==> n in s.outstanding && !Acks(run, n)
    decreases |run|
  {
    if run == [] {
    } else {
      StepGrows(p, s, run[0]);
      StepDrains(p, s, run[0], n);
      AcksSplits(run, n);
      AckedStaysOut(p, Do(p, s, run[0]), run[1..], n);
    }
  }

  // ---------------------------------------------------------------- messages

  lemma {:induction false} FirstPacketsPrefix(frags: seq<Fragment>, m: nat, n: nat)
    requires m <= n <= |frags|
    ensures FirstPackets(frags, m) <= FirstPackets(frags, n)
  {
    if m == n {
    } else {
      FirstPacketsPrefix(frags, m, n - 1);
    }
  }

  lemma FeedPrefix(c: Combining, a: seq<Packet>, b: seq<Packet>)
    requires a <= b
    ensures Feed(c, a).out <= Feed(c, b).out
  {
    assert b == a + b[|a|..];
    FeedAppend(c, a, b[|a|..]);
  }

  lemma {:induction false} StreamOfPrefix(before: seq<Message>, msgs: seq<Message>)
    requires before <= msgs && Splittable(msgs)
    ensures Splittable(before) && Stream(before) <= Stream(msgs)
  {
    StreamPrefix(msgs, |before|);
    assert msgs[..|before|] == before;
  }

  /** Once the expected number is past the fragments of some messages, these have been delivered. */
  lemma PassedMeansDelivered(p: Suite, s: System, before: seq<Message>)
    requires Consistent(p, s) && before <= s.written && Splittable(before) && |Stream(before)| <= s.recv.advances
    ensures AllDeliveries(before) <= s.recv.delivered
  {
    var n := |Stream(before)|;
    StreamOfPrefix(before, s.written);
    assert s.frags[..n] == Stream(before);
    FirstPacketsCarried(s.frags, n, n);
    StreamThenCombine(Ids(n), before);
    FirstPacketsPrefix(s.frags, n, s.recv.advances);
    FeedPrefix(Idle, FirstPackets(s.frags, n), FirstPackets(s.frags, s.recv.advances));
  }

  /**
   Progress under any schedule. In every run from a reachable state in which each number queued at the start is
   delivered at some point, the expected number ends beyond all fragments sent before, and every message that had
   been sent whole is delivered. If each of them is acknowledged at some point too, none of them is queued at the end.
   */
  lemma DeliveredInTheEnd(p: Suite, s: System, run: seq<Action>)
    requires Inv(p, s) && Runs(p, s, run)
    requires forall n :: n in s.outstanding ==> Delivers(run, n)
    ensures var s' := After(p, s, run);
            && s'.recv.advances >= |s.frags|
            && (s.pending == [] ==> AllDeliveries(s.written) <= s'.recv.delivered)
            && ((forall n :: n in s.outstanding ==> Acks(run, n)) ==>
                  forall n :: n in s'.outstanding ==> n >= |s.frags|)
  {
    var s' := After(p, s, run);
    RunGrows(p, s, run);
    forall n: nat | n < |s.frags|
      ensures n in Accepted(s'.recv)
    {
      if n in s.outstanding {
        DeliveredStays(p, s, run, n);
      }
    }
    NextFragmentNew(s'.frags, s'.recv);
    if s.pending == [] {
      assert s.frags == Stream(s.written);
      PassedMeansDelivered(p, s', s.written);
    }
    forall n: nat | n in s'.outstanding && n < |s.frags|
      ensures n in s.outstanding && !Acks(run, n)
    {
      AckedStaysOut(p, s, run, n);
    }
  }
}
