/** The scan of the send queue, which goes by timers, as steps of the protocol, which counts what is sent again. */
module Scan {
  import opened Packets
  import opened Crypt
  import opened Endpoint
  import opened SendQueues
  import opened Protocol

  /** The timers count what has been sent again. */
  ghost predicate Counts(s: System, timers: seq<Timer>) {
    && |timers| == |s.outstanding|
    && forall i :: 0 <= i < |timers| ==>
         s.outstanding[i] < |s.resends| && timers[i].attempts == s.resends[s.outstanding[i]]
  }

  /** The scan of the first `n` elements: what is due is sent again, up to where the channel is given up. */
  ghost function ScanSteps(timers: seq<Timer>, now: int, n: nat): seq<Action>
    requires n <= |timers|
  {
    if n == 0 then []
    else
      var before := ScanSteps(timers, now, n - 1);
      if !(timers[n - 1].due < now) || exists i :: 0 <= i < n - 1 && Exhausted(timers[i], now) then before
      else before + [DueStep(timers[n - 1], n - 1, now)]
  }

  function Wires(data: set<Copy>): set<bytes> { set c | c in data :: c.wire }

  function Datagrams(pacs: seq<Packet>): set<bytes> { set pac | pac in pacs :: Marshal(pac) }

  /** From `s` to `s'` the scan `r` has taken place. */
  ghost predicate Scanning(s: System, s': System, r: Scanned) {
    && s' == s.(resends := s'.resends, data := s'.data, ended := r.gaveUp)
    && Wires(s'.data) == Wires(s.data) + Datagrams(r.sent)
    && (!r.gaveUp ==> Counts(s', r.timers))
  }

  lemma ScanNothing(s: System, timers: seq<Timer>)
    requires Counts(s, timers) && !s.ended
    ensures Scanning(s, s, Scanned(timers, [], false))
  {
  }

  lemma ResendScans(p: Suite, s: System, s1: System, r: Scanned, k: nat, now: int, tripTime: nat)
    requires Consistent(p, s1) && Scanning(s, s1, r) && !r.gaveUp && k < |s1.outstanding|
    requires r.timers[k].due < now && !Exhausted(r.timers[k], now)
    ensures Enabled(p, s1, Retransmit(k))
    ensures Scanning(s, Do(p, s1, Retransmit(k)), ScanAt(r, s1.send.queue[k], k, now, tripTime))
  {
    var s2, pac := Do(p, s1, Retransmit(k)), s1.send.queue[k];
    var r2 := ScanAt(r, pac, k, now, tripTime);
    WiresGrow(s1.data, Copy(s1.outstanding[k], Marshal(pac)));
    DatagramsGrow(r.sent, pac);
    forall i | 0 <= i < |r2.timers|
      ensures r2.timers[i].attempts == s2.resends[s2.outstanding[i]]
    {
      assert i != k ==> s1.outstanding[i] != s1.outstanding[k];
    }
  }

  lemma WiresGrow(data: set<Copy>, c: Copy)
    ensures Wires(data + {c}) == Wires(data) + {c.wire}
  {
    assert c in data + {c};
    forall w | w in Wires(data)
      ensures w in Wires(data + {c})
    {
      var d :| d in data && d.wire == w;
      assert d in data + {c};
    }
  }

  lemma DatagramsGrow(pacs: seq<Packet>, pac: Packet)
    ensures Datagrams(pacs + [pac]) == Datagrams(pacs) + {Marshal(pac)}
  {
    assert forall q :: q in pacs + [pac] <==> q in pacs || q == pac;
  }

  lemma GiveUpScans(p: Suite, s: System, s1: System, r: Scanned, k: nat, now: int, tripTime: nat)
    requires Consistent(p, s1) && Scanning(s, s1, r) && !r.gaveUp && k < |s1.outstanding|
    requires Exhausted(r.timers[k], now)
    ensures Enabled(p, s1, GiveUp(k))
    ensures Scanning(s, Do(p, s1, GiveUp(k)), ScanAt(r, s1.send.queue[k], k, now, tripTime))
  {
  }

  /** The run has done what the scan `r` has. */
  ghost predicate ScansBy(p: Suite, s: System, run: seq<Action>, r: Scanned) {
    Runs(p, s, run) && Consistent(p, After(p, s, run)) && Scanning(s, After(p, s, run), r)
  }

  /** What a scan does with a packet that is due. */
  function DueStep(t: Timer, k: nat, now: int): Action {
    if Exhausted(t, now) then GiveUp(k) else Retransmit(k)
  }

  lemma ScanOneMore(p: Suite, s: System, run: seq<Action>, r: Scanned, k: nat, now: int, tripTime: nat,
                    run': seq<Action>, r': Scanned)
    requires ScansBy(p, s, run, r) && !r.gaveUp && k < |r.timers| && r.timers[k].due < now
    requires k < |s.send.queue| && r' == ScanAt(r, s.send.queue[k], k, now, tripTime)
    requires run' == run + [DueStep(r.timers[k], k, now)]
    ensures ScansBy(p, s, run', r')
  {
    var s1, a := After(p, s, run), DueStep(r.timers[k], k, now);
    if a.GiveUp? {
      GiveUpScans(p, s, s1, r, k, now, tripTime);
    } else {
      ResendScans(p, s, s1, r, k, now, tripTime);
    }
    RunOne(p, s1, a);
    RunsAppend(p, s, run, [a]);
    SafeStepKeeps(p, s1, a);
  }

  /** A scan leaves alone what it has not come to, and does nothing more once it has given up. */
  lemma ScanNext(pacs: seq<Packet>, timers: seq<Timer>, now: int, tripTime: nat, k: nat)
    requires k < |pacs| == |timers|
    ensures var r := ScanFirst(pacs, timers, [], now, tripTime, k);
            var r' := ScanFirst(pacs, timers, [], now, tripTime, k + 1);
            var run, run' := ScanSteps(timers, now, k), ScanSteps(timers, now, k + 1);
            if r.gaveUp || !(timers[k].due < now) then r' == r && run' == run
            else
              && r.timers[k] == timers[k] && r' == ScanAt(r, pacs[k], k, now, tripTime)
              && run' == run + [DueStep(timers[k], k, now)]
  {
    ScanSendsDue(pacs, timers, [], now, tripTime, k);
  }

  /**
   A scan of the send queue is a run of the protocol: what it sends is what has come on the wire, its timers count what
   has been sent again, and it gives the channel up exactly when the run does.
   */
  lemma {:induction false} ScanIsRun(p: Suite, s: System, timers: seq<Timer>, now: int, tripTime: nat, n: nat)
    requires Consistent(p, s) && !s.ended && Counts(s, timers) && n <= |timers|
    ensures ScansBy(p, s, ScanSteps(timers, now, n), ScanFirst(s.send.queue, timers, [], now, tripTime, n))
  {
    if n == 0 {
      ScanNothing(s, timers);
    } else {
      var k, pacs := n - 1, s.send.queue;
      ScanIsRun(p, s, timers, now, tripTime, k);
      ScanNext(pacs, timers, now, tripTime, k);
      ScanMore(p, s, timers, k, now, tripTime, ScanSteps(timers, now, k), ScanFirst(pacs, timers, [], now, tripTime, k),
               ScanSteps(timers, now, n), ScanFirst(pacs, timers, [], now, tripTime, n));
    }
  }

  lemma ScanMore(p: Suite, s: System, timers: seq<Timer>, k: nat, now: int, tripTime: nat,
                 run: seq<Action>, r: Scanned, run': seq<Action>, r': Scanned)
    requires ScansBy(p, s, run, r) && k < |timers| == |r.timers| == |s.send.queue|
    requires if r.gaveUp || !(timers[k].due < now) then r' == r && run' == run
             else
               && r.timers[k] == timers[k] && r' == ScanAt(r, s.send.queue[k], k, now, tripTime)
               && run' == run + [DueStep(timers[k], k, now)]
    ensures ScansBy(p, s, run', r')
  {
    if !r.gaveUp && timers[k].due < now {
      ScanOneMore(p, s, run, r, k, now, tripTime, run', r');
    }
  }

  // ---------------------------------------------------------------- timers over a run

  /** A packet just written starts with no resends. */
  lemma EmitCounts(p: Suite, s: System, a: Action, timers: seq<Timer>, now: int, tripTime: nat)
    requires Consistent(p, s) && Counts(s, timers) && Possible(p, s, a) && a.Emit?
    ensures Counts(Do(p, s, a), timers + [FirstTimer(now, tripTime)])
  {
  }

  /** An ack takes the timer with the packet. */
  lemma AckCounts(p: Suite, s: System, a: Action, timers: seq<Timer>)
    requires Consistent(p, s) && Counts(s, timers) && Safe(p, s, a) && a.DeliverAck?
    ensures var k := Find(s.send.queue, a.c.num % LIMIT);
            Counts(Do(p, s, a), if k < |timers| then RemoveAt(timers, k) else timers)
  {
    DeliverAckEffect(p, s, a);
  }

  lemma OtherCounts(p: Suite, s: System, a: Action, timers: seq<Timer>)
    requires Consistent(p, s) && Counts(s, timers) && Safe(p, s, a)
    requires !a.Emit? && !a.DeliverAck? && !a.Retransmit?
    ensures Counts(Do(p, s, a), timers)
  {
    if a.DeliverData? {
      DeliverDataEffect(p, s, a);
    }
  }

  /** So no scan gives up unless some queued packet is due and has been sent again a hundred times. */
  lemma NoEarlyGiveUp(p: Suite, s: System, timers: seq<Timer>, now: int, tripTime: nat, n: nat)
    requires Consistent(p, s) && Counts(s, timers) && n <= |timers|
    ensures ScanFirst(s.send.queue, timers, [], now, tripTime, n).gaveUp <==>
            exists i :: 0 <= i < n && timers[i].due < now && s.resends[s.outstanding[i]] >= 100
  {
    ScanSendsDue(s.send.queue, timers, [], now, tripTime, n);
    forall i | 0 <= i < n
      ensures Exhausted(timers[i], now) <==> timers[i].due < now && s.resends[s.outstanding[i]] >= 100
    {
    }
  }
}
