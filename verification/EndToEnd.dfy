/**
 A whole connection: messages written at one end, sent as fragments over the network, and read in pieces
 at the other (channel.go, tru.go, tru_net.go).
 */
module EndToEnd {
  import opened Crypt
  import opened Protocol
  import opened Coverage
  import opened Conn

  /** What the peer's channel has delivered is handed over to its connection in order; some may still be on its way. */
  ghost predicate HandedOver(s: System, h: History) {
    && |h.pushed| <= |s.recv.delivered|
    && forall i :: 0 <= i < |h.pushed| ==> h.pushed[i] == s.recv.delivered[i].data
  }

  /**
   Safety from end to end. In every run of the channel, and for any reads at the peer, whenever they come and into
   buffers of any sizes: the bytes read, cut at the end-of-file marks, are the messages written, in order, each once
   and whole, and then a prefix of the next one.
   */
  lemma ReadsWhatWasWritten(p: Suite, run: seq<Action>, events: seq<Event>)
    requires SafeRun(p, START, run)
    requires HandedOver(After(p, START, run), HappenAll(OPENED, events))
    ensures var written, pieces := After(p, START, run).written, Cut(HappenAll(OPENED, events).results);
            && |pieces.done| <= |written|
            && (forall i :: 0 <= i < |pieces.done| ==> pieces.done[i] == written[i].data)
            && (pieces.partial != [] ==>
                  |pieces.done| < |written| && pieces.partial <= written[|pieces.done|].data)
  {
    InOrderExactlyOnce(p, run);
    ReadsMessages(events);
  }

  /**
   Once the send queue is empty between writes, and everything delivered has been handed over to an open connection,
   enough further reads into non-empty buffers give every message written, and nothing more.
   */
  lemma ReadsEverything(p: Suite, run: seq<Action>, events: seq<Event>, more: seq<Event>)
    requires Runs(p, START, run)
    requires After(p, START, run).pending == [] && After(p, START, run).send.queue == []
    requires HandedOver(After(p, START, run), HappenAll(OPENED, events))
    requires |HappenAll(OPENED, events).pushed| == |After(p, START, run).recv.delivered|
    requires !HappenAll(OPENED, events).state.closed
    requires ReadsOnly(more) && |more| >= Work(HappenAll(OPENED, events).state)
    ensures var written, pieces := After(p, START, run).written, Cut(HappenAll(OPENED, events + more).results);
            && |pieces.done| == |written| && pieces.partial == []
            && forall i :: 0 <= i < |written| ==> pieces.done[i] == written[i].data
  {
    var h := HappenAll(OPENED, events);
    RunsAreSafe(p, START, run);
    QuiescentMeansDelivered(p, run);
    InOrderExactlyOnce(p, run);
    AlwaysInStep(OPENED, events);
    ReadsFinish(h, more);
    HappenAppend(OPENED, events, more);
  }

  lemma {:induction false} HappenAppend(h: History, a: seq<Event>, b: seq<Event>)
    ensures HappenAll(h, a + b) == HappenAll(HappenAll(h, a), b)
    decreases |a|
  {
    if a == [] {
      assert a + b == b;
    } else {
      assert (a + b)[1..] == a[1..] + b;
      HappenAppend(Happen(h, a[0]), a[1..], b);
    }
  }
}
