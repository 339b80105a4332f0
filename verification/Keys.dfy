/**
 Why the end that connects may rely on the keys: it writes only once `Connect` has returned, and then both ends
 have one key (connect.go).
 */
module Keys {
  import opened Packets
  import opened Crypt
  import opened Protocol
  import opened Loss
  import Connect

  /** A run that meets the assumptions of safety, or all of them, but perhaps not the one about keys. */
  ghost predicate RunsButKeys(p: Suite, s: System, run: seq<Action>, bounded: bool)
    decreases |run|
  {
    run != [] ==>
      && Possible(p, s, run[0]) && InWindow(s, run[0]) && (bounded ==> Bounded(s, run[0]))
      && RunsButKeys(p, Do(p, s, run[0]), run[1..], bounded)
  }

  /** Both ends have this key, and everything was sealed under it. */
  ghost predicate OneKey(s: System, key: bytes) {
    s.writerKey == s.readerKey == key && forall i :: 0 <= i < |s.keys| ==> s.keys[i] == key
  }

  lemma OneKeyStep(p: Suite, s: System, a: Action, key: bytes)
    requires Consistent(p, s) && OneKey(s, key) && Possible(p, s, a) && InWindow(s, a) && !SetsKey(a)
    ensures Safe(p, s, a) && Consistent(p, Do(p, s, a)) && OneKey(Do(p, s, a), key)
  {
    if a.DeliverData? {
      assert Carries(p, s.keys, s.frags, a.c.num, a.c.wire);
    }
    SafeStepKeeps(p, s, a);
    FragsStay(p, s, a);
  }

  lemma {:induction false} OneKeyFits(p: Suite, s: System, run: seq<Action>, key: bytes, bounded: bool)
    requires Consistent(p, s) && OneKey(s, key) && LeavesKeys(run) && RunsButKeys(p, s, run, bounded)
    ensures SafeRun(p, s, run) && (bounded ==> Runs(p, s, run))
    decreases |run|
  {
    if run == [] {
    } else {
      assert !SetsKey(run[0]);
      OneKeyStep(p, s, run[0], key);
      OneKeyFits(p, Do(p, s, run[0]), run[1..], key, bounded);
    }
  }

  lemma OpenedConsistent(p: Suite, key: bytes)
    ensures Consistent(p, START.(writerKey := key, readerKey := key))
  {
    StartConsistent(p);
  }

  lemma KeysSetFirst(p: Suite, key: bytes, other: bytes, run: seq<Action>)
    ensures var s := START.(writerKey := key, readerKey := other);
            var whole := [SetWriterKey(key), SetReaderKey(other)] + run;
            && After(p, START, whole) == After(p, s, run)
            && (SafeRun(p, s, run) ==> SafeRun(p, START, whole)) && (Runs(p, s, run) ==> Runs(p, START, whole))
  {
    var whole := [SetWriterKey(key), SetReaderKey(other)] + run;
    assert whole[1..] == [SetReaderKey(other)] + run && whole[1..][1..] == run;
  }

  /**
   Whenever `Connect` has returned a channel, the key of the channel it returned and that of the server's channel are
   set, and whatever is written and served from then on meets the assumption about keys: a run from there, with these
   keys, that meets the other assumptions meets this one too.
   */
  lemma ConnectedKeysFit(p: Suite, r: Crypt.Rsa, client: Connect.Node, server: Connect.Node, uuid: bytes,
                         chance: Connect.Chance, steps: seq<Connect.Step>, run: seq<Action>, bounded: bool)
    requires Connect.NewAttempt(client, server, uuid)
    requires Connect.Runs(r, Connect.Begin(r, client, server, uuid, chance), uuid, steps)
    ensures var end := Connect.After(r, Connect.Begin(r, client, server, uuid, chance), uuid, steps);
            end.result.Some? ==>
              && end.result.value < |end.client.heap|
              && Connect.Sound(end.server) && Connect.CLIENT in end.server.channels
              && var key := end.client.heap[end.result.value].sessionKey;
              && var other := Connect.KeysOf(end.server, Connect.CLIENT).sessionKey;
              && key != []
              && var s := START.(writerKey := key, readerKey := other);
              LeavesKeys(run) && RunsButKeys(p, s, run, bounded) ==>
                && SafeRun(p, START, [SetWriterKey(key), SetReaderKey(other)] + run)
                && (bounded ==> Runs(p, START, [SetWriterKey(key), SetReaderKey(other)] + run))
  {
    Connect.KeyAgreement(r, client, server, uuid, chance, steps);
    var end := Connect.After(r, Connect.Begin(r, client, server, uuid, chance), uuid, steps);
    if end.result.Some? {
      var key := end.client.heap[end.result.value].sessionKey;
      if LeavesKeys(run) && RunsButKeys(p, START.(writerKey := key, readerKey := key), run, bounded) {
        ConnectedFits(p, key, run, bounded);
      }
    }
  }

  lemma ConnectedFits(p: Suite, key: bytes, run: seq<Action>, bounded: bool)
    requires LeavesKeys(run) && RunsButKeys(p, START.(writerKey := key, readerKey := key), run, bounded)
    ensures SafeRun(p, START, [SetWriterKey(key), SetReaderKey(key)] + run)
    ensures bounded ==> Runs(p, START, [SetWriterKey(key), SetReaderKey(key)] + run)
  {
    OpenedConsistent(p, key);
    OneKeyFits(p, START.(writerKey := key, readerKey := key), run, key, bounded);
    KeysSetFirst(p, key, key, run);
  }
}
