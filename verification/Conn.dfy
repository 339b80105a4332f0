/** The byte-stream view of a channel: messages read in pieces, each closed by an end-of-file mark (tru_net.go). */
module Conn {
  import opened Packets

  /** What one read returns. `Closed` is the error after the connection has been closed. */
  datatype ReadResult = Data(data: bytes) | Eof | Closed

  /** `waiting` are the messages the channel reader has been handed but no read has taken yet. */
  datatype ReadState = ReadState(waiting: seq<bytes>, closed: bool, buf: bytes, cont: bool)

  const FRESH_READER := ReadState([], false, [], false)

  /** A read would wait: nothing buffered, no mark due, no message, and not closed. */
  predicate Blocks(s: ReadState) {
    s.buf == [] && !s.cont && s.waiting == [] && !s.closed
  }

  /** One read into a buffer of `size` bytes. */
  function ReadStep(s: ReadState, size: nat): (ReadState, ReadResult)
    requires !Blocks(s)
  {
    if s.buf == [] && s.cont then (s.(cont := false), Eof)
    else if s.buf == [] && s.waiting == [] then (s, Closed)
    else
      var t := if s.buf == [] then s.(buf := s.waiting[0], waiting := s.waiting[1..], cont := true) else s;
      var n := if size < |t.buf| then size else |t.buf|;
      (t.(buf := t.buf[n..]), Data(t.buf[..n]))
  }

  class Connection {
    var waiting: seq<bytes>
    var closed: bool
    var buf: bytes
    var cont: bool

    ghost function State(): ReadState
      reads this
    {
      ReadState(waiting, closed, buf, cont)
    }

    constructor ()
      ensures State() == FRESH_READER
    {
      waiting, closed, buf, cont := [], false, [], false;
    }

    /** The channel reader hands a message over; on a closed connection it is lost. */
    method Push(message: bytes)
      modifies this
      ensures State() == if old(closed) then old(State()) else old(State()).(waiting := old(waiting) + [message])
    {
      if !closed {
        waiting := waiting + [message];
      }
    }

    method Close()
      modifies this
      ensures State() == old(State()).(closed := true, waiting := [])
    {
      closed, waiting := true, [];
    }

    /** Reads into the caller's buffer; the rest of the buffer is left as it was. */
    method Read(b: array<byte>) returns (n: nat, result: ReadResult)
      requires !Blocks(State())
      modifies this, b
      ensures (State(), result) == ReadStep(old(State()), b.Length)
      ensures n == (if result.Data? then |result.data| else 0) && n <= b.Length
      ensures result.Data? ==> b[..n] == result.data
      ensures b[n..] == old(b[..])[n..]
    {
      n := 0;
      if buf == [] && cont {
        cont := false;
        return n, Eof;
      }
      if buf == [] {
        if waiting == [] {
          return n, Closed;
        }
        buf, waiting, cont := waiting[0], waiting[1..], true;
      }
      n := Copy(b, buf);
      result := Data(buf[..n]);
      buf := buf[n..];
    }
  }

  /** As many bytes of `src` as fit. */
  method Copy(b: array<byte>, src: bytes) returns (n: nat)
    modifies b
    ensures n == if b.Length < |src| then b.Length else |src|
    ensures b[..n] == src[..n] && b[n..] == old(b[..])[n..]
  {
    n := if b.Length < |src| then b.Length else |src|;
    for i := 0 to n
      invariant b[..i] == src[..i] && b[i..] == old(b[..])[i..]
    {
      b[i] := src[i];
    }
  }

  // ---------------------------------------------------------------- whole conversations

  datatype Event = Pushed(message: bytes) | Reading(size: nat) | Closing

  /** The state, all messages handed over while open, and the results of all reads that returned. */
  datatype History = History(state: ReadState, pushed: seq<bytes>, results: seq<ReadResult>)

  /** A read that would wait does not return, and so leaves no trace. */
  function Happen(h: History, e: Event): History {
    match e
    case Pushed(m) =>
      if h.state.closed then h
      else h.(state := h.state.(waiting := h.state.waiting + [m]), pushed := h.pushed + [m])
    case Closing => h.(state := h.state.(closed := true, waiting := []))
    case Reading(size) =>
      if Blocks(h.state) then h
      else
        var (s, r) := ReadStep(h.state, size);
        h.(state := s, results := h.results + [r])
  }

  function HappenAll(h: History, events: seq<Event>): History
    decreases |events|
  {
    if events == [] then h else HappenAll(Happen(h, events[0]), events[1..])
  }

  const OPENED := History(FRESH_READER, [], [])

  /** The bytes read, cut at each end-of-file mark: the finished pieces, and what came after the last mark. */
  datatype Pieces = Pieces(done: seq<bytes>, partial: bytes)

  function Cut(results: seq<ReadResult>): Pieces {
    if results == [] then Pieces([], [])
    else
      var before := Cut(results[..|results| - 1]);
      match results[|results| - 1]
      case Data(d) => before.(partial := before.partial + d)
      case Eof => Pieces(before.done + [before.partial], [])
      case Closed => before
  }

  /** What has been read and what is still to come, in messages. */
  function Flow(p: Pieces, s: ReadState): seq<bytes> {
    if s.cont then p.done + [p.partial + s.buf] + s.waiting else p.done + s.waiting
  }

  ghost predicate InStep(h: History) {
    var p := Cut(h.results);
    && (!h.state.cont ==> h.state.buf == [] && p.partial == [])
    && Flow(p, h.state) <= h.pushed && (!h.state.closed ==> Flow(p, h.state) == h.pushed)
  }

  /** The effect of one result on the pieces. */
  function AddResult(p: Pieces, r: ReadResult): Pieces {
    match r
    case Data(d) => p.(partial := p.partial + d)
    case Eof => Pieces(p.done + [p.partial], [])
    case Closed => p
  }

  lemma CutOneMore(results: seq<ReadResult>, r: ReadResult)
    ensures Cut(results + [r]) == AddResult(Cut(results), r)
  {
  }

  /** A read moves bytes from what is to come to what has been read, and changes nothing else. */
  lemma ReadKeepsFlow(p: Pieces, s: ReadState, size: nat)
    requires !Blocks(s) && (!s.cont ==> s.buf == [] && p.partial == [])
    ensures var (s', r) := ReadStep(s, size);
            && Flow(AddResult(p, r), s') == Flow(p, s) && s'.closed == s.closed
            && (!s'.cont ==> s'.buf == [] && AddResult(p, r).partial == [])
  {
    var (s', r) := ReadStep(s, size);
    if r.Eof? {
      assert p.partial + s.buf == p.partial;
    } else if r.Data? && s.buf != [] {
      assert (p.partial + r.data) + s'.buf == p.partial + s.buf;
    } else if r.Data? {
      assert (p.partial + r.data) + s'.buf == s.waiting[0];
      assert p.done + [s.waiting[0]] + s.waiting[1..] == p.done + s.waiting;
    }
  }

  lemma ReadInStep(h: History, size: nat)
    requires InStep(h) && !Blocks(h.state)
    ensures InStep(Happen(h, Reading(size)))
  {
    ReadKeepsFlow(Cut(h.results), h.state, size);
    CutOneMore(h.results, ReadStep(h.state, size).1);
  }

  lemma PushInStep(h: History, m: bytes)
    requires InStep(h) && !h.state.closed
    ensures InStep(Happen(h, Pushed(m)))
  {
  }

  lemma CloseInStep(h: History)
    requires InStep(h)
    ensures InStep(Happen(h, Closing))
  {
  }

  lemma HappenInStep(h: History, e: Event)
    requires InStep(h)
    ensures InStep(Happen(h, e))
  {
    if e.Reading? && !Blocks(h.state) {
      ReadInStep(h, e.size);
    } else if e.Pushed? && !h.state.closed {
      PushInStep(h, e.message);
    } else if e.Closing? {
      CloseInStep(h);
    }
  }

  lemma {:induction false} AlwaysInStep(h: History, events: seq<Event>)
    requires InStep(h)
    ensures InStep(HappenAll(h, events))
    decreases |events|
  {
    if events == [] {
    } else {
      HappenInStep(h, events[0]);
      AlwaysInStep(Happen(h, events[0]), events[1..]);
    }
  }

  /**
   Whatever the buffer sizes, and whenever messages arrive or the connection closes: the bytes read, cut at each
   end-of-file mark, are the messages handed over, in order, and then a prefix of the next one.
   */
  lemma ReadsMessages(events: seq<Event>)
    ensures var h := HappenAll(OPENED, events);
            var p := Cut(h.results);
            && p.done <= h.pushed
            && (p.partial != [] ==> |p.done| < |h.pushed| && p.partial <= h.pushed[|p.done|])
  {
    AlwaysInStep(OPENED, events);
    var h := HappenAll(OPENED, events);
    var p := Cut(h.results);
    var flow := Flow(p, h.state);
    assert p.done <= flow;
    if p.partial != [] {
      assert flow[|p.done|] == p.partial + h.state.buf;
    }
  }

  /** Reads still to come before everything handed over has been read and closed by its mark. */
  function Work(s: ReadState): nat {
    |s.buf| + (if s.cont then 1 else 0) + WaitingWork(s.waiting)
  }

  function WaitingWork(waiting: seq<bytes>): nat {
    if waiting == [] then 0 else |waiting[0]| + 2 + WaitingWork(waiting[1..])
  }

  /** `n` reads, all into buffers that are not empty. */
  predicate ReadsOnly(events: seq<Event>) {
    forall i :: 0 <= i < |events| ==> events[i].Reading? && events[i].size > 0
  }

  /** While there is work, a read does some of it. */
  lemma ReadWorks(h: History, size: nat)
    requires InStep(h) && Work(h.state) > 0 && !h.state.closed && size > 0
    ensures var h' := Happen(h, Reading(size));
            && !Blocks(h.state) && h'.pushed == h.pushed && !h'.state.closed && Work(h'.state) < Work(h.state)
  {
  }

  /** Enough reads into non-empty buffers finish every message, an empty one too, each with exactly one mark. */
  lemma {:induction false} ReadsFinish(h: History, events: seq<Event>)
    requires InStep(h) && !h.state.closed && ReadsOnly(events) && |events| >= Work(h.state)
    ensures HappenAll(h, events).pushed == h.pushed
    ensures Cut(HappenAll(h, events).results) == Pieces(h.pushed, [])
    decreases |events|
  {
    if Work(h.state) == 0 {
      IdleStays(h, events);
    } else {
      assert events[0].Reading?;
      ReadInStep(h, events[0].size);
      ReadWorks(h, events[0].size);
      ReadsFinish(Happen(h, events[0]), events[1..]);
    }
  }

  lemma {:induction false} IdleStays(h: History, events: seq<Event>)
    requires InStep(h) && Work(h.state) == 0 && !h.state.closed && ReadsOnly(events)
    ensures HappenAll(h, events) == h && Cut(h.results) == Pieces(h.pushed, [])
    decreases |events|
  {
    assert Cut(h.results).done + [] == Cut(h.results).done;
    if events == [] {
    } else {
      assert events[0].Reading?;
      IdleStays(h, events[1..]);
    }
  }

  // ---------------------------------------------------------------- what single reads return

  /** The connection is closed, nothing is buffered and no mark is due. */
  predicate Exhausted(s: ReadState) {
    s.closed && s.buf == [] && !s.cont && s.waiting == []
  }

  /** No read blocks for ever on a closed connection, and one returns the error exactly when nothing is left. */
  lemma ClosedWhenExhausted(s: ReadState, size: nat)
    requires !Blocks(s)
    ensures ReadStep(s, size).1 == Closed <==> Exhausted(s)
    ensures s.closed ==> !Blocks(s)
  {
  }

  /** From then on every read returns the error, whatever else happens. */
  lemma {:induction false} ClosedForEver(h: History, events: seq<Event>)
    requires Exhausted(h.state)
    ensures var h' := HappenAll(h, events);
            && Exhausted(h'.state) && h'.pushed == h.pushed && h.results <= h'.results
            && (forall i :: |h.results| <= i < |h'.results| ==> h'.results[i] == Closed)
            && |h'.results| == |h.results| + CountReads(events)
    decreases |events|
  {
    if events == [] {
    } else {
      ClosedForEver(Happen(h, events[0]), events[1..]);
    }
  }

  lemma {:induction false} NoneWaitsClosed(h: History, events: seq<Event>)
    requires h.state.closed ==> h.state.waiting == []
    ensures HappenAll(h, events).state.closed ==> HappenAll(h, events).state.waiting == []
    decreases |events|
  {
    if events == [] {
    } else {
      NoneWaitsClosed(Happen(h, events[0]), events[1..]);
    }
  }

  /** In any history a read returns the error exactly when the connection is closed, no byte left and no mark due. */
  lemma ReadsClosed(events: seq<Event>, size: nat)
    ensures var h := HappenAll(OPENED, events);
            var h' := Happen(h, Reading(size));
            && (h'.results == h.results + [Closed] <==> h.state.closed && h.state.buf == [] && !h.state.cont)
            && (h.state.closed ==> |h'.results| == |h.results| + 1)
  {
    NoneWaitsClosed(OPENED, events);
    var h := HappenAll(OPENED, events);
    if !Blocks(h.state) {
      ClosedWhenExhausted(h.state, size);
      assert (h.results + [ReadStep(h.state, size).1])[|h.results|] == ReadStep(h.state, size).1;
    }
  }

  function CountReads(events: seq<Event>): nat
    decreases |events|
  {
    if events == [] then 0 else (if events[0].Reading? then 1 else 0) + CountReads(events[1..])
  }

  function ReadsOf(size: nat, n: nat): (events: seq<Event>)
    ensures |events| == n && forall i :: 0 <= i < n ==> events[i] == Reading(size)
  {
    seq(n, _ => Reading(size))
  }

  /** A message in reads of `size` bytes: full ones, a last one that may be shorter, and the mark. */
  function ReadOut(data: bytes, size: nat): (r: seq<ReadResult>)
    requires size > 0
    ensures |r| >= 2
  {
    if |data| <= size then [Data(data), Eof] else [Data(data[..size])] + ReadOut(data[size..], size)
  }

  /** That takes as few reads as there are buffers full, and one for an empty message, and one for the mark. */
  lemma {:induction false} ReadOutCount(data: bytes, size: nat)
    requires size > 0
    ensures var n := |ReadOut(data, size)| - 1;
            |data| <= n * size && (if |data| <= size then n == 1 else (n - 1) * size < |data|)
    decreases |data|
  {
    if |data| <= size {
    } else {
      var n := |ReadOut(data[size..], size)| - 1;
      ReadOutCount(data[size..], size);
      assert (n + 1) * size == n * size + size && n * size == (n - 1) * size + size;
    }
  }

  lemma HappenTwo(h: History, size: nat)
    ensures HappenAll(h, ReadsOf(size, 2)) == Happen(Happen(h, Reading(size)), Reading(size))
  {
    var events, h1 := ReadsOf(size, 2), Happen(h, Reading(size));
    assert events[1..] == [Reading(size)] && [Reading(size)][1..] == [];
    assert HappenAll(h1, [Reading(size)]) == HappenAll(Happen(h1, Reading(size)), []);
  }

  /** What is buffered of a message is read out, and no more, open or closed. */
  lemma {:induction false} BufferReadOut(h: History, size: nat, n: nat)
    requires size > 0 && h.state.buf != [] && h.state.cont && n == |ReadOut(h.state.buf, size)|
    ensures HappenAll(h, ReadsOf(size, n)) ==
            h.(state := h.state.(buf := [], cont := false), results := h.results + ReadOut(h.state.buf, size))
    decreases |h.state.buf|
  {
    var buf, events := h.state.buf, ReadsOf(size, n);
    var h1 := Happen(h, Reading(size));
    assert events[1..] == ReadsOf(size, n - 1);
    if |buf| <= size {
      var h2 := Happen(h1, Reading(size));
      assert buf[..|buf|] == buf;
      HappenTwo(h, size);
      assert (h.results + [Data(buf)]) + [Eof] == h.results + [Data(buf), Eof];
      assert HappenAll(h, events) == h2;
    } else {
      BufferReadOut(h1, size, n - 1);
      assert (h.results + [Data(buf[..size])]) + ReadOut(buf[size..], size) == h.results + ReadOut(buf, size);
    }
  }

  /**
   A message waiting is read in as few reads as the buffers' size allows: full ones and a last one, which for an
   empty message is the only one; then one mark. What waits behind it is not touched.
   */
  lemma MessageReadOut(h: History, size: nat, n: nat)
    requires size > 0 && h.state.buf == [] && !h.state.cont && h.state.waiting != []
    requires n == |ReadOut(h.state.waiting[0], size)|
    ensures HappenAll(h, ReadsOf(size, n)) ==
            h.(state := h.state.(waiting := h.state.waiting[1..]),
               results := h.results + ReadOut(h.state.waiting[0], size))
  {
    var m := h.state.waiting[0];
    var taken := h.(state := h.state.(buf := m, cont := true, waiting := h.state.waiting[1..]));
    if m == [] {
      HappenTwo(h, size);
      assert (h.results + [Data([])]) + [Eof] == h.results + [Data([]), Eof];
      var h1 := Happen(h, Reading(size));
      assert h1 == taken.(results := h.results + [Data([])]);
    } else {
      BufferReadOut(taken, size, n);
      assert Happen(h, Reading(size)) == Happen(taken, Reading(size));
      assert ReadsOf(size, n)[0] == Reading(size);
    }
  }
}
