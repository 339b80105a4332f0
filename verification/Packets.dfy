/**
 Packets on the wire: 20-bit ids, their signed distance, and the 4-byte header (packet.go).
 Machine words are natural numbers here: masking to 20 bits is reduction modulo 2^20, and
 joining fields that do not overlap is addition.
 */
module Packets {
  type byte = x: nat | x < 0x100
  type bytes = seq<byte>
  type uint32 = x: nat | x < 0x1_0000_0000

  datatype Option<+T> = None | Some(value: T)

  const STATUS_CONNECT: byte := 0
  const STATUS_CONNECT_SERVER_ANSWER: byte := 1
  const STATUS_CONNECT_CLIENT_ANSWER: byte := 2
  const STATUS_CONNECT_DONE: byte := 3
  const STATUS_DATA: byte := 4
  const STATUS_ACK: byte := 5
  const STATUS_PING: byte := 6
  const STATUS_PONG: byte := 7
  const STATUS_DISCONNECT: byte := 8
  const STATUS_PUNCH: byte := 9
  const STATUS_SPLIT: byte := 0x80
  const STATUS_DATA_NEXT: byte := STATUS_DATA + STATUS_SPLIT

  const MAX_UDP_DATA_LENGTH: nat := 65535 - 8
  const CRYPT_AES_LENGTH: nat := 28
  const HEADER_LEN: nat := 4
  const MAX_DATA_LEN: nat := MAX_UDP_DATA_LENGTH - HEADER_LEN - CRYPT_AES_LENGTH
  const READ_BUFFER_LEN: nat := 64 * 1024

  /** Number of packet ids; ids wrap here. */
  const LIMIT: nat := 0x10_0000
  const HALF: int := LIMIT / 2

  datatype Packet = Packet(id: uint32, status: byte, data: bytes)

  // ---------------------------------------------------------------- id distance

  function ModSubU(a: uint32, b: uint32, m: nat): (r: nat)
    requires m > 0
    ensures r < m
  {
    ((a % m) + m - (b % m)) % m
  }

  /** Signed distance from the expected id to a received one. */
  function Distance(expectedID: uint32, id: uint32): int {
    if expectedID == id then 0
    else
      var diff := ModSubU(id, expectedID, LIMIT);
      if diff < HALF then diff else diff - LIMIT
  }

  lemma DistanceRange(e: uint32, i: uint32)
    ensures -HALF <= Distance(e, i) < HALF
    ensures (Distance(e, i) - (i - e)) % LIMIT == 0
  {
  }

  lemma DistanceCases(e: uint32, i: uint32)
    requires e < LIMIT && i < LIMIT
    ensures Distance(e, i) == if i - e >= HALF then i - e - LIMIT else if i - e < -HALF then i - e + LIMIT else i - e
  {
  }

  /** The distance of two wrapped ids is the true distance of their numbers exactly when that is within half the ids. */
  lemma DistanceExact(a: nat, b: nat)
    ensures -HALF <= b - a < HALF <==> Distance(a % LIMIT, b % LIMIT) == b - a
  {
  }

  /** Beyond that the distance is off by the number of ids: too far ahead looks old, and too old looks new. */
  lemma DistanceFolds(a: nat, b: nat)
    requires a <= b + LIMIT && b < a + LIMIT
    ensures Distance(a % LIMIT, b % LIMIT) ==
            if b - a >= HALF then b - a - LIMIT else if b - a < -HALF then b - a + LIMIT else b - a
  {
    DistanceCases(a % LIMIT, b % LIMIT);
    var turns := b / LIMIT - a / LIMIT;
    assert b - a == turns * LIMIT + (b % LIMIT - a % LIMIT);
  }

  lemma DistanceAntisymmetric(e: uint32, i: uint32)
    ensures Distance(e, i) == -Distance(i, e) <==> Distance(e, i) != -HALF
  {
  }

  /** Moving the expected id one on brings every id but the farthest one nearer. */
  lemma DistanceStep(e: uint32, i: uint32)
    requires e < LIMIT && i < LIMIT && Distance(e, i) > -HALF
    ensures Distance(NextID(e), i) == Distance(e, i) - 1
  {
    DistanceCases(e, i);
    DistanceCases(NextID(e), i);
  }

  lemma DistanceAhead(e: uint32, i: uint32)
    requires e < LIMIT && i < LIMIT && Distance(e, i) >= 0
    ensures (e + Distance(e, i)) % LIMIT == i
  {
  }

  lemma DistanceZero(e: uint32, i: uint32)
    requires e < LIMIT && i < LIMIT
    ensures Distance(e, i) == 0 <==> e == i
  {
  }

  /** The number nearest to `e` that wraps to `id`. */
  function SeqOf(e: nat, id: uint32): int {
    e + Distance(e % LIMIT, id)
  }

  lemma SeqOfExact(e: nat, s: nat)
    requires -HALF <= s - e < HALF
    ensures SeqOf(e, s % LIMIT) == s
  {
  }

  lemma SeqOfWraps(e: nat, id: uint32)
    requires id < LIMIT && SeqOf(e, id) >= 0
    ensures SeqOf(e, id) % LIMIT == id
  {
    DistanceRange(e % LIMIT, id);
    var x := e / LIMIT;
    assert e == x * LIMIT + e % LIMIT;
  }

  /** The id after `id`, as both counters of a channel step. */
  function NextID(id: uint32): (r: uint32)
    requires id < LIMIT
    ensures r < LIMIT
  {
    if id + 1 >= LIMIT then 0 else id + 1
  }

  lemma NextIDWraps(n: nat)
    ensures NextID(n % LIMIT) == (n + 1) % LIMIT
  {
  }

  lemma OneTurnLater(n: nat)
    ensures (n + LIMIT) % LIMIT == n % LIMIT
  {
  }

  // ---------------------------------------------------------------- header and datagram

  function PackStatID(p: Packet): uint32 {
    p.id % LIMIT + p.status * 0x100_0000
  }

  function UnpackStatID(word: uint32): (p: Packet)
    ensures p.id < LIMIT
  {
    Packet(word % LIMIT, word / 0x100_0000, [])
  }

  function PutUint32(w: uint32): (b: bytes)
    ensures |b| == 4
  {
    [w % 0x100, w / 0x100 % 0x100, w / 0x1_0000 % 0x100, w / 0x100_0000]
  }

  function Uint32(b: bytes): uint32
    requires |b| == 4
  {
    var b0: nat, b1: nat, b2: nat, b3: nat := b[0], b[1], b[2], b[3];
    b0 + 0x100 * b1 + 0x1_0000 * b2 + 0x100_0000 * b3
  }

  lemma PutUint32Inverts(b: bytes)
    requires |b| == 4
    ensures PutUint32(Uint32(b)) == b
  {
    var w: nat := Uint32(b);
    var w1: nat := b[1] as nat + 0x100 * (b[2] as nat + 0x100 * b[3] as nat);
    assert w == b[0] + 0x100 * w1 && w / 0x100 == w1;
  }

  lemma Uint32Inverts(w: uint32)
    ensures Uint32(PutUint32(w)) == w
  {
    assert w / 0x100 == w / 0x100 % 0x100 + 0x100 * (w / 0x1_0000);
    assert w / 0x1_0000 == w / 0x1_0000 % 0x100 + 0x100 * (w / 0x100_0000);
  }

  function Marshal(p: Packet): (out: bytes)
    ensures |out| == HEADER_LEN + |p.data|
  {
    PutUint32(PackStatID(p)) + p.data
  }

  /** None models the read error on a datagram too short to hold the header. */
  function Unmarshal(wire: bytes): (r: Option<Packet>)
    ensures r.Some? <==> |wire| >= HEADER_LEN
    ensures r.Some? ==> r.value.id < LIMIT
  {
    if |wire| < HEADER_LEN then None
    else Some(UnpackStatID(Uint32(wire[..HEADER_LEN])).(data := wire[HEADER_LEN..]))
  }

  lemma UnpackPack(p: Packet)
    ensures UnpackStatID(PackStatID(p)) == Packet(p.id % LIMIT, p.status, [])
  {
  }

  lemma HeaderRead(p: Packet)
    ensures Uint32(Marshal(p)[..HEADER_LEN]) == PackStatID(p) && Marshal(p)[HEADER_LEN..] == p.data
  {
    Uint32Inverts(PackStatID(p));
    assert Marshal(p)[..HEADER_LEN] == PutUint32(PackStatID(p));
  }

  /** Decoding inverts encoding for every status and data and for exactly the ids below the limit. */
  lemma UnmarshalMarshal(p: Packet)
    ensures Unmarshal(Marshal(p)) == Some(p.(id := p.id % LIMIT))
    ensures Unmarshal(Marshal(p)) == Some(p) <==> p.id < LIMIT
  {
    HeaderRead(p);
    UnpackPack(p);
  }

  lemma WordParts(b0: nat, b1: nat, b2: nat, b3: nat)
    requires b0 < 0x100 && b1 < 0x100 && b2 < 0x100 && b3 < 0x100
    ensures var w := b0 + 0x100 * b1 + 0x1_0000 * b2 + 0x100_0000 * b3;
            && w % LIMIT == b0 + 0x100 * b1 + 0x1_0000 * (b2 % 0x10) && w / 0x100_0000 == b3
  {
    var low := b0 + 0x100 * b1 + 0x1_0000 * (b2 % 0x10);
    assert b0 + 0x100 * b1 + 0x1_0000 * b2 + 0x100_0000 * b3 == low + LIMIT * (b2 / 0x10 + 0x10 * b3);
  }

  /** The header byte by byte: 20 bits of id, lowest byte first, and the status in the fourth byte. */
  lemma UnmarshalBytes(wire: bytes)
    requires |wire| >= 4
    ensures Unmarshal(wire) == Some(Packet(IdBits(wire), wire[3], wire[4..]))
  {
    WordParts(wire[0], wire[1], wire[2], wire[3]);
  }

  function IdBits(wire: bytes): (id: uint32)
    requires |wire| >= 4
    ensures id < LIMIT
  {
    var b0: nat, b1: nat, b2: nat := wire[0], wire[1], wire[2];
    b0 + 0x100 * b1 + 0x1_0000 * (b2 % 0x10)
  }

  lemma MarshalBytes(p: Packet)
    requires p.id < 0x10_0000
    ensures Marshal(p) == [p.id % 0x100, p.id / 0x100 % 0x100, p.id / 0x1_0000, p.status] + p.data
  {
    var head: bytes := [p.id % 0x100, p.id / 0x100 % 0x100, p.id / 0x1_0000, p.status];
    assert p.id == p.id % 0x100 + 0x100 * (p.id / 0x100 % 0x100) + 0x1_0000 * (p.id / 0x1_0000);
    assert PackStatID(p) == Uint32(head);
    PutUint32Inverts(head);
  }

  lemma ClearedWord(head: bytes)
    requires |head| == 4
    ensures var w, cleared := Uint32(head), head[2 := head[2] % 0x10];
            w % LIMIT + w / 0x100_0000 * 0x100_0000 == Uint32(cleared)
  {
    var low := head[0] as nat + 0x100 * head[1] as nat + 0x1_0000 * (head[2] as nat % 0x10);
    var high := head[2] as nat / 0x10 + 0x10 * head[3] as nat;
    assert Uint32(head) == low + LIMIT * high;
    assert Uint32(head) / 0x100_0000 == head[3];
  }

  lemma RepackedHeader(head: bytes, data: bytes)
    requires |head| == 4
    ensures PutUint32(PackStatID(UnpackStatID(Uint32(head)).(data := data))) == head[2 := head[2] % 0x10]
  {
    var cleared := head[2 := head[2] % 0x10];
    ClearedWord(head);
    assert PackStatID(UnpackStatID(Uint32(head)).(data := data)) == Uint32(cleared);
    PutUint32Inverts(cleared);
  }

  /** Re-encoding a received datagram reproduces it but for bits 20 to 23 of the header, which it clears. */
  lemma MarshalUnmarshal(wire: bytes)
    requires |wire| >= HEADER_LEN
    ensures Marshal(Unmarshal(wire).value) == wire[2 := wire[2] % 0x10]
  {
    var head, data := wire[..HEADER_LEN], wire[HEADER_LEN..];
    assert wire[2 := wire[2] % 0x10] == head[2 := head[2] % 0x10] + data;
    RepackedHeader(head, data);
  }
}
