/**
 The payload cipher and the chunked RSA transfer (crypt.go). The hashes, AES-GCM and RSA-OAEP
 are parameters known only through the laws they satisfy; random values are arguments.
 */
module Crypt {
  import opened Packets

  const NONCE_LEN: nat := 12
  const TAG_LEN: nat := 16
  const XOR_MAX: nat := 64

  type Nonce = n: bytes | |n| == NONCE_LEN witness seq(NONCE_LEN, _ => 0)

  datatype Primitives = Primitives(
    md5: bytes -> bytes, sha1: bytes -> bytes, sha256: bytes -> bytes, sha512: bytes -> bytes,
    seal: (bytes, bytes, bytes) -> bytes, open: (bytes, bytes, bytes) -> Option<bytes>)

  /** Digest sizes, and authenticated decryption undoing encryption under one key and nonce. */
  ghost predicate Lawful(p: Primitives) {
    && (forall m :: |p.md5(m)| == 16)
    && (forall m :: |p.sha1(m)| == 20)
    && (forall m :: |p.sha256(m)| == 32)
    && (forall m :: |p.sha512(m)| == 64)
    && (forall k, n, m {:trigger p.seal(k, n, m)} ::
          |k| == 32 && |n| == NONCE_LEN ==> |p.seal(k, n, m)| == |m| + TAG_LEN)
    && (forall k, n, m {:trigger p.seal(k, n, m)} ::
          |k| == 32 && |n| == NONCE_LEN ==> p.open(k, n, p.seal(k, n, m)) == Some(m))
  }

  function Zeros(n: nat): bytes { seq(n, _ => 0) }

  ghost function ToyPrimitives(): Primitives {
    Primitives(_ => Zeros(16), _ => Zeros(20), _ => Zeros(32), _ => Zeros(64),
               (k, n, m) => m + Zeros(TAG_LEN),
               (k, n, c) => if |c| < TAG_LEN then None else Some(c[..|c| - TAG_LEN]))
  }

  type Suite = p: Primitives | Lawful(p) ghost witness ToyPrimitives()

  // ---------------------------------------------------------------- payload cipher

  function Pow2(n: nat): nat { if n == 0 then 1 else 2 * Pow2(n - 1) }

  /** Exclusive or of the low `n` bits, bit by bit. */
  function XorBits(a: nat, b: nat, n: nat): (r: nat)
    ensures r < Pow2(n)
  {
    if n == 0 then 0 else (if a % 2 == b % 2 then 0 else 1) + 2 * XorBits(a / 2, b / 2, n - 1)
  }

  lemma {:induction false} XorBitsInvolution(a: nat, b: nat, n: nat)
    requires a < Pow2(n)
    ensures XorBits(XorBits(a, b, n), b, n) == a
  {
    if n == 0 {
    } else {
      var rest := XorBits(a / 2, b / 2, n - 1);
      var x := XorBits(a, b, n);
      assert x / 2 == rest;
      XorBitsInvolution(a / 2, b / 2, n - 1);
    }
  }

  lemma EightBits()
    ensures Pow2(8) == 0x100
  {
  }

  function Xor(a: byte, b: byte): byte {
    EightBits();
    XorBits(a, b, 8)
  }

  lemma XorInvolution(a: byte, b: byte)
    ensures Xor(Xor(a, b), b) == a
  {
    EightBits();
    XorBitsInvolution(a, b, 8);
  }

  lemma {:induction false} XorBitsZero(a: nat, n: nat)
    requires a < Pow2(n)
    ensures XorBits(a, 0, n) == a
  {
    if n == 0 {
    } else {
      XorBitsZero(a / 2, n - 1);
    }
  }

  lemma {:induction false} XorBitsCancels(a: nat, b: nat, c: nat, n: nat)
    requires b < Pow2(n) && c < Pow2(n)
    ensures XorBits(a, b, n) == XorBits(a, c, n) <==> b == c
  {
    if n == 0 {
    } else {
      var x, y := XorBits(a, b, n), XorBits(a, c, n);
      assert x / 2 == XorBits(a / 2, b / 2, n - 1) && y / 2 == XorBits(a / 2, c / 2, n - 1);
      XorBitsCancels(a / 2, b / 2, c / 2, n - 1);
    }
  }

  function Bit(a: nat, k: nat): nat
    decreases k
  {
    if k == 0 then a % 2 else Bit(a / 2, k - 1)
  }

  lemma {:induction false} XorBitsAt(a: nat, b: nat, n: nat, k: nat)
    requires k < n
    ensures Bit(XorBits(a, b, n), k) == if Bit(a, k) == Bit(b, k) then 0 else 1
    decreases k
  {
    assert XorBits(a, b, n) / 2 == XorBits(a / 2, b / 2, n - 1);
    if k == 0 {
    } else {
      XorBitsAt(a / 2, b / 2, n - 1, k - 1);
    }
  }

  /** Each of the eight bits is set exactly when the two bits differ. */
  lemma XorAt(a: byte, b: byte, k: nat)
    requires k < 8
    ensures Bit(Xor(a, b), k) == if Bit(a, k) == Bit(b, k) then 0 else 1
  {
    EightBits();
    XorBitsAt(a, b, 8, k);
  }

  lemma XorZero(a: byte)
    ensures Xor(a, 0) == a
  {
    EightBits();
    XorBitsZero(a, 8);
  }

  /** Encrypting with one key byte and decrypting with another gives the byte back exactly when they are the same. */
  lemma XorTwoKeys(a: byte, b: byte, c: byte)
    ensures Xor(Xor(a, b), c) == a <==> b == c
  {
    EightBits();
    XorInvolution(a, b);
    XorBitsCancels(Xor(a, b), c, b, 8);
  }

  function XorWith(input: bytes, key: bytes): (out: bytes)
    requires input != [] ==> |key| > 0
    ensures |out| == |input|
  {
    seq(|input|, i requires 0 <= i < |input| => Xor(input[i], key[i % |key|]))
  }

  lemma XorWithInvolution(input: bytes, key: bytes)
    requires |key| > 0
    ensures XorWith(XorWith(input, key), key) == input
  {
    forall i | 0 <= i < |input|
      ensures XorWith(XorWith(input, key), key)[i] == input[i]
    {
      XorInvolution(input[i], key[i % |key|]);
    }
  }

  method XorEncryptDecrypt(input: array<byte>, key: bytes)
    requires input.Length > 0 ==> |key| > 0
    modifies input
    ensures input[..] == XorWith(old(input[..]), key)
  {
    var kl := |key|;
    for i := 0 to input.Length
      invariant forall j :: 0 <= j < i ==> input[j] == Xor(old(input[j]), key[j % kl])
      invariant forall j :: i <= j < input.Length ==> input[j] == old(input[j])
    {
      input[i] := Xor(input[i], key[i % kl]);
    }
  }

  /** The digest is chosen by payload length, so that short payloads never reuse a key byte. */
  function PacketKey(p: Suite, sessionKey: bytes, id: uint32, len: nat): (key: bytes)
    ensures |key| ==
            if len <= 16 then 16 else if len <= 20 then 20 else if len <= 32 then 32 else if len <= 64 then 64 else 32
    ensures |key| > 0 && (len <= XOR_MAX ==> len <= |key|)
  {
    var seed := sessionKey + PutUint32(id);
    if len <= 16 then p.md5(seed)
    else if len <= 20 then p.sha1(seed)
    else if len <= 32 then p.sha256(seed)
    else if len <= 64 then p.sha512(seed)
    else p.sha256(seed)
  }

  // ---------------------------------------------------------------- what the key depends on

  /** The session key and after it the four bytes of the id, lowest first: what the digest is taken of. */
  function SeedOf(sessionKey: bytes, id: uint32): bytes {
    sessionKey + [id % 0x100, id / 0x100 % 0x100, id / 0x1_0000 % 0x100, id / 0x100_0000]
  }

  /** Different session keys or ids give different seeds. */
  lemma SeedsDiffer(key: bytes, id: uint32, other: bytes, otherID: uint32)
    ensures SeedOf(key, id) == SeedOf(other, otherID) <==> key == other && id == otherID
  {
    var a, b := SeedOf(key, id), SeedOf(other, otherID);
    if a == b {
      assert |key| == |other| && key == a[..|key|] && other == b[..|key|];
      assert a[|key|..] == PutUint32(id) && b[|key|..] == PutUint32(otherID);
      Uint32Inverts(id);
      Uint32Inverts(otherID);
    }
  }

  function Ones(n: nat): bytes { seq(n, _ => 1) }

  /** A digest of `n` bytes that tells one message from all others. */
  ghost function DigestOf(seed: bytes, m: bytes, n: nat): bytes {
    if m == seed then Ones(n) else Zeros(n)
  }

  ghost function Telling(seed: bytes): Primitives {
    var toy := ToyPrimitives();
    Primitives(m => DigestOf(seed, m, 16), m => DigestOf(seed, m, 20), m => DigestOf(seed, m, 32),
               m => DigestOf(seed, m, 64), toy.seal, toy.open)
  }

  lemma TellingLawful(seed: bytes)
    ensures Lawful(Telling(seed))
  {
    assert Lawful(ToyPrimitives());
  }

  /** The packet key is a digest of the session key followed by the id, and of nothing else. */
  lemma KeyOfSeed(seed: bytes, sessionKey: bytes, id: uint32, len: nat)
    ensures Lawful(Telling(seed))
    ensures var key := PacketKey(Telling(seed), sessionKey, id, len);
            key == if SeedOf(sessionKey, id) == seed then Ones(|key|) else Zeros(|key|)
  {
    TellingLawful(seed);
    assert SeedOf(sessionKey, id) == sessionKey + PutUint32(id);
  }

  /** The two packet keys differ in every byte, for every payload length. */
  ghost predicate KeysApart(p: Suite, key: bytes, id: uint32, other: bytes, otherID: uint32) {
    forall len: nat, i {:trigger PacketKey(p, key, id, len)[i]} :: 0 <= i < |PacketKey(p, key, id, len)| ==>
      PacketKey(p, key, id, len)[i] != PacketKey(p, other, otherID, len)[i]
  }

  /**
   The key depends on the session key and on the id: if one of the two differs, and only then, there are primitives
   that obey the laws and under which the keys differ in every byte.
   */
  lemma KeysDiffer(key: bytes, id: uint32, other: bytes, otherID: uint32)
    ensures (exists p: Suite :: KeysApart(p, key, id, other, otherID)) <==> key != other || id != otherID
  {
    if key != other || id != otherID {
      var seed := SeedOf(key, id);
      TellingLawful(seed);
      SeedsDiffer(key, id, other, otherID);
      var p: Suite := Telling(seed);
      forall len: nat, i | 0 <= i < |PacketKey(p, key, id, len)|
        ensures PacketKey(p, key, id, len)[i] != PacketKey(p, other, otherID, len)[i]
      {
        KeyOfSeed(seed, key, id, len);
        KeyOfSeed(seed, other, otherID, len);
      }
      assert KeysApart(p, key, id, other, otherID);
    } else {
      forall p: Suite
        ensures !KeysApart(p, key, id, other, otherID)
      {
        assert PacketKey(p, key, id, 0)[0] == PacketKey(p, other, otherID, 0)[0];
      }
    }
  }

  function EncryptPacketData(p: Suite, sessionKey: bytes, id: uint32, nonce: Nonce, data: bytes): bytes {
    if sessionKey == [] then data
    else
      var key := PacketKey(p, sessionKey, id, |data|);
      if |data| <= XOR_MAX then XorWith(data, key) else nonce + p.seal(key, nonce, data)
  }

  function DecryptPacketData(p: Suite, sessionKey: bytes, id: uint32, data: bytes): Option<bytes> {
    if sessionKey == [] then Some(data)
    else
      var key := PacketKey(p, sessionKey, id, |data|);
      if |data| <= XOR_MAX then Some(XorWith(data, key))
      else p.open(key, data[..NONCE_LEN], data[NONCE_LEN..])
  }

  /** The sender encrypts a copy: the caller's buffer is not touched. */
  method EncryptBuffer(p: Suite, sessionKey: bytes, id: uint32, nonce: Nonce, data: array<byte>) returns (out: bytes)
    ensures out == EncryptPacketData(p, sessionKey, id, nonce, data[..])
  {
    if sessionKey == [] {
      return data[..];
    }
    var key := PacketKey(p, sessionKey, id, data.Length);
    if data.Length > XOR_MAX {
      return nonce + p.seal(key, nonce, data[..]);
    }
    var copy := new byte[data.Length](i requires 0 <= i < data.Length reads data => data[i]);
    assert copy[..] == data[..];
    XorEncryptDecrypt(copy, key);
    out := copy[..];
  }

  /** The receiver decrypts a short payload in the buffer it arrived in, and leaves a long one there encrypted. */
  method DecryptBuffer(p: Suite, sessionKey: bytes, id: uint32, data: array<byte>) returns (out: Option<bytes>)
    modifies data
    ensures out == DecryptPacketData(p, sessionKey, id, old(data[..]))
    ensures data[..] == if data.Length <= XOR_MAX then out.value else old(data[..])
  {
    if sessionKey == [] {
      return Some(data[..]);
    }
    var key := PacketKey(p, sessionKey, id, data.Length);
    if data.Length <= XOR_MAX {
      XorEncryptDecrypt(data, key);
      return Some(data[..]);
    }
    out := p.open(key, data[..NONCE_LEN], data[NONCE_LEN..]);
  }

  /** The receiver, which sees only the ciphertext, derives the sender's key and takes the sender's branch. */
  lemma CipherLength(p: Suite, sessionKey: bytes, id: uint32, nonce: Nonce, data: bytes)
    ensures var c := EncryptPacketData(p, sessionKey, id, nonce, data);
            && |c| == |data| + (if sessionKey != [] && |data| > XOR_MAX then CRYPT_AES_LENGTH else 0)
            && (|c| <= XOR_MAX <==> |data| <= XOR_MAX)
            && PacketKey(p, sessionKey, id, |c|) == PacketKey(p, sessionKey, id, |data|)
  {
  }

  lemma CipherRoundTrip(p: Suite, sessionKey: bytes, id: uint32, nonce: Nonce, data: bytes)
    ensures DecryptPacketData(p, sessionKey, id, EncryptPacketData(p, sessionKey, id, nonce, data)) == Some(data)
  {
    CipherLength(p, sessionKey, id, nonce, data);
    if sessionKey != [] {
      var key := PacketKey(p, sessionKey, id, |data|);
      if |data| <= XOR_MAX {
        XorWithInvolution(data, key);
      } else {
        var c := nonce + p.seal(key, nonce, data);
        assert c[..NONCE_LEN] == nonce && c[NONCE_LEN..] == p.seal(key, nonce, data);
      }
    }
  }

  /** What is combined with byte `i` of a short payload; without a session key, nothing. */
  function KeyByte(p: Suite, sessionKey: bytes, id: uint32, len: nat, i: nat): byte
    requires i < len <= XOR_MAX
  {
    if sessionKey == [] then 0 else PacketKey(p, sessionKey, id, len)[i]
  }

  /** Encryption and decryption of a short payload are the same, byte by byte. */
  lemma ShortCipher(p: Suite, sessionKey: bytes, id: uint32, nonce: Nonce, data: bytes)
    requires |data| <= XOR_MAX
    ensures var c := EncryptPacketData(p, sessionKey, id, nonce, data);
            DecryptPacketData(p, sessionKey, id, data) == Some(c) && |c| == |data|
  {
  }

  lemma XorWithAt(input: bytes, key: bytes, i: nat)
    requires i < |input| <= |key|
    ensures XorWith(input, key)[i] == Xor(input[i], key[i])
  {
    SmallMod(i, |key|);
  }

  lemma SmallMod(i: nat, n: nat)
    requires i < n
    ensures i % n == i
  {
  }

  lemma ShortCipherAt(p: Suite, sessionKey: bytes, id: uint32, nonce: Nonce, data: bytes, i: nat)
    requires i < |data| <= XOR_MAX && |EncryptPacketData(p, sessionKey, id, nonce, data)| == |data|
    ensures EncryptPacketData(p, sessionKey, id, nonce, data)[i] ==
            Xor(data[i], KeyByte(p, sessionKey, id, |data|, i))
  {
    if sessionKey == [] {
      XorZero(data[i]);
    } else {
      XorWithAt(data, PacketKey(p, sessionKey, id, |data|), i);
    }
  }

  /**
   Keys that differ at the two ends, one of them perhaps not set yet, or ids that do: a short payload always decrypts,
   and to what was written exactly when both give the same key bytes for this length.
   */
  lemma OtherKeyGarbles(p: Suite, key: bytes, id: uint32, other: bytes, otherID: uint32, nonce: Nonce, data: bytes)
    requires |data| <= XOR_MAX
    ensures var o := DecryptPacketData(p, other, otherID, EncryptPacketData(p, key, id, nonce, data));
            && o.Some? && |o.value| == |data|
            && (o.value == data <==>
                forall i :: 0 <= i < |data| ==>
                  KeyByte(p, key, id, |data|, i) == KeyByte(p, other, otherID, |data|, i))
  {
    var c := EncryptPacketData(p, key, id, nonce, data);
    ShortCipher(p, key, id, nonce, data);
    ShortCipher(p, other, otherID, nonce, c);
    var o := DecryptPacketData(p, other, otherID, c).value;
    forall i | 0 <= i < |data|
      ensures o[i] == data[i] <==> KeyByte(p, key, id, |data|, i) == KeyByte(p, other, otherID, |data|, i)
    {
      ShortCipherAt(p, key, id, nonce, data, i);
      ShortCipherAt(p, other, otherID, nonce, c, i);
      XorTwoKeys(data[i], KeyByte(p, key, id, |data|, i), KeyByte(p, other, otherID, |data|, i));
    }
  }

  /** Under primitives that tell ids or session keys apart, what is sealed under one does not open under another. */
  lemma NotOpenedByAnother(p: Suite, key: bytes, id: uint32, other: bytes, otherID: uint32, nonce: Nonce, data: bytes)
    requires KeysApart(p, key, id, other, otherID) && key != [] && other != [] && 0 < |data| <= 64
    ensures DecryptPacketData(p, other, otherID, EncryptPacketData(p, key, id, nonce, data)) != Some(data)
  {
    OtherKeyGarbles(p, key, id, other, otherID, nonce, data);
    assert PacketKey(p, key, id, |data|)[0] != PacketKey(p, other, otherID, |data|)[0];
    assert KeyByte(p, key, id, |data|, 0) != KeyByte(p, other, otherID, |data|, 0);
  }

  /** A longer payload goes out as the nonce and then the sealed bytes; 12 and 16 bytes longer. */
  lemma LongCipher(p: Suite, sessionKey: bytes, id: uint32, nonce: Nonce, data: bytes)
    requires sessionKey != [] && |data| > 64
    ensures var c := EncryptPacketData(p, sessionKey, id, nonce, data);
            && |c| == |data| + 28 && c[..12] == nonce
            && p.open(PacketKey(p, sessionKey, id, |data|), c[..12], c[12..]) == Some(data)
  {
    var c := nonce + p.seal(PacketKey(p, sessionKey, id, |data|), nonce, data);
    assert c[..12] == nonce && c[12..] == p.seal(PacketKey(p, sessionKey, id, |data|), nonce, data);
  }

  /**
   A fragment no longer than the default maximum fits a UDP datagram, and so the read buffer, once encrypted; and
   the default is the largest maximum of which that can be said when encryption is on.
   */
  lemma FragmentFits(p: Suite, sessionKey: bytes, id: uint32, nonce: Nonce, status: byte, data: bytes)
    ensures var wire := Marshal(Packet(id, status, EncryptPacketData(p, sessionKey, id, nonce, data)));
            && (|data| <= MAX_DATA_LEN ==> |wire| <= MAX_UDP_DATA_LENGTH < READ_BUFFER_LEN)
            && (sessionKey != [] ==> (|wire| <= MAX_UDP_DATA_LENGTH <==> |data| <= MAX_DATA_LEN))
  {
  }

  // ---------------------------------------------------------------- chunked RSA

  const MODULUS_LEN: nat := 1024 / 8
  const OAEP_HASH_LEN: nat := 32
  const SPLIT_PLAIN: nat := 62
  const SPLIT_CIPHER: nat := 128

  /** The longest message one OAEP block holds (RFC 8017, section 7.1.1). */
  const OAEP_MAX: int := MODULUS_LEN - 2 * OAEP_HASH_LEN - 2

  type PrivateKey = nat
  type PublicKey = nat

  datatype RsaPrimitives = RsaPrimitives(
    publicOf: PrivateKey -> PublicKey,
    encryptOAEP: (PublicKey, bytes, bytes) -> Option<bytes>,
    decryptOAEP: (PrivateKey, bytes) -> Option<bytes>,
    publicKeyToBytes: PublicKey -> bytes,
    bytesToPublicKey: bytes -> Option<PublicKey>)

  /** A block is encrypted exactly when it is short enough, to one modulus, and the matching private key undoes it. */
  ghost predicate RsaLawful(r: RsaPrimitives) {
    && (forall k, seed, m {:trigger r.encryptOAEP(k, seed, m)} :: r.encryptOAEP(k, seed, m).Some? <==> |m| <= OAEP_MAX)
    && (forall k, seed, m {:trigger r.encryptOAEP(k, seed, m)} ::
          |m| <= OAEP_MAX ==> |r.encryptOAEP(k, seed, m).value| == MODULUS_LEN)
    && (forall k, seed, m {:trigger r.encryptOAEP(r.publicOf(k), seed, m)} :: |m| <= OAEP_MAX ==>
          r.decryptOAEP(k, r.encryptOAEP(r.publicOf(k), seed, m).value) == Some(m))
    && (forall k: PublicKey {:trigger r.publicKeyToBytes(k)} :: r.bytesToPublicKey(r.publicKeyToBytes(k)) == Some(k))
  }

  ghost function ToyRsa(): RsaPrimitives {
    RsaPrimitives(k => k,
                  (k: PublicKey, seed: bytes, m: bytes) =>
                    if |m| > OAEP_MAX then None else Some([|m|] + m + Zeros(MODULUS_LEN - 1 - |m|)),
                  (k: PrivateKey, c: bytes) => if 0 < |c| && c[0] < |c| then Some(c[1..][..c[0]]) else None,
                  k => Zeros(k),
                  b => Some(|b|))
  }

  lemma ToyRsaLawful()
    ensures RsaLawful(ToyRsa())
  {
    var r := ToyRsa();
    forall k: PublicKey, seed: bytes, m: bytes | |m| <= OAEP_MAX
      ensures r.decryptOAEP(k, r.encryptOAEP(r.publicOf(k), seed, m).value) == Some(m)
    {
      var pad := Zeros(MODULUS_LEN - 1 - |m|);
      assert ([|m| as byte] + m + pad)[1..][..|m|] == m;
    }
  }

  type Rsa = r: RsaPrimitives | RsaLawful(r) ghost witness (ToyRsaLawful(); ToyRsa())

  function Min(a: nat, b: nat): nat { if a < b then a else b }

  function Prepend(front: bytes, rest: Option<bytes>): Option<bytes> {
    match rest case None => None case Some(r) => Some(front + r)
  }

  lemma PrependTwice(a: bytes, b: bytes, rest: Option<bytes>)
    ensures Prepend(a, Prepend(b, rest)) == Prepend(a + b, rest)
    ensures Prepend([], rest) == rest && a + [] == a
  {
    if rest.Some? {
      assert a + (b + rest.value) == (a + b) + rest.value && [] + rest.value == rest.value;
    }
  }

  /** Chunked encryption from position `i` on, in chunks of `split` bytes; `seeds` are the OAEP seeds. */
  function EncryptBy(r: Rsa, key: PublicKey, seeds: nat -> bytes, split: nat, input: bytes, i: nat): Option<bytes>
    requires split > 0
    decreases |input| - i
  {
    if i >= |input| then Some([])
    else
      match r.encryptOAEP(key, seeds(i), input[i..Min(i + split, |input|)])
      case None => None
      case Some(d) => Prepend(d, EncryptBy(r, key, seeds, split, input, i + split))
  }

  /** What `encrypt` produces from position `i` on. */
  function EncryptFrom(r: Rsa, key: PublicKey, seeds: nat -> bytes, input: bytes, i: nat): Option<bytes> {
    EncryptBy(r, key, seeds, SPLIT_PLAIN, input, i)
  }

  function DecryptFrom(r: Rsa, key: PrivateKey, input: bytes, i: nat): Option<bytes>
    decreases |input| - i
  {
    if i >= |input| then Some([])
    else
      match r.decryptOAEP(key, input[i..Min(i + SPLIT_CIPHER, |input|)])
      case None => None
      case Some(d) => Prepend(d, DecryptFrom(r, key, input, i + SPLIT_CIPHER))
  }

  method Encrypt(r: Rsa, key: PublicKey, seeds: nat -> bytes, input: bytes) returns (data: Option<bytes>)
    ensures data == EncryptFrom(r, key, seeds, input, 0)
  {
    var i, acc: bytes := 0, [];
    PrependTwice([], [], EncryptFrom(r, key, seeds, input, 0));
    while i < |input|
      invariant EncryptFrom(r, key, seeds, input, 0) == Prepend(acc, EncryptFrom(r, key, seeds, input, i))
      decreases |input| - i
    {
      var d := r.encryptOAEP(key, seeds(i), input[i..Min(i + SPLIT_PLAIN, |input|)]);
      if d.None? {
        return None;
      }
      PrependTwice(acc, d.value, EncryptFrom(r, key, seeds, input, i + SPLIT_PLAIN));
      acc, i := acc + d.value, i + SPLIT_PLAIN;
    }
    PrependTwice(acc, [], None);
    data := Some(acc);
  }

  method Decrypt(r: Rsa, key: PrivateKey, input: bytes) returns (data: Option<bytes>)
    ensures data == DecryptFrom(r, key, input, 0)
  {
    var i, acc: bytes := 0, [];
    PrependTwice([], [], DecryptFrom(r, key, input, 0));
    while i < |input|
      invariant DecryptFrom(r, key, input, 0) == Prepend(acc, DecryptFrom(r, key, input, i))
      decreases |input| - i
    {
      var d := r.decryptOAEP(key, input[i..Min(i + SPLIT_CIPHER, |input|)]);
      if d.None? {
        return None;
      }
      PrependTwice(acc, d.value, DecryptFrom(r, key, input, i + SPLIT_CIPHER));
      acc, i := acc + d.value, i + SPLIT_CIPHER;
    }
    PrependTwice(acc, [], None);
    data := Some(acc);
  }

  lemma {:induction false} SmallChunksWork(r: Rsa, key: PublicKey, seeds: nat -> bytes, split: nat, input: bytes,
                                           i: nat)
    requires 0 < split <= OAEP_MAX
    ensures EncryptBy(r, key, seeds, split, input, i).Some?
    decreases |input| - i
  {
    if i >= |input| {
    } else {
      assert |input[i..Min(i + split, |input|)]| <= OAEP_MAX;
      SmallChunksWork(r, key, seeds, split, input, i + split);
    }
  }

  lemma LongFirstChunk(r: Rsa, key: PublicKey, seeds: nat -> bytes, split: nat, input: bytes)
    requires split > OAEP_MAX && |input| == split
    ensures EncryptBy(r, key, seeds, split, input, 0).None?
  {
    assert |input[0..Min(0 + split, |input|)]| > OAEP_MAX;
  }

  /** The chunk size is the largest under which every input can be encrypted. */
  lemma ChunkSizeIsMaximal(r: Rsa, key: PublicKey, seeds: nat -> bytes, split: nat)
    requires split > 0
    ensures (forall input: bytes :: EncryptBy(r, key, seeds, split, input, 0).Some?) <==> split <= 62
  {
    if split <= SPLIT_PLAIN {
      forall input: bytes
        ensures EncryptBy(r, key, seeds, split, input, 0).Some?
      {
        SmallChunksWork(r, key, seeds, split, input, 0);
      }
    } else {
      LongFirstChunk(r, key, seeds, split, Zeros(split));
    }
  }

  lemma {:induction false} EncryptFromLength(r: Rsa, key: PublicKey, seeds: nat -> bytes, input: bytes, i: nat)
    ensures EncryptFrom(r, key, seeds, input, i).Some?
    ensures |EncryptFrom(r, key, seeds, input, i).value| ==
            128 * (if i >= |input| then 0 else (|input| - i + 61) / 62)
    decreases |input| - i
  {
    if i >= |input| {
    } else {
      EncryptFromLength(r, key, seeds, input, i + SPLIT_PLAIN);
      assert |input[i..Min(i + SPLIT_PLAIN, |input|)]| <= OAEP_MAX;
    }
  }

  /** Block `k` of the ciphertext is chunk `k` of the input, under a seed of its own. */
  lemma {:induction false} EncryptChunk(r: Rsa, key: PublicKey, seeds: nat -> bytes, input: bytes, i: nat, k: nat)
    requires i + 62 * k < |input|
    ensures var c := EncryptFrom(r, key, seeds, input, i);
            var chunk := input[i + 62 * k..Min(i + 62 * k + 62, |input|)];
            && c.Some? && 128 * k + 128 <= |c.value|
            && r.encryptOAEP(key, seeds(i + 62 * k), chunk) == Some(c.value[128 * k..128 * k + 128])
    decreases k
  {
    EncryptFromLength(r, key, seeds, input, i);
    var first := input[i..Min(i + SPLIT_PLAIN, |input|)];
    assert |first| <= OAEP_MAX;
    var d := r.encryptOAEP(key, seeds(i), first).value;
    var rest := EncryptFrom(r, key, seeds, input, i + SPLIT_PLAIN).value;
    if k == 0 {
      assert (d + rest)[0..128] == d;
    } else {
      EncryptChunk(r, key, seeds, input, i + 62, k - 1);
      assert (d + rest)[128 * k..128 * k + 128] == rest[128 * (k - 1)..128 * (k - 1) + 128];
    }
  }

  lemma {:induction false} DecryptSkips(r: Rsa, key: PrivateKey, block: bytes, rest: bytes, i: nat)
    requires |block| == SPLIT_CIPHER
    ensures DecryptFrom(r, key, block + rest, SPLIT_CIPHER + i) == DecryptFrom(r, key, rest, i)
    decreases |rest| - i
  {
    if i >= |rest| {
    } else {
      var j := Min(i + SPLIT_CIPHER, |rest|);
      assert (block + rest)[SPLIT_CIPHER + i..SPLIT_CIPHER + j] == rest[i..j];
      DecryptSkips(r, key, block, rest, i + SPLIT_CIPHER);
    }
  }

  lemma {:induction false} RsaRoundTripFrom(r: Rsa, key: PrivateKey, seeds: nat -> bytes, input: bytes, i: nat)
    ensures var c := EncryptFrom(r, r.publicOf(key), seeds, input, i);
            c.Some? && DecryptFrom(r, key, c.value, 0) == Some(if i >= |input| then [] else input[i..])
    decreases |input| - i
  {
    if i >= |input| {
    } else {
      var j := Min(i + SPLIT_PLAIN, |input|);
      var chunk := input[i..j];
      assert |chunk| <= OAEP_MAX;
      var block := r.encryptOAEP(r.publicOf(key), seeds(i), chunk).value;
      RsaRoundTripFrom(r, key, seeds, input, i + SPLIT_PLAIN);
      var rest := EncryptFrom(r, r.publicOf(key), seeds, input, i + SPLIT_PLAIN).value;
      assert (block + rest)[0..Min(SPLIT_CIPHER, |block + rest|)] == block;
      DecryptSkips(r, key, block, rest, 0);
      assert chunk + (if j >= |input| then [] else input[j..]) == input[i..];
    }
  }

  lemma RsaRoundTrip(r: Rsa, key: PrivateKey, seeds: nat -> bytes, input: bytes)
    ensures var c := EncryptFrom(r, r.publicOf(key), seeds, input, 0);
            c.Some? && DecryptFrom(r, key, c.value, 0) == Some(input)
  {
    RsaRoundTripFrom(r, key, seeds, input, 0);
    assert input == [] || input[0..] == input;
  }
}
