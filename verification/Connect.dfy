/**
 The four-message handshake (connect.go), with channel objects named by references so that a connection
 entry and the channel table can share one. RSA is symbolic; random values come with each step.
 */
module Connect {
  import opened Packets
  import opened Crypt

  type Addr = nat
  type Ref = nat

  /** The cryptographic state of a channel object. */
  datatype ChannelKeys = ChannelKeys(privateKey: PrivateKey, sessionKey: bytes)

  /** A connection attempt of this node: its channel once there is one, and whether the waiter has been told. */
  datatype Entry = Entry(ch: Option<Ref>, told: bool)

  /** A node: its common private key, its channel objects, the channel table and the connection attempts. */
  datatype Node = Node(
    privateKey: Option<PrivateKey>, heap: seq<ChannelKeys>, channels: map<Addr, Ref>, connects: map<bytes, Entry>)

  const SESSION_KEY_LEN: nat := 32

  /** A session key is a SHA-256 digest. */
  type SessionKey = k: bytes | |k| == SESSION_KEY_LEN witness Zeros(SESSION_KEY_LEN)

  /** Random choices: a private key, OAEP seeds and a session key. */
  datatype Chance = Chance(privateKey: PrivateKey, seeds: nat -> bytes, sessionKey: SessionKey)

  predicate Sound(n: Node) {
    && (forall a :: a in n.channels ==> n.channels[a] < |n.heap|)
    && (forall u :: u in n.connects && n.connects[u].ch.Some? ==> n.connects[u].ch.value < |n.heap|)
  }

  // ---------------------------------------------------------------- connection payloads

  datatype Payload = Payload(uuid: bytes, data: bytes)

  /** The length byte is a truncating conversion. */
  function MarshalPayload(p: Payload): bytes {
    [|p.uuid| % 0x100] + p.uuid + p.data
  }

  function UnmarshalPayload(b: bytes): Option<Payload> {
    if b == [] || b[0] > |b| - 1 then None
    else
      var l := b[0];
      Some(Payload(b[1..1 + l], b[1 + l..]))
  }

  /** A payload survives exactly when its uuid is short enough for the length byte. */
  lemma PayloadRoundTrip(p: Payload)
    ensures UnmarshalPayload(MarshalPayload(p)) == Some(p) <==> |p.uuid| < 0x100
  {
  }

  /** A payload on the wire: the length of the uuid, the uuid, and the data; what is too short for that is refused. */
  lemma PayloadBytes(b: bytes, p: Payload)
    ensures |p.uuid| < 0x100 ==> (UnmarshalPayload(b) == Some(p) <==> b == [|p.uuid|] + p.uuid + p.data)
    ensures UnmarshalPayload(b).None? <==> b == [] || |b| - 1 < b[0] as int
  {
    if UnmarshalPayload(b) == Some(p) {
      assert b == [b[0]] + b[1..1 + b[0]] + b[1 + b[0]..];
    }
    if b == [|p.uuid| % 0x100] + p.uuid + p.data && |p.uuid| < 0x100 {
      assert b[1..1 + |p.uuid|] == p.uuid && b[1 + |p.uuid|..] == p.data;
    }
  }

  // ---------------------------------------------------------------- serving one connect packet

  /** The key of a new crypt object: the node's own, made now if there is none. */
  function NewCrypt(n: Node, generated: PrivateKey): (Node, PrivateKey) {
    match n.privateKey
    case Some(k) => (n, k)
    case None => (n.(privateKey := Some(generated)), generated)
  }

  /** Whatever crypt objects a node makes hold one private key: the one it advertises is the one it decrypts with. */
  lemma CryptsShareKey(n: Node, g1: PrivateKey, g2: PrivateKey)
    ensures NewCrypt(NewCrypt(n, g1).0, g2) == NewCrypt(n, g1)
  {
  }

  function NewChannel(n: Node, addr: Addr, generated: PrivateKey): (r: (Node, Ref))
    ensures r.1 < |r.0.heap|
  {
    var (n1, key) := NewCrypt(n, generated);
    (n1.(heap := n1.heap + [ChannelKeys(key, [])], channels := n1.channels[addr := |n1.heap|]), |n1.heap|)
  }

  function SetSessionKey(n: Node, ch: Ref, key: bytes): Node
    requires ch < |n.heap|
  {
    n.(heap := n.heap[ch := n.heap[ch].(sessionKey := key)])
  }

  /** The node afterwards, the packet it answers with, and whether serving failed. */
  datatype Reply = Reply(node: Node, answer: Option<Packet>, failed: bool)

  function Answer(status: byte, p: Payload): Option<Packet> {
    Some(Packet(0, status, MarshalPayload(p)))
  }

  /** Server: a channel is made, and its public key goes back under the client's. */
  function OnConnect(r: Rsa, n: Node, from: Addr, p: Payload, chance: Chance): Reply {
    var (n1, ch) := NewChannel(n, from, chance.privateKey);
    match r.bytesToPublicKey(p.data)
    case None => Reply(n1, None, true)
    case Some(clientKey) =>
      var own := r.publicKeyToBytes(r.publicOf(n1.heap[ch].privateKey));
      match EncryptFrom(r, clientKey, chance.seeds, own, 0)
      case None => Reply(n1, None, true)
      case Some(c) => Reply(n1, Answer(STATUS_CONNECT_SERVER_ANSWER, p.(data := c)), false)
  }

  /** Client: a channel and a session key are made; the key goes to the server under its public key. */
  function OnServerAnswer(r: Rsa, n: Node, from: Addr, p: Payload, chance: Chance): Reply {
    if p.uuid !in n.connects then Reply(n, None, true)
    else
      var (n1, ch) := NewChannel(n, from, chance.privateKey);
      var n2 := n1.(connects := n1.connects[p.uuid := n1.connects[p.uuid].(ch := Some(ch))]);
      match DecryptFrom(r, n2.heap[ch].privateKey, p.data, 0)
      case None => Reply(n2, None, true)
      case Some(plain) =>
        match r.bytesToPublicKey(plain)
        case None => Reply(n2, None, true)
        case Some(serverKey) =>
          match EncryptFrom(r, serverKey, chance.seeds, chance.sessionKey, 0)
          case None => Reply(n2, None, true)
          case Some(c) =>
            Reply(SetSessionKey(n2, ch, chance.sessionKey), Answer(STATUS_CONNECT_CLIENT_ANSWER, p.(data := c)), false)
  }

  /** Server: the session key is taken over. */
  function OnClientAnswer(r: Rsa, n: Node, from: Addr, p: Payload): Reply
    requires Sound(n)
  {
    if from !in n.channels then Reply(n, None, true)
    else
      match DecryptFrom(r, n.heap[n.channels[from]].privateKey, p.data, 0)
      case None => Reply(n, None, true)
      case Some(key) =>
        Reply(SetSessionKey(n, n.channels[from], key), Answer(STATUS_CONNECT_DONE, p.(data := [])), false)
  }

  /** Client: the waiting attempt is told. */
  function OnDone(n: Node, p: Payload): Reply {
    if p.uuid !in n.connects then Reply(n, None, true)
    else Reply(n.(connects := n.connects[p.uuid := n.connects[p.uuid].(told := true)]), None, false)
  }

  function ServeConnect(r: Rsa, n: Node, from: Addr, pac: Packet, chance: Chance): Reply
    requires Sound(n)
  {
    if pac.status > STATUS_CONNECT_DONE then Reply(n, None, true)
    else
      match UnmarshalPayload(pac.data)
      case None => Reply(n, None, true)
      case Some(p) =>
        if pac.status == STATUS_CONNECT then OnConnect(r, n, from, p, chance)
        else if pac.status == STATUS_CONNECT_SERVER_ANSWER then OnServerAnswer(r, n, from, p, chance)
        else if pac.status == STATUS_CONNECT_CLIENT_ANSWER then OnClientAnswer(r, n, from, p)
        else OnDone(n, p)
  }

  /** A connect packet replaces an existing channel; a failure on an existing channel removes it. */
  function Serve(r: Rsa, n: Node, from: Addr, pac: Packet, chance: Chance): (reply: Reply)
    requires Sound(n)
  {
    var existed := from in n.channels;
    var n1 := if existed && pac.status == STATUS_CONNECT then n.(channels := n.channels - {from}) else n;
    var reply := ServeConnect(r, n1, from, pac, chance);
    if existed && reply.failed then reply.(node := reply.node.(channels := reply.node.channels - {from})) else reply
  }

  lemma ServeConnectSound(r: Rsa, n: Node, from: Addr, pac: Packet, chance: Chance)
    requires Sound(n)
    ensures Sound(ServeConnect(r, n, from, pac, chance).node)
  {
  }

  lemma RemovalSound(n: Node, from: Addr)
    requires Sound(n)
    ensures Sound(n.(channels := n.channels - {from}))
  {
  }

  /** Whatever packet is served, references stay within the heap. */
  lemma ServeSound(r: Rsa, n: Node, from: Addr, pac: Packet, chance: Chance)
    requires Sound(n)
    ensures Sound(Serve(r, n, from, pac, chance).node)
  {
    RemovalSound(n, from);
    var n1 := if from in n.channels && pac.status == STATUS_CONNECT then n.(channels := n.channels - {from}) else n;
    ServeConnectSound(r, n1, from, pac, chance);
    RemovalSound(ServeConnect(r, n1, from, pac, chance).node, from);
  }

  /** When serving a connect packet fails, given that the address may have a channel from before. */
  predicate Fails(r: Rsa, n: Node, from: Addr, pac: Packet, generated: PrivateKey)
    requires Sound(n)
  {
    var own := if n.privateKey.Some? then n.privateKey.value else generated;
    var p := UnmarshalPayload(pac.data);
    || p.None?
    || pac.status > 3
    || (pac.status == 0 && r.bytesToPublicKey(p.value.data).None?)
    || (pac.status == 1 &&
        (p.value.uuid !in n.connects
         || DecryptFrom(r, own, p.value.data, 0).None?
         || r.bytesToPublicKey(DecryptFrom(r, own, p.value.data, 0).value).None?))
    || (pac.status == 2 &&
        (from !in n.channels || DecryptFrom(r, n.heap[n.channels[from]].privateKey, p.value.data, 0).None?))
    || (pac.status == 3 && p.value.uuid !in n.connects)
  }

  lemma ConnectFails(r: Rsa, n: Node, from: Addr, pac: Packet, chance: Chance)
    requires Sound(n)
    ensures ServeConnect(r, n, from, pac, chance).failed <==> Fails(r, n, from, pac, chance.privateKey)
  {
    if UnmarshalPayload(pac.data).Some? {
      var p := UnmarshalPayload(pac.data).value;
      var (n1, ch) := NewChannel(n, from, chance.privateKey);
      var plain := DecryptFrom(r, n1.heap[ch].privateKey, p.data, 0);
      if r.bytesToPublicKey(p.data).Some? {
        EncryptFromLength(r, r.bytesToPublicKey(p.data).value, chance.seeds,
                          r.publicKeyToBytes(r.publicOf(n1.heap[ch].privateKey)), 0);
      }
      if plain.Some? && r.bytesToPublicKey(plain.value).Some? {
        EncryptFromLength(r, r.bytesToPublicKey(plain.value).value, chance.seeds, chance.sessionKey, 0);
      }
    }
  }

  ghost predicate SameOthers(n: Node, n': Node, from: Addr) {
    && n'.channels.Keys <= n.channels.Keys + {from}
    && forall a :: a in n.channels && a != from ==> a in n'.channels && n'.channels[a] == n.channels[a]
  }

  lemma AnswersSameOthers(r: Rsa, n: Node, from: Addr, p: Payload, chance: Chance)
    ensures SameOthers(n, OnConnect(r, n, from, p, chance).node, from)
    ensures SameOthers(n, OnServerAnswer(r, n, from, p, chance).node, from)
  {
  }

  /** A connect packet leaves the channels of all other addresses as they are. */
  lemma OthersUntouched(r: Rsa, n: Node, from: Addr, pac: Packet, chance: Chance)
    requires Sound(n)
    ensures SameOthers(n, ServeConnect(r, n, from, pac, chance).node, from)
  {
    if UnmarshalPayload(pac.data).Some? {
      AnswersSameOthers(r, n, from, UnmarshalPayload(pac.data).value, chance);
    }
  }

  /**
   What serving a connect packet does to the channel table, for every node, address and packet: if it fails, a channel
   that the address had is gone; all other addresses keep theirs. It fails for an unreadable payload, an unknown uuid,
   a key that cannot be decrypted or read, and a client answer without a channel, and for nothing else.
   */
  lemma FailureRemovesChannel(r: Rsa, n: Node, from: Addr, pac: Packet, chance: Chance)
    requires Sound(n)
    ensures var reply := Serve(r, n, from, pac, chance);
            && (from in n.channels && reply.failed ==> from !in reply.node.channels)
            && (forall a :: a != from ==>
                  && (a in reply.node.channels <==> a in n.channels)
                  && (a in n.channels ==> reply.node.channels[a] == n.channels[a]))
            && (reply.failed <==> Fails(r, n, from, pac, chance.privateKey))
            && (!reply.failed && pac.status <= 2 ==> from in reply.node.channels)
  {
    var n1 := if from in n.channels && pac.status == STATUS_CONNECT then n.(channels := n.channels - {from}) else n;
    RemovalSound(n, from);
    ConnectFails(r, n1, from, pac, chance);
    OthersUntouched(r, n1, from, pac, chance);
    SuccessHasChannel(r, n1, from, pac, chance);
  }

  lemma SuccessHasChannel(r: Rsa, n: Node, from: Addr, pac: Packet, chance: Chance)
    requires Sound(n)
    ensures var reply := ServeConnect(r, n, from, pac, chance);
            !reply.failed && pac.status <= 2 ==> from in reply.node.channels
  {
  }

  /** The channel objects of a node, by private key and session key, after one more has been made. */
  function OneMore(n: Node, generated: PrivateKey, sessionKey: bytes): seq<ChannelKeys> {
    n.heap + [ChannelKeys(if n.privateKey.Some? then n.privateKey.value else generated, sessionKey)]
  }

  /**
   What a packet that is served without failure does. The first makes a channel that has no key yet; the second makes
   one with the new key, for the attempt that waits; the third gives the server's channel the key it carries, and is
   answered with the bare uuid; the fourth tells the attempt that waits.
   */
  lemma WhatServingDoes(r: Rsa, n: Node, from: Addr, pac: Packet, chance: Chance)
    requires Sound(n) && !Serve(r, n, from, pac, chance).failed
    ensures UnmarshalPayload(pac.data).Some?
    ensures var p := UnmarshalPayload(pac.data).value;
            var reply := Serve(r, n, from, pac, chance);
            var n' := reply.node;
            && (pac.status == 0 ==>
                  && n'.heap == OneMore(n, chance.privateKey, []) && n'.channels == n.channels[from := |n.heap|]
                  && n'.connects == n.connects)
            && (pac.status == 1 ==>
                  && n'.heap == OneMore(n, chance.privateKey, chance.sessionKey)
                  && n'.channels == n.channels[from := |n.heap|] && p.uuid in n.connects
                  && n'.connects == n.connects[p.uuid := Entry(Some(|n.heap|), n.connects[p.uuid].told)])
            && (pac.status == 2 ==>
                  && from in n.channels
                  && var ch := n.channels[from];
                  && var key := DecryptFrom(r, n.heap[ch].privateKey, p.data, 0);
                  && key.Some?
                  && n' == n.(heap := n.heap[ch := ChannelKeys(n.heap[ch].privateKey, key.value)])
                  && reply.answer == Some(Packet(0, 3, [|p.uuid| % 0x100] + p.uuid)))
            && (pac.status == 3 ==>
                  && p.uuid in n.connects && reply.answer == None
                  && n' == n.(connects := n.connects[p.uuid := Entry(n.connects[p.uuid].ch, true)]))
  {
    FailureRemovesChannel(r, n, from, pac, chance);
    var uuid := UnmarshalPayload(pac.data).value.uuid;
    assert MarshalPayload(Payload(uuid, [])) == [|uuid| % 0x100] + uuid;
  }

  /** Each packet but the last is answered with the next, under the same uuid. */
  lemma WhatIsAnswered(r: Rsa, n: Node, from: Addr, pac: Packet, chance: Chance)
    requires Sound(n) && !Serve(r, n, from, pac, chance).failed
    ensures UnmarshalPayload(pac.data).Some?
    ensures var answer := Serve(r, n, from, pac, chance).answer;
            && (answer.Some? <==> pac.status <= 2)
            && (answer.Some? ==>
                  && answer.value.id == 0 && answer.value.status == pac.status + 1
                  && UnmarshalPayload(answer.value.data).Some?
                  && UnmarshalPayload(answer.value.data).value.uuid == UnmarshalPayload(pac.data).value.uuid)
  {
  }

  /** Serving has made a channel before it fails: for a connect packet, or for an answer to an attempt that waits. */
  predicate MakesChannel(n: Node, pac: Packet) {
    var p := UnmarshalPayload(pac.data);
    p.Some? && (pac.status == 0 || (pac.status == 1 && p.value.uuid in n.connects))
  }

  /**
   A packet that fails is not answered. A new channel that it has made stays in the table if the address had none
   before, and is the one of the attempt in either case; nothing else changes.
   */
  lemma WhatFailingDoes(r: Rsa, n: Node, from: Addr, pac: Packet, chance: Chance)
    requires Sound(n) && Serve(r, n, from, pac, chance).failed
    ensures var reply := Serve(r, n, from, pac, chance);
            var n' := reply.node;
            && reply.answer == None
            && n'.channels == (if from !in n.channels && MakesChannel(n, pac) then n.channels[from := |n.heap|]
                               else n.channels - {from})
            && n'.heap == (if MakesChannel(n, pac) then OneMore(n, chance.privateKey, []) else n.heap)
            && n'.connects ==
               if MakesChannel(n, pac) && pac.status == 1 then
                 var uuid := UnmarshalPayload(pac.data).value.uuid;
                 n.connects[uuid := Entry(Some(|n.heap|), n.connects[uuid].told)]
               else n.connects
  {
  }

  // ---------------------------------------------------------------- one attempt over a lossy network

  const CLIENT: Addr := 1
  const SERVER: Addr := 2

  datatype Message = ToServer(pac: Packet) | ToClient(pac: Packet)

  /** Both nodes, the packets under way, and what the client's `Connect` has returned. */
  datatype Attempt = Attempt(client: Node, server: Node, net: multiset<Message>, result: Option<Ref>)

  /**
   The uuid is new. Otherwise the nodes are in any state: they may have channels and attempts with others, and
   also channels with each other left over from an earlier attempt, which a reconnect replaces.
   */
  ghost predicate NewAttempt(client: Node, server: Node, uuid: bytes) {
    Sound(client) && Sound(server) && |uuid| < 0x100 && uuid !in client.connects
  }

  /** `Connect`: the client advertises its public key and waits. */
  function Begin(r: Rsa, client: Node, server: Node, uuid: bytes, chance: Chance): Attempt {
    var (n, key) := NewCrypt(client, chance.privateKey);
    var p := Payload(uuid, r.publicKeyToBytes(r.publicOf(key)));
    Attempt(n.(connects := n.connects[uuid := Entry(None, false)]), server,
            multiset{ToServer(Packet(0, STATUS_CONNECT, MarshalPayload(p)))}, None)
  }

  datatype Step =
    | Lose(m: Message)
    | Deliver(m: Message, chance: Chance)
    | GiveUp
    | Return

  /** A packet may be lost or late, but it arrives at most once. */
  ghost predicate Enabled(s: Attempt, uuid: bytes, step: Step) {
    match step
    case Lose(m) => m in s.net
    case Deliver(m, _) => m in s.net && Sound(s.client) && Sound(s.server)
    case GiveUp => uuid in s.client.connects
    case Return => uuid in s.client.connects && s.client.connects[uuid].told
  }

  ghost function Do(r: Rsa, s: Attempt, uuid: bytes, step: Step): Attempt
    requires Enabled(s, uuid, step)
  {
    match step
    case Lose(m) => s.(net := s.net - multiset{m})
    case Deliver(m, chance) =>
      var rest := s.net - multiset{m};
      if m.ToServer? then
        var reply := Serve(r, s.server, CLIENT, m.pac, chance);
        s.(server := reply.node,
           net := if reply.answer.Some? then rest + multiset{ToClient(reply.answer.value)} else rest)
      else
        var reply := Serve(r, s.client, SERVER, m.pac, chance);
        s.(client := reply.node,
           net := if reply.answer.Some? then rest + multiset{ToServer(reply.answer.value)} else rest)
    case GiveUp => s.(client := s.client.(connects := s.client.connects - {uuid}))
    case Return =>
      s.(client := s.client.(connects := s.client.connects - {uuid}), result := s.client.connects[uuid].ch)
  }

  ghost predicate Runs(r: Rsa, s: Attempt, uuid: bytes, run: seq<Step>)
    decreases |run|
  {
    run != [] ==> Enabled(s, uuid, run[0]) && Runs(r, Do(r, s, uuid, run[0]), uuid, run[1..])
  }

  ghost function After(r: Rsa, s: Attempt, uuid: bytes, run: seq<Step>): Attempt
    requires Runs(r, s, uuid, run)
    decreases |run|
  {
    if run == [] then s else After(r, Do(r, s, uuid, run[0]), uuid, run[1..])
  }

  // ---------------------------------------------------------------- what every step keeps

  function KeysOf(n: Node, a: Addr): ChannelKeys
    requires Sound(n) && a in n.channels
  {
    n.heap[n.channels[a]]
  }

  /** Both ends have a channel, with the same session key, and that is not empty. */
  ghost predicate Agreed(s: Attempt) {
    && Sound(s.client) && Sound(s.server) && SERVER in s.client.channels && CLIENT in s.server.channels
    && KeysOf(s.client, SERVER).sessionKey == KeysOf(s.server, CLIENT).sessionKey != []
  }

  /** What a packet under way says about the state of both ends. */
  ghost predicate MessageOk(r: Rsa, s: Attempt, uuid: bytes, m: Message)
    requires Sound(s.client) && Sound(s.server)
  {
    && UnmarshalPayload(m.pac.data).Some? && UnmarshalPayload(m.pac.data).value.uuid == uuid
    && var data := UnmarshalPayload(m.pac.data).value.data;
    match m
    case ToServer(pac) =>
      if pac.status == STATUS_CONNECT then
        && s.client.privateKey.Some?
        && data == r.publicKeyToBytes(r.publicOf(s.client.privateKey.value))
      else
        && pac.status == STATUS_CONNECT_CLIENT_ANSWER
        && SERVER in s.client.channels && CLIENT in s.server.channels
        && (uuid in s.client.connects ==> s.client.connects[uuid].ch.Some?)
        && KeysOf(s.client, SERVER).sessionKey != []
        && DecryptFrom(r, KeysOf(s.server, CLIENT).privateKey, data, 0) == Some(KeysOf(s.client, SERVER).sessionKey)
    case ToClient(pac) =>
      if pac.status == STATUS_CONNECT_SERVER_ANSWER then
        && s.client.privateKey.Some? && CLIENT in s.server.channels
        && DecryptFrom(r, s.client.privateKey.value, data, 0) ==
           Some(r.publicKeyToBytes(r.publicOf(KeysOf(s.server, CLIENT).privateKey)))
      else
        && pac.status == STATUS_CONNECT_DONE && Agreed(s)
        && (uuid in s.client.connects ==> s.client.connects[uuid].ch.Some?)
  }

  /** The attempt's entry, while there is one, names the client's channel once made, and tells only of agreement. */
  ghost predicate EntryOk(s: Attempt, uuid: bytes) {
    uuid in s.client.connects ==>
      var entry := s.client.connects[uuid];
      && (entry.ch.Some? ==> SERVER in s.client.channels && entry.ch == Some(s.client.channels[SERVER]))
      && (entry.told ==> entry.ch.Some? && Agreed(s) && s.net == multiset{})
  }

  ghost predicate Inv(r: Rsa, s: Attempt, uuid: bytes) {
    && Sound(s.client) && Sound(s.server) && |uuid| < 0x100 && |s.net| <= 1
    && (forall m :: m in s.net ==> MessageOk(r, s, uuid, m))
    && EntryOk(s, uuid)
    && (s.result.Some? ==> Agreed(s) && s.result.value == s.client.channels[SERVER] && s.net == multiset{})
  }

  lemma AnswerReads(status: byte, p: Payload)
    requires |p.uuid| < 0x100
    ensures UnmarshalPayload(Answer(status, p).value.data) == Some(p)
  {
  }

  /** What the server makes of a good connect packet: a new channel, and its public key under the client's. */
  lemma ConnectReply(r: Rsa, n: Node, from: Addr, p: Payload, clientKey: PrivateKey, chance: Chance)
    requires Sound(n) && |p.uuid| < 0x100 && p.data == r.publicKeyToBytes(r.publicOf(clientKey))
    ensures var reply := OnConnect(r, n, from, p, chance);
            && !reply.failed && Sound(reply.node) && from in reply.node.channels
            && reply.answer.Some? && reply.answer.value.status == STATUS_CONNECT_SERVER_ANSWER
            && var q := UnmarshalPayload(reply.answer.value.data);
            && q.Some? && q.value.uuid == p.uuid
            && DecryptFrom(r, clientKey, q.value.data, 0) ==
               Some(r.publicKeyToBytes(r.publicOf(KeysOf(reply.node, from).privateKey)))
  {
    var (n1, ch) := NewChannel(n, from, chance.privateKey);
    var own := r.publicKeyToBytes(r.publicOf(n1.heap[ch].privateKey));
    RsaRoundTrip(r, clientKey, chance.seeds, own);
    AnswerReads(STATUS_CONNECT_SERVER_ANSWER,
                p.(data := EncryptFrom(r, r.publicOf(clientKey), chance.seeds, own, 0).value));
  }

  /** The waiting client answers a good answer: a new channel with a session key, and that key under the server's. */
  lemma ServerAnswerReply(r: Rsa, n: Node, from: Addr, p: Payload, serverKey: PrivateKey, chance: Chance)
    requires Sound(n) && |p.uuid| < 0x100 && p.uuid in n.connects && n.privateKey.Some?
    requires DecryptFrom(r, n.privateKey.value, p.data, 0) == Some(r.publicKeyToBytes(r.publicOf(serverKey)))
    ensures var reply := OnServerAnswer(r, n, from, p, chance);
            && !reply.failed && Sound(reply.node) && from in reply.node.channels
            && reply.node.connects ==
               n.connects[p.uuid := n.connects[p.uuid].(ch := Some(reply.node.channels[from]))]
            && KeysOf(reply.node, from).sessionKey == chance.sessionKey
            && reply.answer.Some? && reply.answer.value.status == STATUS_CONNECT_CLIENT_ANSWER
            && var q := UnmarshalPayload(reply.answer.value.data);
            && q.Some? && q.value.uuid == p.uuid
            && DecryptFrom(r, serverKey, q.value.data, 0) == Some(chance.sessionKey)
  {
    RsaRoundTrip(r, serverKey, chance.seeds, chance.sessionKey);
    AnswerReads(STATUS_CONNECT_CLIENT_ANSWER,
                p.(data := EncryptFrom(r, r.publicOf(serverKey), chance.seeds, chance.sessionKey, 0).value));
  }

  lemma ConnectKeeps(r: Rsa, s: Attempt, uuid: bytes, m: Message, chance: Chance)
    requires Inv(r, s, uuid) && s.net == multiset{m} && m.ToServer? && m.pac.status == STATUS_CONNECT
    ensures Inv(r, Do(r, s, uuid, Deliver(m, chance)), uuid)
  {
    var p := UnmarshalPayload(m.pac.data).value;
    var n := if CLIENT in s.server.channels then s.server.(channels := s.server.channels - {CLIENT}) else s.server;
    ConnectReply(r, n, CLIENT, p, s.client.privateKey.value, chance);
    var reply := OnConnect(r, n, CLIENT, p, chance);
    assert Serve(r, s.server, CLIENT, m.pac, chance) == reply;
    assert Do(r, s, uuid, Deliver(m, chance)) ==
           s.(server := reply.node, net := multiset{ToClient(reply.answer.value)});
  }

  lemma ServerAnswerKeeps(r: Rsa, s: Attempt, uuid: bytes, m: Message, chance: Chance)
    requires Inv(r, s, uuid) && s.net == multiset{m} && m.ToClient? && m.pac.status == STATUS_CONNECT_SERVER_ANSWER
    ensures Inv(r, Do(r, s, uuid, Deliver(m, chance)), uuid)
  {
    var p := UnmarshalPayload(m.pac.data).value;
    var reply := Serve(r, s.client, SERVER, m.pac, chance);
    if uuid !in s.client.connects {
      assert reply.answer == None;
      assert Do(r, s, uuid, Deliver(m, chance)) == s.(client := reply.node, net := multiset{});
    } else {
      ServerAnswerReply(r, s.client, SERVER, p, KeysOf(s.server, CLIENT).privateKey, chance);
      assert reply == OnServerAnswer(r, s.client, SERVER, p, chance);
      assert Do(r, s, uuid, Deliver(m, chance)) ==
             s.(client := reply.node, net := multiset{ToServer(reply.answer.value)});
    }
  }

  lemma ClientAnswerKeeps(r: Rsa, s: Attempt, uuid: bytes, m: Message, chance: Chance)
    requires Inv(r, s, uuid) && s.net == multiset{m} && m.ToServer? && m.pac.status == STATUS_CONNECT_CLIENT_ANSWER
    ensures Inv(r, Do(r, s, uuid, Deliver(m, chance)), uuid)
  {
    var p := UnmarshalPayload(m.pac.data).value;
    AnswerReads(STATUS_CONNECT_DONE, p.(data := []));
    var s' := Do(r, s, uuid, Deliver(m, chance));
    assert s'.net == multiset{ToClient(Answer(STATUS_CONNECT_DONE, p.(data := [])).value)};
  }

  lemma DoneKeeps(r: Rsa, s: Attempt, uuid: bytes, m: Message, chance: Chance)
    requires Inv(r, s, uuid) && s.net == multiset{m} && m.ToClient? && m.pac.status == STATUS_CONNECT_DONE
    ensures Inv(r, Do(r, s, uuid, Deliver(m, chance)), uuid)
  {
    var s' := Do(r, s, uuid, Deliver(m, chance));
    assert s'.net == multiset{};
  }

  lemma OneUnderWay(net: multiset<Message>, m: Message)
    requires m in net && |net| <= 1
    ensures net == multiset{m} && net - multiset{m} == multiset{}
  {
    assert |net - multiset{m}| == 0;
  }

  lemma StepKeeps(r: Rsa, s: Attempt, uuid: bytes, step: Step)
    requires Inv(r, s, uuid) && Enabled(s, uuid, step)
    ensures Inv(r, Do(r, s, uuid, step), uuid)
  {
    match step
    case Lose(m) => OneUnderWay(s.net, m);
    case GiveUp =>
    case Return =>
    case Deliver(m, chance) =>
      OneUnderWay(s.net, m);
      if m.pac.status == STATUS_CONNECT {
        ConnectKeeps(r, s, uuid, m, chance);
      } else if m.pac.status == STATUS_CONNECT_SERVER_ANSWER {
        ServerAnswerKeeps(r, s, uuid, m, chance);
      } else if m.pac.status == STATUS_CONNECT_CLIENT_ANSWER {
        ClientAnswerKeeps(r, s, uuid, m, chance);
      } else {
        DoneKeeps(r, s, uuid, m, chance);
      }
  }

  lemma BeginKeeps(r: Rsa, client: Node, server: Node, uuid: bytes, chance: Chance)
    requires NewAttempt(client, server, uuid)
    ensures Inv(r, Begin(r, client, server, uuid, chance), uuid)
  {
    var (n, key) := NewCrypt(client, chance.privateKey);
    PayloadRoundTrip(Payload(uuid, r.publicKeyToBytes(r.publicOf(key))));
  }

  lemma {:induction false} RunKeeps(r: Rsa, s: Attempt, uuid: bytes, run: seq<Step>)
    requires Inv(r, s, uuid) && Runs(r, s, uuid, run)
    ensures Inv(r, After(r, s, uuid, run), uuid)
    decreases |run|
  {
    if run == [] {
    } else {
      StepKeeps(r, s, uuid, run[0]);
      RunKeeps(r, Do(r, s, uuid, run[0]), uuid, run[1..]);
    }
  }

  /**
   Whenever `Connect` returns a channel, that channel and the server's channel for this client hold the same
   session key, and it is not empty: in every run in which packets may be lost or late and the client may give up,
   from any state of the two nodes, so for a reconnect too.
   */
  lemma KeyAgreement(r: Rsa, client: Node, server: Node, uuid: bytes, chance: Chance, run: seq<Step>)
    requires NewAttempt(client, server, uuid) && Runs(r, Begin(r, client, server, uuid, chance), uuid, run)
    ensures var s := After(r, Begin(r, client, server, uuid, chance), uuid, run);
            s.result.Some? ==>
              && s.result.value < |s.client.heap| && Sound(s.server) && CLIENT in s.server.channels
              && s.client.heap[s.result.value].sessionKey == KeysOf(s.server, CLIENT).sessionKey != []
  {
    BeginKeeps(r, client, server, uuid, chance);
    RunKeeps(r, Begin(r, client, server, uuid, chance), uuid, run);
  }

  /**
   Why a packet must not arrive twice: after a second connect packet, whatever it holds, the ends no longer agree. The
   server's channel is gone, or is a new one without a key.
   */
  lemma SecondConnectDisagrees(r: Rsa, s: Attempt, pac: Packet, chance: Chance)
    requires Agreed(s) && pac.status == STATUS_CONNECT
    ensures var server := Serve(r, s.server, CLIENT, pac, chance).node;
            && Sound(server) && (CLIENT in server.channels ==> KeysOf(server, CLIENT).sessionKey == [])
            && !Agreed(s.(server := server))
  {
    ServeSound(r, s.server, CLIENT, pac, chance);
  }

  /**
   An answer that comes when the client has given up leaves it without a channel to the server, also if it had one
   from before, and is not answered.
   */
  lemma LateAnswerDropsChannel(r: Rsa, s: Attempt, uuid: bytes, m: Message, chance: Chance)
    requires Sound(s.client) && Sound(s.server) && uuid !in s.client.connects && m in s.net
    requires m.ToClient? && (m.pac.status == 1 || m.pac.status == 3)
    requires UnmarshalPayload(m.pac.data).Some? && UnmarshalPayload(m.pac.data).value.uuid == uuid
    ensures var s' := Do(r, s, uuid, Deliver(m, chance));
            s'.client.channels == s.client.channels - {SERVER} && s'.client.connects == s.client.connects
            && s'.net == s.net - multiset{m} && s'.server == s.server
  {
    var reply := Serve(r, s.client, SERVER, m.pac, chance);
    FailureRemovesChannel(r, s.client, SERVER, m.pac, chance);
    assert reply.answer == None;
  }

  /** While the client waits, each packet but the last is answered with the next. */
  lemma ConnectAnswered(r: Rsa, s: Attempt, uuid: bytes, m: Message, chance: Chance) returns (answer: Message)
    requires Inv(r, s, uuid) && s.net == multiset{m} && uuid in s.client.connects
    requires m.pac.status != STATUS_CONNECT_DONE
    ensures var s' := Do(r, s, uuid, Deliver(m, chance));
            && Inv(r, s', uuid) && s'.net == multiset{answer} && uuid in s'.client.connects
            && answer.pac.status == m.pac.status + 1 && answer.ToServer? == m.ToClient?
  {
    StepKeeps(r, s, uuid, Deliver(m, chance));
    var p := UnmarshalPayload(m.pac.data).value;
    if m.pac.status == STATUS_CONNECT {
      var n := if CLIENT in s.server.channels then s.server.(channels := s.server.channels - {CLIENT}) else s.server;
      ConnectReply(r, n, CLIENT, p, s.client.privateKey.value, chance);
      answer := ToClient(Serve(r, s.server, CLIENT, m.pac, chance).answer.value);
    } else if m.ToClient? {
      ServerAnswerReply(r, s.client, SERVER, p, KeysOf(s.server, CLIENT).privateKey, chance);
      answer := ToServer(Serve(r, s.client, SERVER, m.pac, chance).answer.value);
    } else {
      answer := ToClient(Serve(r, s.server, CLIENT, m.pac, chance).answer.value);
    }
    assert s.net - multiset{m} + multiset{answer} == multiset{answer};
  }

  /**
   The attempt has gone `n` steps without loss: up to three, the packet of status `n` is under way; after four the
   waiter has been told; after five `Connect` has returned a channel.
   */
  ghost predicate AtStep(s: Attempt, uuid: bytes, n: nat) {
    if n <= 3 then uuid in s.client.connects && exists m :: s.net == multiset{m} && m.pac.status == n
    else if n == 4 then uuid in s.client.connects && s.client.connects[uuid].told
    else n == 5 && uuid !in s.client.connects && s.net == multiset{} && s.result.Some?
  }

  /** Nothing is lost and the client does not give up. */
  ghost predicate Lossless(run: seq<Step>) {
    forall i :: 0 <= i < |run| ==> run[i].Deliver? || run[i].Return?
  }

  lemma LosslessStep(r: Rsa, s: Attempt, uuid: bytes, n: nat, step: Step)
    requires Inv(r, s, uuid) && AtStep(s, uuid, n) && Enabled(s, uuid, step) && (step.Deliver? || step.Return?)
    ensures AtStep(Do(r, s, uuid, step), uuid, n + 1)
  {
    if n <= 3 {
      var m :| s.net == multiset{m} && m.pac.status == n;
      assert m in s.net;
      if n == 3 {
        assert Do(r, s, uuid, Deliver(m, step.chance)).client.connects[uuid].told;
      } else {
        var answer := ConnectAnswered(r, s, uuid, m, step.chance);
      }
    }
  }

  lemma {:induction false} LosslessFrom(r: Rsa, s: Attempt, uuid: bytes, n: nat, run: seq<Step>)
    requires Inv(r, s, uuid) && AtStep(s, uuid, n) && Runs(r, s, uuid, run) && Lossless(run)
    ensures AtStep(After(r, s, uuid, run), uuid, n + |run|)
    decreases |run|
  {
    if run == [] {
    } else {
      assert run[0].Deliver? || run[0].Return?;
      LosslessStep(r, s, uuid, n, run[0]);
      StepKeeps(r, s, uuid, run[0]);
      LosslessFrom(r, Do(r, s, uuid, run[0]), uuid, n + 1, run[1..]);
    }
  }

  /** Until `Connect` has returned, a next step without loss is possible, whatever the random choices. */
  ghost predicate CanGoOn(s: Attempt, uuid: bytes) {
    || (exists m :: m in s.net && forall chance :: Enabled(s, uuid, Deliver(m, chance)))
    || Enabled(s, uuid, Return)
  }

  lemma BeginAtStep(r: Rsa, client: Node, server: Node, uuid: bytes, chance: Chance)
    requires NewAttempt(client, server, uuid)
    ensures var s := Begin(r, client, server, uuid, chance);
            && Inv(r, s, uuid) && AtStep(s, uuid, 0)
            && var own := if client.privateKey.Some? then client.privateKey.value else chance.privateKey;
            && var advertised := r.publicKeyToBytes(r.publicOf(own));
            && s.net == multiset{ToServer(Packet(0, 0, [|uuid|] + uuid + advertised))}
            && s.client == client.(privateKey := Some(own), connects := client.connects[uuid := Entry(None, false)])
            && s.server == server && s.result == None
  {
    BeginKeeps(r, client, server, uuid, chance);
    var (n, key) := NewCrypt(client, chance.privateKey);
    var p := Payload(uuid, r.publicKeyToBytes(r.publicOf(key)));
    assert Begin(r, client, server, uuid, chance).net ==
           multiset{ToServer(Packet(0, STATUS_CONNECT, MarshalPayload(p)))};
  }

  lemma GoesOn(r: Rsa, s: Attempt, uuid: bytes, n: nat)
    requires Inv(r, s, uuid) && AtStep(s, uuid, n) && n < 5
    ensures CanGoOn(s, uuid)
  {
    if n <= 3 {
      var m :| s.net == multiset{m} && m.pac.status == n;
      assert m in s.net;
    }
  }

  /**
   When nothing is lost and the client waits, every run, with any random choices, goes through the four packets in
   order and then `Connect` returns a channel, by the above one with the agreed key; and no run stops before that.
   */
  lemma LosslessConnects(r: Rsa, client: Node, server: Node, uuid: bytes, chance: Chance, run: seq<Step>)
    requires NewAttempt(client, server, uuid)
    requires Runs(r, Begin(r, client, server, uuid, chance), uuid, run) && Lossless(run)
    ensures var s := After(r, Begin(r, client, server, uuid, chance), uuid, run);
            && |run| <= 5 && AtStep(s, uuid, |run|) && (|run| < 5 ==> CanGoOn(s, uuid))
  {
    BeginAtStep(r, client, server, uuid, chance);
    LosslessFrom(r, Begin(r, client, server, uuid, chance), uuid, 0, run);
    RunKeeps(r, Begin(r, client, server, uuid, chance), uuid, run);
    if |run| < 5 {
      GoesOn(r, After(r, Begin(r, client, server, uuid, chance), uuid, run), uuid, |run|);
    }
  }

  // ---------------------------------------------------------------- the node in place

  class Tru {
    var privateKey: Option<PrivateKey>
    var heap: seq<ChannelKeys>
    var channels: map<Addr, Ref>
    var connects: map<bytes, Entry>

    ghost function State(): Node
      reads this
    {
      Node(privateKey, heap, channels, connects)
    }

    constructor ()
      ensures State() == Node(None, [], map[], map[])
    {
      privateKey, heap, channels, connects := None, [], map[], map[];
    }

    method MakeCrypt(generated: PrivateKey) returns (key: PrivateKey)
      modifies this`privateKey
      ensures (State(), key) == NewCrypt(old(State()), generated)
    {
      if privateKey.None? {
        privateKey := Some(generated);
      }
      key := privateKey.value;
    }

    method MakeChannel(addr: Addr, generated: PrivateKey) returns (ch: Ref)
      modifies this`privateKey, this`heap, this`channels
      ensures (State(), ch) == NewChannel(old(State()), addr, generated)
    {
      var key := MakeCrypt(generated);
      ch := |heap|;
      heap := heap + [ChannelKeys(key, [])];
      channels := channels[addr := ch];
    }

    method ServeConnectPacket(r: Rsa, from: Addr, p: Payload, chance: Chance)
      returns (answer: Option<Packet>, failed: bool)
      modifies this
      ensures Reply(State(), answer, failed) == OnConnect(r, old(State()), from, p, chance)
    {
      answer, failed := None, true;
      var ch := MakeChannel(from, chance.privateKey);
      var own := r.publicKeyToBytes(r.publicOf(heap[ch].privateKey));
      var clientKey := r.bytesToPublicKey(p.data);
      if clientKey.None? {
        return;
      }
      var c := Encrypt(r, clientKey.value, chance.seeds, own);
      if c.None? {
        return;
      }
      answer, failed := Answer(STATUS_CONNECT_SERVER_ANSWER, p.(data := c.value)), false;
    }

    method ServeServerAnswer(r: Rsa, from: Addr, p: Payload, chance: Chance)
      returns (answer: Option<Packet>, failed: bool)
      modifies this
      ensures Reply(State(), answer, failed) == OnServerAnswer(r, old(State()), from, p, chance)
    {
      answer, failed := None, true;
      if p.uuid !in connects {
        return;
      }
      var ch := MakeChannel(from, chance.privateKey);
      connects := connects[p.uuid := connects[p.uuid].(ch := Some(ch))];
      var plain := Decrypt(r, heap[ch].privateKey, p.data);
      if plain.None? {
        return;
      }
      var serverKey := r.bytesToPublicKey(plain.value);
      if serverKey.None? {
        return;
      }
      var c := Encrypt(r, serverKey.value, chance.seeds, chance.sessionKey);
      if c.None? {
        return;
      }
      answer, failed := Answer(STATUS_CONNECT_CLIENT_ANSWER, p.(data := c.value)), false;
      heap := heap[ch := heap[ch].(sessionKey := chance.sessionKey)];
    }

    method ServeClientAnswer(r: Rsa, from: Addr, p: Payload) returns (answer: Option<Packet>, failed: bool)
      requires Sound(State())
      modifies this`heap
      ensures Reply(State(), answer, failed) == OnClientAnswer(r, old(State()), from, p)
    {
      answer, failed := None, true;
      if from !in channels {
        return;
      }
      var ch := channels[from];
      var key := Decrypt(r, heap[ch].privateKey, p.data);
      if key.None? {
        return;
      }
      heap := heap[ch := heap[ch].(sessionKey := key.value)];
      answer, failed := Answer(STATUS_CONNECT_DONE, p.(data := [])), false;
    }

    method ServeDone(p: Payload) returns (failed: bool)
      modifies this`connects
      ensures Reply(State(), None, failed) == OnDone(old(State()), p)
    {
      failed := p.uuid !in connects;
      if !failed {
        connects := connects[p.uuid := connects[p.uuid].(told := true)];
      }
    }

    method ServeConnectStatus(r: Rsa, from: Addr, pac: Packet, chance: Chance)
      returns (answer: Option<Packet>, failed: bool)
      requires Sound(State())
      modifies this
      ensures Reply(State(), answer, failed) == ServeConnect(r, old(State()), from, pac, chance)
    {
      answer, failed := None, true;
      var p := UnmarshalPayload(pac.data);
      if pac.status > STATUS_CONNECT_DONE || p.None? {
        return;
      }
      if pac.status == STATUS_CONNECT {
        answer, failed := ServeConnectPacket(r, from, p.value, chance);
      } else if pac.status == STATUS_CONNECT_SERVER_ANSWER {
        answer, failed := ServeServerAnswer(r, from, p.value, chance);
      } else if pac.status == STATUS_CONNECT_CLIENT_ANSWER {
        answer, failed := ServeClientAnswer(r, from, p.value);
      } else {
        failed := ServeDone(p.value);
      }
    }

    method ServePacket(r: Rsa, from: Addr, pac: Packet, chance: Chance) returns (answer: Option<Packet>, failed: bool)
      requires Sound(State())
      modifies this
      ensures Reply(State(), answer, failed) == Serve(r, old(State()), from, pac, chance)
    {
      var existed := from in channels;
      if existed && pac.status == STATUS_CONNECT {
        channels := channels - {from};
      }
      answer, failed := ServeConnectStatus(r, from, pac, chance);
      if existed && failed {
        channels := channels - {from};
      }
    }
  }
}
