# TRU: a verified model of the reliable message layer

TRU sends messages over UDP. A writer splits a message into fragments, gives each a 20-bit id that
wraps, and keeps it in a send queue until the peer acknowledges it. The peer drops, parks or delivers
each fragment by the signed distance of its id from the one it expects, drains what was parked, and
joins fragments into messages again. This project models that code in Dafny and proves what it is for:
over a network that loses, duplicates and reorders datagrams, messages come out in order, each once,
byte for byte, while both ends have the key each datagram was sealed under; and from which states
everything can still be delivered, although a packet is sent again a bounded number of times. The smaller parts around that core are modelled too:
datagram encoding, the payload cipher, the chunked RSA transfer and the handshake, the byte-stream
view of a connection, and the speed meter.

## How it is built

| file | source | content |
|---|---|---|
| `Packets.dfy` | packet.go | ids, distance, header, datagrams |
| `Crypt.dfy` | crypt.go | payload cipher, chunked RSA |
| `Split.dfy` | split.go | splitting, the combiner, message streams |
| `Receiver.dfy` | tru.go, receive_queue.go | drop, park, deliver and drain, on values; facts that need no network assumption |
| `Tracking.dfy` | tru.go | the receiver against fragments numbered without bound |
| `Endpoint.dfy` | channel.go, tru.go | one fragment written, one datagram served, on values |
| `Outstanding.dfy` | tru.go, channel.go | the numbers of the queued packets beside their ids: what an ack takes out, and when ids are distinct |
| `Protocol.dfy` | tru.go, channel.go, send_queue.go | writer, peer and network as a step system with a key at each end and the resend limit; safety |
| `Coverage.dfy` | tru.go | nothing is lost while the numbers queued stay within half the ids |
| `Loss.dfy` | tru.go, crypt.go, send_queue.go | what is lost for good, and what is garbled, when the assumptions fail |
| `Progress.dfy`, `Finish.dfy`, `Fairness.dfy` | send_queue.go, tru.go | serving and acknowledging what is queued, the exact condition for finishing, and progress under any schedule |
| `Scan.dfy` | send_queue.go | the timed scan of the send queue as a run of the step system |
| `Keys.dfy` | connect.go | why the end that connects may rely on the keys |
| `SendQueue.dfy`, `ReceiveQueue.dfy`, `Channel.dfy` | send_queue.go, receive_queue.go, channel.go, tru.go | the same operations in place, on classes, proved equal to the functions on values |
| `Ledger.dfy` | send_queue.go, channel.go | list and index of the send queue over whole runs, under any acks |
| `Conn.dfy`, `EndToEnd.dfy` | tru_net.go | the byte stream, and the whole way from messages written to bytes read |
| `Connect.dfy` | connect.go | the handshake |
| `Speed.dfy` | speed.go | the speed meter |

The code only ever sees ids modulo 2^20. In `Protocol` every copy on the wire carries, for the proof
alone, the unbounded number of its fragment. The theorems rest on assumptions about the environment, each a
predicate on one step. Safety (`Protocol.InOrderExactlyOnce`, `EndToEnd.ReadsWhatWasWritten`) needs two:

- `Protocol.KeyFits`: a data copy served was sealed under the key the peer has then. `Loss.OtherKeyDelivers` shows
  what happens otherwise: a short message is delivered and acknowledged all the same, and its bytes are those
  written if and only if the two keys give the same key bytes. This is not far-fetched: channel.go:78-80 hands the
  accepting end its channel before connect.go:291 sets its key, so what it writes at once goes out in the clear, and
  the connecting end, which has its key by then, garbles it. The connecting end itself writes after `Connect` has
  returned and always meets the assumption (`Keys.ConnectedKeysFit`).
- `Protocol.InWindow`: a data copy served is at most 2^19 numbers behind the expected one, and less than 2^20 ahead
  of it. `Tracking.StaleTakenForNew` shows that an older copy is taken for a newer fragment.

That nothing is lost, and progress, need two more (`Protocol.Bounded`), since the code has no send window: at most
2^19 numbers are outstanding at once, and an ack copy served is at most 2^20 numbers behind the next one. Beyond them
a fragment too far ahead is acknowledged, dropped and lost (`Loss.TooFarAheadLost`), and an ack too old takes a newer
packet from the queue (`Outstanding.StaleAckTakesNewer`). `Ledger` needs none of the four: any ids may be
acknowledged there, and 2^20 numbers may be outstanding.

The writer gives the channel up rather than send a packet again for the 101st time, so some reachable states are stuck
(`Finish.StuckAfterAll`). `Finish.WhenDeliverable` and `Finish.WhenFinishable` give the exact conditions under which
everything written can still be delivered, and the send queue emptied.

Writes on one channel are sequential and each datagram is served in one step. The two directions of a channel share
no state but counters of sent packets (`Channels.Channel.Serve` says which half a datagram touches), so
one direction is modelled.

Machine words are natural numbers: masking with 2^20 - 1 is written as a remainder, shifting a byte into
place as a product, and joining fields that do not overlap as a sum. The hashes, AES-GCM and RSA-OAEP are
function-valued parameters with the laws that matter (digest sizes, ciphertext sizes, decryption undoes
encryption); `Crypt.Suite` and `Crypt.Rsa` are types of parameters that obey these laws, with witnesses
that show the laws can be met. Random values and clocks are arguments.

## Where code and comments differ

The model follows the code.

- packet.go:70 gives the id three bytes; the code keeps 20 bits of it, and bits 20 to 23 are cleared.
- channel.go:206 does not say what id `WriteTo` returns: for a message of several fragments it is the id
  of the last but one fragment, not of the first, which is the id the reader sees.
- packet.go:34 speaks of the maximum packet; the limit leaves no room for an IP header.
- tru.go:136 accepts any maximum fragment length, while tru.go:216 only lowers it below the default;
  `Crypt.FragmentFits` says which lengths fit a datagram.

## Model

| member | source | states |
|---|---|---|
| `Packets.DistanceRange` | packet.go:203-219 | the distance is within [-2^19, 2^19) and congruent to the difference of the ids modulo 2^20 |
| `Packets.DistanceExact` | packet.go:203-219 | of two unbounded numbers, the distance of their wrapped ids is the true difference if and only if that is within half the ids |
| `Packets.DistanceFolds` | packet.go:203-219 | up to one turn beyond, the distance is off by exactly the number of ids |
| `Packets.DistanceAntisymmetric` | packet.go:203-219 | swapping the ids negates the distance except at -2^19, both ways |
| `Packets.UnmarshalMarshal` | packet.go:71-118 | decoding gives back every packet with its id reduced; the packet itself if and only if the id is below the limit |
| `Packets.MarshalUnmarshal` | packet.go:87-118 | re-encoding any datagram of at least a header clears bits 20 to 23 of the header and changes nothing else |
| `Packets.UnmarshalBytes` | packet.go:87-118 | a datagram byte by byte: 20 bits of id, lowest byte first, the status in the fourth byte, then the data |
| `Packets.MarshalBytes` | packet.go:71-118 | the bytes of an encoded packet |
| `Crypt.XorEncryptDecrypt` | crypt.go:57-62 | the in-place loop combines each byte with the key byte at its position modulo the key length |
| `Crypt.XorWithInvolution` | crypt.go:57-62 | doing it twice restores the input |
| `Crypt.XorAt` | crypt.go:57-62 | each of the eight bits of a combined byte is set exactly when the two bits differ |
| `Crypt.PacketKey` | crypt.go:253-278 | the key has 16, 20, 32, 64 or 32 bytes in the five length classes, so that short payloads never reuse a key byte |
| `Crypt.KeyOfSeed` | crypt.go:253-278 | the digest is taken of the session key followed by the four id bytes, lowest first, and of nothing else |
| `Crypt.KeysDiffer` | crypt.go:253-278 | there are lawful primitives under which the packet keys differ in every byte, for every length, if and only if session key or id differ |
| `Crypt.NotOpenedByAnother` | crypt.go:123-153 | under such primitives what is sealed under one id or session key does not open to itself under another |
| `Crypt.EncryptBuffer` | crypt.go:123-138 | the sender encrypts a copy, whatever the length class |
| `Crypt.DecryptBuffer` | crypt.go:141-153 | the receiver decrypts up to 64 bytes in the receive buffer and leaves longer ones there encrypted |
| `Crypt.CipherLength` | crypt.go:123-153 | more than 64 bytes grow by 28 and others not at all, so the receiver derives the same key and takes the same branch from the ciphertext length alone |
| `Crypt.CipherRoundTrip` | crypt.go:123-153 | decryption undoes encryption for every id, key, nonce and payload |
| `Crypt.LongCipher` | crypt.go:72-121 | a payload of more than 64 bytes goes out as the 12 nonce bytes and what opens under that nonce and the packet key, 28 bytes longer |
| `Crypt.OtherKeyGarbles` | crypt.go:123-153 | with two keys, one of them perhaps not set, a short payload always decrypts, to itself if and only if the keys give the same bytes |
| `Crypt.FragmentFits` | packet.go:128-132 | an encrypted, encoded fragment fits 65527 bytes, and the read buffer, if it is within the default maximum, and with encryption on only then |
| `Crypt.Encrypt` | crypt.go:156-175 | the chunk loop computes the recursive chunked encryption, including its failure |
| `Crypt.Decrypt` | crypt.go:178-197 | the chunk loop computes the recursive chunked decryption, including its failure |
| `Crypt.ChunkSizeIsMaximal` | crypt.go:156-175 | chunked encryption in chunks of a given size works for every input if and only if the size is at most the 62 of the source |
| `Crypt.EncryptFromLength` | crypt.go:156-175 | encryption never fails, and gives 128 bytes for each started chunk of 62 |
| `Crypt.EncryptChunk` | crypt.go:156-175 | each block of 128 bytes is one chunk of 62, encrypted under a seed of its own |
| `Crypt.RsaRoundTrip` | crypt.go:156-197 | chunked decryption undoes chunked encryption for every input, whose chunk boundaries differ |
| `Split.SplitShape` | split.go:10-34 | each fragment is within the maximum, all but the last are full and flagged, the last is not flagged |
| `Split.SplitCount` | split.go:10-34 | a message takes as few fragments as the maximum allows, and an empty one takes one |
| `Split.CombinePacket.Packet` | split.go:44-70 | the combiner object goes through the states of the joining function and returns what it returns |
| `Split.CombinePacket.Clear` | split.go:73-77 | clearing makes the combiner idle |
| `Split.CombineOther` | split.go:44-70 | a packet of any other status passes the combiner without a trace |
| `Split.SplitThenCombine` | split.go:10-70 | a message split with any positive maximum and joined again is one packet with its bytes and its first fragment's id, and leaves the combiner idle |
| `Split.StreamThenCombine` | split.go:10-77 | so is any list of messages, each split with its own maximum, under any ids |
| `Split.DeliveryAt` | split.go:58-62 | the i-th packet delivered has the bytes of the i-th message and the id of its first fragment |
| `Split.PrefixOfStream` | split.go:44-70 | joining a prefix of the fragments gives a prefix of the messages |
| `Split.PartOfStream` | split.go:44-70 | joining fewer fragments than all gives fewer messages than all |
| `Receiver.ProcessTakesRun` | receive_queue.go:63-74 | on any map the drain ends, and takes out exactly the maximal run of ids at the expected one, in order, once each, across a wrap too |
| `Receiver.AcceptAhead` | tru.go:393-423 | serving any packet keeps every parked id strictly ahead of the expected one by less than 2^19 |
| `Receiver.AlwaysAhead` | tru.go:393-423 | whatever packets a fresh channel is served, the expected id is never parked and at most 2^19 - 1 packets are |
| `Receiver.Conservation` | tru.go:393-423 | packets served are the moves of the expected id plus the parked packets plus the drops |
| `Tracking.AcceptTracks` | tru.go:393-424 | a fragment served within the window is added to the accepted set and nothing else changes; it counts as dropped if and only if it had been accepted |
| `Tracking.NextFragmentNew` | tru.go:393-424 | the expected number is the least one never accepted |
| `Tracking.ParkedExactly` | tru.go:396-407 | the receive queue holds exactly the accepted fragments beyond the expected one, each under its id |
| `Tracking.AcceptedDetermines` | tru.go:393-424 | the set of accepted fragments determines the receiver's whole state but the drop counter |
| `Tracking.OrderIndependent` | tru.go:393-424 | serving the same fragments in any two orders, with any duplication, gives the same state and the same deliveries; the drop counters differ by the number of extra copies |
| `Tracking.TooFarAheadDropped` | tru.go:393-398 | a fragment 2^19 or more ahead is dropped and not accepted |
| `Tracking.StaleTakenForNew` | tru.go:393-424 | a copy more than 2^19 behind is taken for the fragment 2^20 further on: delivered or parked in its place, or dropped if that one is parked already |
| `Endpoint.OpenSealed` | channel.go:250-259 | what the writer encrypts and encodes for a fragment opens at a peer with the same key as that fragment |
| `Endpoint.OpenedUnderOtherKey` | crypt.go:123-153 | under another key a short fragment opens too, with its id and status; its bytes are those written if and only if the two keys give the same key bytes |
| `Endpoint.AckAccounted` | tru.go:369-377 | an ack is counted once, as dropped if and only if no queued packet has its id, and what leaves the queue is counted as received |
| `Endpoint.AnyDatagrams` | tru.go:295-428 | conservation and the bounds on the receive queue for any datagrams whatever served to a fresh channel |
| `Endpoint.AckBytes` | tru.go:369-377 | a datagram is an ack exactly when it has at least four bytes and the fourth is 5, of the id in its low 20 bits |
| `Endpoint.DataBytes` | tru.go:388-393 | a datagram opens as data only if its fourth byte is 4 or 0x84, with its id and status; in the clear whenever it is |
| `Endpoint.DataAcknowledged` | tru.go:388-394 | a data packet that decrypts is answered by the ack of its id bytes, whatever becomes of it; any other datagram leaves the receiving half alone and is not answered by an ack |
| `SendQueues.AddedIndexed` | send_queue.go:44-51 | adding keeps list and index in one-to-one correspondence if and only if the id is not queued already |
| `SendQueues.SendQueue.Add` | send_queue.go:44-51 | list, index, contents and correspondence after an add |
| `SendQueues.SendQueue.Get` | send_queue.go:68-79 | the element the index names, or none |
| `SendQueues.SendQueue.Delete` | send_queue.go:54-65 | the element the index names leaves list and index; in a bijective queue that is the packet with the id, the order of the others stays, and the queue stays bijective |
| `SendQueues.SendQueue.GetFirst` | send_queue.go:82-93 | the oldest packet in the list, or none |
| `SendQueues.SendQueue.Len` | send_queue.go:107-112 | the size of the index, which is at most the length of the list, and equal to it if and only if the two correspond one to one |
| `SendQueues.RemovedFound` | send_queue.go:54-65 | a delete by id keeps the correspondence and takes out the packet that a search of the list by id finds |
| `Ledger.FreshIds` | send_queue.go:44-93 | over every run of adds under successive ids and deletes of any ids, at most 2^20 numbers apart: list and index correspond one to one, ids differ, the list is in the order of sending and so the oldest first; the next add keeps this if and only if there is room |
| `Ledger.AddKeeps` | send_queue.go:44-51 | room for the next number is exactly what an add needs to keep list, index and numbers in step |
| `Ledger.DeleteKeeps` | send_queue.go:54-65 | a delete of any id keeps them in step |
| `SendQueues.ScanSendsDue` | send_queue.go:125-153 | a scan gives up if and only if a due packet has been sent again 100 times; otherwise it sends each due packet once, in order, counts it, makes it due after the delay for that many sends, in numbers, and leaves the rest alone |
| `SendQueues.ScanGivesUp` | send_queue.go:127-142 | where it gives up, it has sent what was due before and has counted the attempt it does not make |
| `SendQueues.DelayBounds` | channel.go:426-445 | the resend delay, in nanoseconds, is between 30 and 3000 milliseconds, grows with trip time and attempts, and below the upper bound is the first delay times the number of sends |
| `ReceiveQueues.ReceiveQueue.Add` | receive_queue.go:22-28 | the map after an add |
| `ReceiveQueues.ReceiveQueue.Delete` | receive_queue.go:31-40 | the map after a delete, and the packet removed |
| `ReceiveQueues.ReceiveQueue.Get` | receive_queue.go:43-51 | the packet parked under an id, or none |
| `Channels.Channel.NewID` | channel.go:366-378 | the id issued is the current one, and the next wraps at the limit |
| `Channels.Channel.NewExpectedID` | channel.go:381-393 | the expected id moves on by one and wraps at the limit |
| `Channels.Channel.SendToReader` | tru.go:411-419 | expected id, combiner and reader channel after one packet is sent on |
| `Channels.Channel.ProcessQueue` | receive_queue.go:63-74 | the recursive drain in place computes the drain on values |
| `Channels.Channel.AcceptData` | tru.go:393-424 | a decrypted packet is acknowledged, and dropped, parked or delivered as on values |
| `Channels.Channel.AcceptAck` | tru.go:369-382 | an ack removes the element the index names and counts as received, or counts as dropped and removes nothing; in a bijective queue that is the packet with the id |
| `Channels.Channel.Serve` | tru.go:295-428 | one datagram, by its status byte: 0 to 3 and 9 go elsewhere, 6 is answered by a pong, 8 ends the channel, 5 touches the send queue and the ack counters and nothing else does, 4 and 0x84 go to the receiving half; that half's new state and what is sent in answer |
| `Channels.PongOnWire` | channel.go:342-346 | the answer to a ping is the four bytes 0, 0, 0, 7 |
| `Channels.Channel.WriteFragmentTo` | channel.go:218-290 | on a live channel a fragment takes the next id, is encrypted under it, queued at the end and sent; its timer has no resends and is due after 200 ms, or 30 ms more than a trip and 3 s at most, and the other timers stay; the queue stays bijective if the id was not queued; on a destroyed one an error and no change |
| `Channels.Channel.SplitPacket` | split.go:10-34 | the loop writes exactly the fragments of the message, in order, each with a timer of its own, and returns the id of the only or the last but one; the ids queued, and that the queue stays bijective if the ids taken were free; on a destroyed channel an error and no change |
| `Channels.Channel.WriteTo` | channel.go:211-215 | the same for the whole message |
| `Channels.WrittenFits` | split.go:13-18 | every fragment of every message fits a datagram while the maximum is at most the default |
| `Channels.WrittenSizes` | split.go:13-18 | under a configured maximum, or 65495 when it is zero, all fragments but the last have that many bytes and the last no more; status 0x84 for all but the last, which has 4; and as few fragments as that allows |
| `Channels.Channel.ResendIfDue` | send_queue.go:127-146 | the scan at one element |
| `Channels.Channel.Retransmit` | send_queue.go:115-157 | the scan in place computes the scan on values, including where it gives up |
| `Outstanding.QueuedIdsDistinct` | channel.go:366-378 | while at most 2^20 numbers are outstanding queued ids differ, and the next id is not queued if and only if there is room for one more |
| `Outstanding.AckKeepsShape` | tru.go:369-377 | an ack of any id whatever leaves the queue in the order of sending and within its span |
| `Outstanding.AckFindsItsPacket` | tru.go:369-377 | an ack removes the very packet it acknowledges, although it names it by its wrapped id only |
| `Outstanding.StaleAckTakesNewer` | tru.go:369-377 | an ack a whole turn of ids late removes the packet that has the id now, unacknowledged |
| `Coverage.ExpectedIsOutstanding` | tru.go:388-424 | the expected number is at least the oldest outstanding one, at most the next one, and outstanding unless equal to that |
| `Protocol.SafeStepKeeps` | tru.go:295-428 | every write, resend, giving up, key change, loss, delivery and ack, whatever its id, keeps sender, receiver and network consistent |
| `Coverage.StepKeeps` | tru.go:295-428 | within the bounds every step keeps moreover that each fragment sent is queued or accepted |
| `Protocol.InOrderExactlyOnce` | tru.go:388-424 | in every run in which copies are served under the key they were sealed under and within the window, with any acks, key changes and resend limit, the messages delivered are a prefix of those written: in order, each once, with equal bytes and the first fragment's id |
| `Coverage.NothingLost` | tru.go:369-424 | in every run each fragment sent is queued, parked or behind the expected one, and the fragments sent are the acks counted plus the packets queued |
| `Loss.GoneForEver` | send_queue.go:127-146 | a fragment that is not accepted, has no copy under way and cannot be sent again stays so in every run, the expected number never passes it, and not everything written is ever delivered |
| `Loss.TooFarAheadLost` | tru.go:369-398 | once a queued fragment 2^19 or more ahead has been served and its ack too, it is neither queued nor accepted, and from the moment on that no further copy is under way no run delivers it |
| `Loss.OtherKeyDelivers` | crypt.go:123-153 | written under one key and served under another, a short message is delivered and acknowledged; its bytes are those written if and only if the keys give the same bytes for it |
| `Coverage.QuiescentMeansDelivered` | tru.go:369-424 | in every run, between writes, an empty send queue means that everything written is delivered, nothing is parked and the combiner is idle |
| `Progress.ServeThenAck` | receive_queue.go:63-74 | from a reachable state in which each queued packet has a copy under way or resends left, under the peer's key, each of them served in any order brings the expected number to the next one, and one ack for each, in any order, empties the queue |
| `Finish.WhenDeliverable` | send_queue.go:115-157 | from any reachable state, in the middle of a message too, some run without further writes or key changes delivers everything written if and only if each fragment is accepted or can be served under the peer's key, and, if some are still to be sent, the channel is not given up, the keys agree, and no number that cannot be acknowledged any more pushes the span beyond 2^19 |
| `Finish.WhenFinishable` | send_queue.go:115-157 | some run moreover empties the send queue if and only if besides each packet queued can still be acknowledged |
| `Finish.NeverStuck` | send_queue.go:115-157 | both for the end of any run; the conditions hold while the channel is not given up, all is under one key and no queued packet has been sent again 100 times |
| `Finish.StuckAfterAll` | send_queue.go:136-142 | a message lost 101 times is such a state: reachable, and nothing delivers it |
| `Scan.ScanIsRun` | send_queue.go:125-153 | a scan of the send queue is a run of the step system: it sends what comes on the wire, its timers count the resends, and it gives up exactly when the run does |
| `Scan.EmitCounts` | channel.go:218-290 | a fragment written, with its first timer, keeps the timers counting the resends |
| `Scan.AckCounts` | tru.go:369-377 | so does an ack, which takes the timer of its packet |
| `Scan.OtherCounts` | tru.go:295-428 | so does every step other than a resend, which the scan itself counts |
| `Scan.NoEarlyGiveUp` | send_queue.go:136-142 | so a scan gives up if and only if some packet is due that has been sent again 100 times |
| `Keys.ConnectedKeysFit` | connect.go:85-131 | once Connect has returned a channel, every run from there that sets no keys and meets the other assumptions meets the one about keys |
| `Fairness.DeliveredInTheEnd` | tru.go:369-424 | in any run from a reachable state, with any losses, duplicates, writes and acks between: if each number queued at the start is delivered at some point, under the key it was sealed under, the expected number ends beyond all fragments sent before and all messages sent whole are delivered; if each is acknowledged at some point too, none of them is queued at the end |
| `Conn.Connection.Push` | tru_net.go:95-127 | a message is handed to the reads to come, or lost on a closed connection |
| `Conn.Connection.Close` | tru_net.go:226-239 | messages not yet taken are lost, buffered bytes are not |
| `Conn.Connection.Read` | tru_net.go:181-207 | the bytes, the count, the end-of-file mark or the error of one read, and the state it leaves |
| `Conn.ReadsMessages` | tru_net.go:181-207 | for any buffer sizes, arrivals and close, the bytes read, cut at the marks, are the messages handed over in order and a prefix of the next |
| `Conn.ReadsFinish` | tru_net.go:181-207 | enough reads into non-empty buffers finish every message, an empty one too, with exactly one mark each |
| `Conn.ReadsClosed` | tru_net.go:190-197 | in any history a read returns the error if and only if the connection is closed, no byte is left and no mark due; and on a closed connection every read returns |
| `Conn.ClosedForEver` | tru_net.go:190-197 | from then on every read returns the error, whatever happens |
| `Conn.MessageReadOut` | tru_net.go:181-207 | a waiting message is read in full buffers and a last one that may be shorter, then one mark; what waits behind it is not touched |
| `Conn.ReadOutCount` | tru_net.go:202-204 | that takes as few reads as the buffer size allows, and one for an empty message |
| `EndToEnd.ReadsWhatWasWritten` | tru_net.go:95-207 | under the assumptions of safety, for any reads at the peer, the bytes read, cut at the marks, are the messages written, in order, each once and whole, and a prefix of the next |
| `EndToEnd.ReadsEverything` | tru_net.go:95-207 | once the send queue is empty between writes and what was delivered is handed over, enough reads give every message written and nothing more |
| `Connect.PayloadRoundTrip` | connect.go:44-82 | a connection payload survives encoding if and only if its uuid is shorter than 256 bytes |
| `Connect.PayloadBytes` | connect.go:44-82 | a payload is the length of the uuid, the uuid and the data; it is refused if and only if it is empty or shorter than its uuid |
| `Connect.CryptsShareKey` | crypt.go:37-49 | all crypt objects of a node hold the same private key |
| `Connect.ServeSound` | connect.go:170-330 | no packet whatever leaves a dangling channel reference |
| `Connect.FailureRemovesChannel` | tru.go:331-342 | for every node, address and packet: when serving fails, a channel the address had is gone; all other addresses keep theirs; and the exact conditions of failing |
| `Connect.WhatServingDoes` | connect.go:175-323 | channel objects, keys, table and attempts after each of the four packets, when it is served without failure |
| `Connect.WhatIsAnswered` | connect.go:175-303 | each packet but the last is answered with the next status under the same uuid |
| `Connect.WhatFailingDoes` | connect.go:175-323 | a packet that fails is not answered; the channel it may have made stays in the table only if the address had none |
| `Connect.StepKeeps` | connect.go:170-329 | every delivery, loss, timeout and return keeps the invariant of the attempt |
| `Connect.KeyAgreement` | connect.go:85-131 | whenever Connect returns a channel, it and the server's channel hold the same non-empty session key, in every run with losses, late packets and timeouts, from any state of the nodes and so for a reconnect too |
| `Connect.LosslessConnects` | connect.go:170-329 | every run without loss in which the client waits, with any random choices, passes the four packets in order and then returns a channel, and can always go on until it has |
| `Connect.BeginAtStep` | connect.go:85-117 | the packet Connect sends, byte by byte, and the attempt it records |
| `Connect.LateAnswerDropsChannel` | tru.go:338-341 | an answer that comes when the client has given up leaves it without a channel to the server |
| `Connect.SecondConnectDisagrees` | tru.go:331-342 | after any second connect packet, malformed or not, the server's channel is gone or has no session key, so that the ends no longer agree |
| `Connect.Tru.MakeCrypt` | crypt.go:37-49 | the node's own private key, made once |
| `Connect.Tru.MakeChannel` | channel.go:39-83 | a new channel object with the node's key and no session key takes over the address |
| `Connect.Tru.ServeConnectPacket` | connect.go:175-213 | the server's answer to a connect packet, in place |
| `Connect.Tru.ServeServerAnswer` | connect.go:217-265 | the client's answer to the server's, in place |
| `Connect.Tru.ServeClientAnswer` | connect.go:269-303 | the server takes over the session key, in place |
| `Connect.Tru.ServeDone` | connect.go:306-323 | the waiting attempt is told, in place |
| `Connect.Tru.ServePacket` | tru.go:331-342 | a connect packet replaces an existing channel, and a failure removes one |
| `Speed.SpeedMeter.Add` | speed.go:49-71 | the ring, the sum loop and the current count after one call |
| `Speed.SpeedAtSwitch` | speed.go:49-71 | for every history of calls: the speed is set when a call falls in another slot than the one before, and only then, to the sum of what the last uninterrupted visit to each of the ten slots has counted |
| `Speed.ExactUnlessOverdue` | speed.go:49-71 | while time does not run backwards, the speed at a switch is the number of counted calls in the ten buckets before it plus the older calls still in some slot's last visit; it is exact if and only if there are none |
| `Speed.SlidingWindow` | speed.go:49-71 | while time moves by at most one bucket per call, the speed at a switch is the number of counted calls in the ten most recent completed buckets, and does not change in between |
| `Speed.TooHigh` | speed.go:56-66 | two inputs on which the speed is too high: after a gap of eleven buckets, and after one of ten, which the meter does not notice |

## Left out

- Sockets, address resolution, goroutines, mutexes and the bounded Go channels: the network is a set of copies, and each served datagram is one step.
- The inside of RSA, AES-GCM, the hashes, PEM and x509, and key generation: parameters with laws.
- Wall-clock timing: send delay pacing, keepalive, inactivity and trip-time smoothing. `Protocol` bounds how often a packet is sent again, not when; the scan takes the time as an argument.
- Delivery callbacks and their timers, and the test flag that drops sent packets.
- Negative maximum fragment lengths, which the source slices with, and several concurrent writes on one channel.
- The caller's buffer is copied in the model: before a session key is set the source queues slices of it.
- The wait channel of a connection attempt is a flag: a last handshake packet that arrives between the client's timeout and the removal of its entry is not modelled.
- In `Protocol` only the writer gives up. A peer whose channel ends, by a disconnect, by inactivity or as a writer itself, is a run in which nothing more is delivered.
- A long payload served under another key than its own: whether AES-GCM refuses it is a parameter; refused, it has no effect, and accepted it is outside the assumption about keys.
- Several attempts between the same two nodes at once: the key agreement is about one attempt, next to any other channels.
- Packets.UnmarshalMarshal: words are numbers, so the bit operations of the source are arithmetic here.
- Listening, accepting, statistics printing, logging, the hotkey and terminal packages, and the examples.
