# A verified model of the bitchat node daemon

This project models the protocol logic of the bitchat mesh daemon in Dafny and proves properties of the model:

- the Noise XX handshake (two token interpreters, the symmetric state, the transport ciphers) and the encryption service
  that keeps handshakes and sessions per peer;
- private traffic on an established session, whose receive counter advances on every decryption attempt;
- TTL flooding with duplicate suppression over an arbitrary network with arbitrary delivery order;
- fragmentation and reassembly;
- the wire formats: packets with padding and relays, message payloads, identity announcements, stream frames;
- the queue of private messages that wait for a session.

Cryptography is symbolic, one symbol per byte (`Symbolic.dfy`): hashes, HMACs, public keys, shared secrets and ciphertexts
are strings of free symbols of the real lengths, Diffie-Hellman commutes by construction, and opening succeeds exactly on
what sealing produced. There are no axioms. Code that updates state in place is modelled by classes and loops
(`NoiseState`, `ServiceState`, `Mesh`, `Fragments`, `Reassembly`, `Framing`, `PacketCodec`, `Identity`, `PendingQueue`),
each method proved against functions on values. The protocol theorems are about those functions and all runs built from
them, and come back to the objects as invariants (`Valid`) and in `ObjectRuns`.

Clock readings, random keys and padding, fragment ids, UTF-8 decoding, decompression, blocked-peer lookups, which
connection a peer was last heard on, and the scheduling of deliveries are parameters of the model and universally
quantified in every theorem.

## Main results

- **Handshake.** For all keys and payloads writer and reader stay in lock-step token by token and end with crossed
  ciphers (`XXAgreement`); the messages are written out byte for byte from the keys and payloads, with the key schedule of
  the framework (`XXOnTheWire`, `HkdfOutputs`); a session key names the static and ephemeral keys it came from (`FinalKeyNamesSession`); equal
  handshake hashes mean equal transcripts (`TranscriptBinding`), and ends with different transcripts reject each other's
  messages (`DivergenceRejected`). In every reachable service state the stored handshakes
  are where they should be (`ReachableSound`); crossed initiations destroy each other and a second attempt always recovers
  (`CrossedInitiations`, `SecondAttemptSucceeds`); handshake traffic between two daemons, garbage included, stops after a
  bounded number of deliveries (`HandshakeQuiescence`), and an undisturbed handshake between two daemons succeeds if and
  only if neither id ends in a zero byte (`PairsExactly`).
- **Session.** The j-th decryption attempt succeeds exactly on the j-th ciphertext, of a cipher and of the service
  (`StreamCharacterisation`, `ServiceDecrypts`). Over every
  run of a session the counters are aligned up to the plaintext acknowledgements received, and a ciphertext decrypts if
  and only if there were none (`NonceAlignment`); one acknowledged channel message breaks the session for good
  (`ChannelAckBreaksSession`, `SpoiledForever`), which a nonce kept on failure would prevent (`KeptNonceDecrypts`).
- **Mesh.** Exactly when a message reaches the application and which copies a node sends is stated for every arrival
  (`DeliversWhen`, `SendsWhen`). Each id is delivered at most once on all paths (`AtMostOnceDelivery`) and relayed at most once by each node,
  whether it travels whole, in fragments or encrypted (`RelaysOnce`), so its relays cross no link twice (`RelayCost`); a
  broadcast sent whole once crosses no link twice if and only if its author never relays it (`BroadcastCost`). It stays
  within seven hops (`BroadcastLocality`). Which nodes it reaches depends on the order of deliveries: the possible outcomes
  are characterised exactly by labellings of the network (`FloodOutcomes`, `BroadcastOutcomes`), so every order reaches
  every node if and only if no labelling leaves one out (`FloodCoverage`, `BroadcastCoverage`); without a simple walk of
  eight links none does (`BroadcastReachesAll`), and for every limit from two on some network of limit + 2 nodes has one
  that does (`CoverageBoundIsSharp`). All of this is also proved of an author that does not recognise its own packets,
  with the exact condition under which that costs a second crossing (`PlainCostExactly`, `LastByteDecides`). A message in
  fragments, in contrast, reaches every node within seven links in every order (`FragmentsReachAll`). Relay traffic of all
  kinds dies out (`RelayTermination`).
- **Formats.** Packets round-trip under relays, padding included (`PacketRoundTrip`, `PaddingArithmetic`); the fragment
  collector returns a packet exactly when its fragments are complete, for any interleaving (`ReassemblyCorrect`); message
  payloads, identity announcements (prefix-free) and frames round-trip (`PayloadRoundTrip`, `AnnouncementRoundTrip`,
  `PrefixFree`, `FramingRoundTrip`, `PrefixRead`). Whom a packet is for is exact (`AddressedExactly`), and so is what
  becomes of truncated packets and payloads (`TruncationAccepted`, `CutAccepted`).
- **Pending queue.** No interleaving of two drains, new sends and removals loses or duplicates a message
  (`PendingConserved`, `SubmittedOnce`); the id a caller gets is the id on the wire if and only if the session existed
  (`WireIdIsReturned`). Letters wait and go out in the order in which they were queued (`QueuedInOrder`,
  `DrainSendsInOrder`).
- **Objects.** The classes keep the invariants the theorems need and carry the results: two handshake objects end crossed
  (`RunHandshake`), two services in any valid state connect within two attempts and then converse (`Connect`,
  `Converse`), the collector object answers right for its whole history (`FragmentCollector.AddFragment`), and the queue
  object accounts for every letter.

## Where the code differs from its documentation

The model follows the code.

- The Noise Protocol Framework (revision 34, section 5.1) leaves the nonce alone on a failed decryption; the code advances
  it and calls that a protocol requirement (bitchat/encryption.py:400-405). The session results above are about the code;
  `KeptNonceDecrypts` is about the framework's rule on the same link.
- Section 5.3 of the same document mixes the prologue, even an empty one, into the hash; the code never does
  (bitchat/encryption.py:71-78). Two ends understand each other if and only if they start from the same hash
  (`SameHashNeeded`), so the code and a standard implementation always fail at message two, in both roles
  (`PrologueMissing`).
- The size check of the packet parser takes the 14-byte header for 13 bytes and no later field is checked
  (bitchat/protocol.py:223-228, 269-277): `ParseAccepts` says exactly what parses, `TruncationAccepted` which fields are
  then whole, and `MissingBytesReadAsZeros` how cut-off ids read.
- Ids lose trailing zero bytes when parsed (bitchat/protocol.py:262, 271); `IdSurvives` says exactly which ids come back.
  A daemon compares them with its own eight random bytes unstripped (daemon/mesh.py:59, 193, 354, 378), so one in 256 does
  not recognise its own packets nor those addressed to it: it relays its own broadcasts (`LastByteDecides`,
  `UnrecognisedAuthorPays`), which can then miss nodes they would otherwise reach (`UnrecognisedAuthorMisses`), and it
  never gets a session from an undisturbed handshake (`PairsExactly`). A packet for the id of all zeros is taken by every
  daemon (`AddressedExactly`).
- `send_identity_announce` passes milliseconds to an encoder that multiplies by 1000 (daemon/mesh.py:255-264,
  bitchat/protocol.py:673); `FieldsRecovered` says when a timestamp survives.
- daemon/mesh.py uses `struct` without importing it, so its fragment handler would raise; the model takes the handler that
  is meant, as written in bitchat.py:822-845.
- A message that waited for a session is sent under a new id, not the one returned to the caller (daemon/mesh.py:733);
  `WireIdIsReturned` says exactly when the two agree.
- A reassembled packet is not checked for its own sender (daemon/mesh.py:521-536), so an author can receive and relay its
  own message (`AuthorFloodsAgain`); `BroadcastCost` says exactly when a broadcast crosses a link twice.
- A first copy with a small TTL makes a node discard later copies with a larger one (daemon/mesh.py:455-469), so a
  broadcast can miss nodes within its TTL; `BroadcastCoverage` says exactly in which networks.

## Model

| member | source | states |
|---|---|---|
| Symbolic.Open | bitchat/encryption.py:394-399 | decryption succeeds exactly on a ciphertext sealed under the same key, nonce and associated data, and returns its plaintext |
| Symbolic.ExchangeCommutes | bitchat/encryption.py:169-172 | both sides of a key exchange compute the same shared secret |
| NoiseState.HandshakeState.WriteTokens | bitchat/encryption.py:179-232 | the token loop of the writer computes the recursive interpreter |
| NoiseState.HandshakeState.ReadTokens | bitchat/encryption.py:246-297 | the token loop of the reader computes the recursive interpreter |
| NoiseAgreement.SecretsAgree | bitchat/encryption.py:203-232 | in lock-step, a DH token feeds both ends the same secret |
| NoiseAgreement.TokenAgreement | bitchat/encryption.py:182-297 | after each token both ends hold equal chaining key, hash, cipher key and nonce, and the reader consumed exactly what was written |
| NoiseAgreement.TokensWritten | bitchat/encryption.py:203-232 | an end that holds its keys writes its tokens without an exception |
| NoiseAgreement.TokensAgreement | bitchat/encryption.py:182-297 | the same for every token list the reader can follow |
| NoiseAgreement.MessageAgreement | bitchat/encryption.py:174-303 | a written message is read back with its payload and both ends advance together |
| NoiseAgreement.XXKeys | bitchat/encryption.py:63-69 | the XX pattern never reaches a DH token before its keys on either side |
| NoiseAgreement.HkdfOutputs | bitchat/encryption.py:80-106 | the two outputs of a mix and of a split are the blocks T(1) and T(2) of HKDF, each keyed over the block before it and its number, as section 4.3 of the framework defines them for every number of outputs |
| NoiseAgreement.MixedKeys | bitchat/encryption.py:80-106 | mixing a secret makes T(1) the chaining key and T(2) the cipher key at nonce zero, and leaves the hash alone |
| XXWire.StartsFromName | bitchat/encryption.py:71-78 | chaining key and hash both start from the 32 bytes of the protocol name, without a cipher key |
| XXWire.XXOnTheWire | bitchat/encryption.py:174-303 | the three messages byte for byte and the final hash, each key, nonce and piece of associated data written out from the static and ephemeral keys and the payloads alone |
| NoiseAgreement.SplitCrosses | bitchat/encryption.py:314-340 | initiator-send is responder-receive and vice versa, under two different keys, the first and the second HKDF output of the final chaining key |
| NoiseAgreement.XXAgreement | bitchat/encryption.py:174-340 | three messages, for all keys and payloads: both complete, each knows the other's static key, ciphers crossed at nonce zero under the two HKDF outputs, chaining key folds ee, es and se |
| NoiseAgreement.FinalKeyNamesSession | bitchat/encryption.py:80-106 | equal final chaining keys come from the same static and ephemeral keys in the same roles |
| Transcript.ConversationHash | bitchat/encryption.py:108-167 | the handshake hash of either interpreter is the fold of the message parts cut at fixed offsets |
| Transcript.TranscriptBinding | bitchat/encryption.py:342-344 | two ends that complete with the same hash have processed the same three messages |
| Transcript.DivergenceRejected | bitchat/encryption.py:143-163 | once two ends have different transcripts, a message one of them writes is rejected by the other |
| Prologue.SameHashNeeded | bitchat/encryption.py:71-78 | for all keys and payloads, message one is read whatever the initial hashes, and the initiator accepts message two if and only if both ends started from the same hash |
| Prologue.ProloguesMustMatch | bitchat/encryption.py:71-78 | ends that mix in a prologue, as section 5.3 of the framework asks, accept message two if and only if it is the same prologue |
| Prologue.PrologueMissing | bitchat/encryption.py:71-78 | for every prologue a standard initiator rejects this code's message two, and this code rejects a standard responder's |
| ObjectRuns.RunHandshake | bitchat/encryption.py:174-340 | three messages between two handshake objects, updated in place, return every payload; both ends then hand out crossed transport ciphers under the key folded from ee, es and se |
| ServiceState.EncryptionService.InitiateHandshake | bitchat/encryption.py:516-533 | whatever was stored for the peer, one waiting initiator and no session are left; the handshake-map invariant is kept |
| ServiceState.EncryptionService.ProcessHandshakeMessage | bitchat/encryption.py:535-610 | keeps the handshake-map invariant, which makes the already-complete branch unreachable; no response means that the session is there, an exception that the handshake is gone and the session untouched; other peers are left alone |
| ServiceProofs.RespondOutcome | bitchat/encryption.py:560-598 | a successful exchange moves a fresh responder to pattern two and completes a waiting handshake; it answers unless it was at pattern two |
| ServiceProofs.ProcessOutcome | bitchat/encryption.py:535-610 | in a sound directory no stored handshake is complete; what a response, no response and an exception each say about the peer's entries |
| ServiceProofs.ReceiveFailure | daemon/mesh.py:373-415 | a handshake packet that fails leaves the session and other peers alone and no handshake, except that the KEY_EXCHANGE handler keeps it when the message was too short |
| ServiceProofs.ApplyKeepsSound | bitchat/encryption.py:516-681 | every operation keeps the handshake-map invariant |
| ServiceProofs.ReachableSound | bitchat/encryption.py:555-558 | in every reachable state handshakes are initiators at pattern one without a session or responders at pattern two; the already-complete branch is never taken |
| ServiceProofs.HonestHandshake | bitchat/encryption.py:516-610 | the messages of an undisturbed handshake establish paired sessions that name each other's identity, the initiator sending under T(1) and receiving under T(2) of the key derived from ee, es and se |
| ServiceProofs.FirstMessageRejected | bitchat/encryption.py:260-264 | a waiting handshake rejects a first message |
| ServiceProofs.CrossedInitiations | bitchat/encryption.py:600-610 | crossed initiations leave both ends with neither session nor handshake |
| ServiceProofs.SecondAttemptSucceeds | bitchat/encryption.py:516-610 | after a collision with a leftover handshake the next initiation succeeds |
| ObjectRuns.Establish | bitchat/encryption.py:516-610 | an undisturbed handshake between two service objects leaves paired sessions and no handshakes |
| ObjectRuns.Connect | bitchat/encryption.py:516-669 | from any valid states of two service objects, at most two attempts pair their sessions |
| ObjectRuns.Converse | bitchat/encryption.py:624-644 | over paired sessions any sequence of messages in both directions is received in order |
| ServiceState.EncryptionService.EncryptForPeer | bitchat/encryption.py:624-636 | the text is sealed under the peer's key and next nonce without associated data, only that nonce advances, and without a session it is an error |
| ServiceState.EncryptionService.DecryptFromPeer | bitchat/encryption.py:638-644 | succeeds exactly on a ciphertext under the stored key and nonce, and only that nonce advances, on failure too |
| ServiceState.EncryptionService.RemoveSession | bitchat/encryption.py:658-663 | the peer has neither entry left and every other peer is untouched |
| ServiceState.EncryptionService.ClearHandshakeState | bitchat/encryption.py:665-669 | the peer has no handshake left; sessions and every other peer are untouched |
| ServiceState.EncryptionService.CleanupOldSessions | bitchat/encryption.py:671-681 | exactly the sessions called old are gone, the others and all handshakes are as before |
| ServiceStream.ServiceDecrypts | bitchat/encryption.py:638-644 | over any list of arrivals passed to the service, failures included, the j-th result is Ok exactly on the j-th ciphertext sealed under the session key; the stored nonce is the number of attempts; the send cipher and every other peer are untouched |
| ServiceStream.ServiceEncrypts | bitchat/encryption.py:624-636 | the service seals the j-th text under the j-th nonce |
| ServiceStream.FailureShiftsService | bitchat/encryption.py:400-405 | after one failed attempt no ciphertext of the stream that follows in turn decrypts at the service |
| ServiceStream.DecryptStream | bitchat/encryption.py:638-644 | the same of the service object, by a loop of calls |
| HandshakeLink.ReceiveSpends | daemon/mesh.py:353-415 | at one end, each delivered packet spends more potential than its response is worth |
| HandshakeLink.DeliverDecreases | daemon/mesh.py:353-415 | the measure of a link strictly decreases on every delivery, valid, garbage or dropped by the recipient check, whether the response is sent, has no route, or raises while it is sent |
| HandshakeLink.RaisedForgets | daemon/mesh.py:373-399 | when sending the response raises, nothing goes out; a NOISE handler has cleared the handshake, a disconnect has removed the peer, and otherwise everything is as processing left it |
| HandshakeLink.HandshakeQuiescence | daemon/mesh.py:353-415 | without new initiations no schedule is longer than the measure |
| HandshakeLink.PairsExactly | daemon/mesh.py:339-399 | an undisturbed handshake between two daemons, recipient checks included, pairs their sessions if and only if neither id ends in a zero byte |
| CipherStream.SentAt | bitchat/encryption.py:366-379 | the j-th ciphertext is sealed under nonce j |
| CipherStream.AttemptAt | bitchat/encryption.py:381-405 | the j-th attempt uses nonce j whatever came before |
| CipherStream.StreamCharacterisation | bitchat/encryption.py:366-405 | the j-th attempt succeeds exactly on the j-th ciphertext and yields the j-th plaintext |
| CipherStream.AcceptedAtMostOnce | bitchat/encryption.py:416-422 | no ciphertext is accepted twice |
| SessionLink.HeadDecrypts | daemon/mesh.py:479-481 | the next ciphertext of an aligned direction decrypts if and only if nothing was spoiled |
| SessionLink.StepAligned | daemon/mesh.py:473-492 | every send and every delivery keeps both directions aligned |
| SessionLink.StepMirrors | daemon/mesh.py:473-492 | the two ends of a session play the same part |
| SessionLink.NonceAlignment | daemon/mesh.py:616-672 | over every run, sender nonce minus ciphertexts in flight is the receiver nonce up to the plaintext acknowledgements tried; a ciphertext decrypts if and only if there were none |
| SessionLink.PrivateRunsDecrypt | daemon/mesh.py:733-750 | with private messages and their acknowledgements only, every decryption succeeds |
| SessionLink.PrivateAcknowledged | daemon/mesh.py:647-672 | a private message that decrypts for the first time is acknowledged once, by a ciphertext of its id under the next nonce; a repeated one and an acknowledgement are not |
| SessionLink.ChannelAckBreaksSession | daemon/mesh.py:619-627 | one acknowledged channel message makes the next private message fail |
| SessionLink.SpoiledForever | daemon/mesh.py:619-627 | a spoiled direction never decrypts again |
| SessionLink.KeptNonceDecrypts | bitchat/encryption.py:400-405 | with a decryption that leaves the nonce alone on failure, every ciphertext decrypts on every run, plaintext acknowledgements included |
| Flood.StepInv | daemon/mesh.py:455-469 | what every delivery of a copy keeps: copies chain down from the origin one TTL at a time, one TTL per sender, no link twice |
| FloodTheorems.FloodCost | daemon/mesh.py:455-469 | at most one copy per directed link |
| FloodTheorems.HopLocality | daemon/mesh.py:542-549 | a copy with TTL t ends a walk of exactly limit + 1 - t links from the origin |
| FloodTheorems.SeenWithinReach | daemon/mesh.py:542-549 | only nodes within limit hops process the message |
| Coverage.OutcomeLabelled | daemon/mesh.py:455-469 | the nodes a finished loss-free run covers carry a labelling: each got its copy from a covered node one label lower and, unless the label is the limit, all its connections are covered |
| Coverage.LabellingRealised | daemon/mesh.py:455-469 | every such labelling is the outcome of some finished loss-free run |
| Coverage.FloodOutcomes | daemon/mesh.py:421-471 | the sets of nodes that finished loss-free runs cover are exactly the labelled ones |
| Coverage.FloodCoverage | daemon/mesh.py:421-471 | every finished loss-free order covers some nodes if and only if no labelling leaves out one of them |
| Coverage.ShortWalksCovered | daemon/mesh.py:542-549 | without a simple walk of limit + 1 links from the origin, every finished loss-free order covers every node that is connected |
| Coverage.SmallNetworksCovered | daemon/mesh.py:542-549 | in particular in every network of at most limit + 1 nodes |
| Coverage.CoverageBoundIsSharp | daemon/mesh.py:455-469 | for every limit of at least two a connected network of limit + 2 nodes has a finished loss-free run that misses a node two links from the origin |
| Mesh.OnPacketDeliversOnce | daemon/mesh.py:184-219 | the handlers never hand an id to the application twice and only append to what was handed over |
| Mesh.DeliversWhen | daemon/mesh.py:421-536 | a message is recorded and handed over exactly when an arrival not taken for the node's own, or the packet it completes, carries it encrypted, to everybody or to this node, readable, from nobody blocked, and new; it counts as acknowledged exactly when it is private or acknowledgement is asked for |
| Mesh.MeshNode.BroadcastPacket | daemon/transport.py:194-204 | one copy per connection |
| Mesh.MeshNode.OnPacketReceived | daemon/mesh.py:184-219 | the dispatch of the node object keeps at-most-once delivery on every path, and hands a message to the application exactly under the guard of `DeliversWhen` |
| Network.AtMostOnceDelivery | daemon/mesh.py:455-461 | on every run of every network no node delivers an id twice |
| Delivery.SendsWhen | daemon/mesh.py:421-672 | exactly which copies a node sends: a new message to everybody or to it, a message to another node, a leave or an acknowledgement to another node with one hop less; the acknowledgement with TTL 3 to the sender's last connection; and a fragment with one hop less unless reassembly raised |
| Delivery.SendsOnce | daemon/transport.py:194-204 | over distinct connections no copy is sent twice |
| Delivery.ArrivedIsDelivered | daemon/mesh.py:473-494 | on every run, a message that arrives encrypted, to everybody or to the node, readable and from nobody blocked, is with the application from then on |
| Delivery.DeliveredByArrival | daemon/mesh.py:455-492 | and only such an arrival brings it there |
| NetworkTheorems.Refines | daemon/mesh.py:184-193 | inside arbitrary other traffic, one broadcast behaves as a run of the flood from the sender that receivers read: the author, or one node more when its id ends in a zero byte |
| NetworkTheorems.FloodPerformed | daemon/mesh.py:421-471 | every loss-free run of the flood is performed by some network run |
| NetworkTheorems.BroadcastOutcomes | daemon/mesh.py:184-219 | the sets of nodes that finished reliable runs reach are exactly the labelled ones, in both cases |
| NetworkTheorems.BroadcastCoverage | daemon/mesh.py:421-471 | whether or not the author recognises its packets: every finished reliable run delivers the message to every other node's application if and only if no labelling with at most seven links leaves out one of them |
| NetworkTheorems.BroadcastReachesAll | daemon/mesh.py:421-471 | it does in every connected network without a simple walk of eight links from the sender that is read, or of at most eight nodes, seven if the author does not recognise its packets |
| Cost.OnPacketRelays | daemon/mesh.py:463-519 | on the direct, the encrypted and the reassembled path, a handler sends copies of a broadcast only when it records the id for the first time, and then one per connection |
| Cost.RelaysWhen | daemon/mesh.py:184-193 | a node relays an id exactly when an arrival it does not take for its own, or the packet it completes, is that broadcast, readable, unblocked, unprocessed and with TTL above one |
| Cost.RelaysOnce | daemon/mesh.py:455-516 | on every run, however the id travels, a node relays it at most once |
| Cost.TrafficSplits | daemon/mesh.py:542-549 | every crossing of a link by the message is somebody's own transmission or a relay |
| Cost.RelayCrossings | daemon/mesh.py:463-469 | relays cross a directed link exactly once if its sender ever relays the id, otherwise never |
| Cost.RelayCost | daemon/mesh.py:463-519 | on every run the relays of an id cross no link twice and number at most the links |
| Cost.ReassembledCost | daemon/mesh.py:511-516 | a broadcast that travels only as fragments crosses each directed link at most once as a whole packet |
| Cost.BroadcastCost | daemon/mesh.py:455-516 | a broadcast sent whole once: at most one copy per link and one more per connection of the origin; no link twice if and only if no arrival at the origin meets the guard under which it relays, and then at most one copy per link |
| Cost.AuthorFloodsAgain | daemon/mesh.py:521-536 | a reassembled packet is not checked for its own sender: an author is given and floods again its own message, and the bound of the cost theorem is met |
| Author.ReadAsOwn | daemon/mesh.py:59-193 | with distinct eight-byte ids, receivers read the author or nobody as the sender, and the author if and only if its id does not end in a zero byte |
| Author.PlainBroadcastCost | daemon/mesh.py:463-469 | if the id is never reassembled nor encrypted, and the author recognises its packets or has no closed walk of at most six links, it does not relay and no link is crossed twice |
| Author.PlainCostExactly | daemon/mesh.py:192-194 | no run of such a broadcast crosses a link twice if and only if the author recognises its packets or has no closed walk of at most six links |
| Author.LastByteDecides | bitchat/protocol.py:260-263 | with a connection that is connected back, no run crosses a link twice if and only if the author's id does not end in a zero byte |
| Author.UnrecognisedAuthorPays | daemon/mesh.py:192-194 | two daemons: an author that does not recognise its packets relays its own message and crosses its link twice |
| Author.SpurLabelled | daemon/mesh.py:455-469 | for every limit from three on, a labelling of limit + 1 nodes in which the copy that comes back to such an author costs the last node the message |
| Author.UnrecognisedAuthorMisses | daemon/mesh.py:192-194 | eight connected nodes: such an author's message can miss a node six links away, and never does if the author recognises its packets |
| FragmentFlood.WalkTravelled | daemon/mesh.py:500-519 | in a finished reliable run every fragment arrives at the end of every walk of at most seven links |
| FragmentFlood.SomeCompletion | bitchat/protocol.py:169-205 | when all fragments of a packet are among the arrivals of a run, whatever came before, one of them completes it |
| FragmentFlood.FragmentsReachAll | daemon/mesh.py:500-536 | with the collector at every node, a message sent in fragments is delivered to every node within seven links in every finished reliable order |
| FragmentFlood.FragmentsBeatWhole | daemon/mesh.py:500-519 | in one network of nine nodes a whole packet can miss a node that a message in fragments always reaches |
| NetworkTheorems.CopiesTravelWalks | daemon/mesh.py:542-549 | in every run a copy in flight with TTL t ends a walk of exactly 8 - t links from the origin |
| NetworkTheorems.BroadcastLocality | daemon/mesh.py:542-549 | only nodes within seven hops process it, and the author only if it does not recognise its packets |
| Quiescence.RelayWeighsLess | daemon/mesh.py:542-549 | a relay to at most D connections weighs less than the packet relayed |
| Quiescence.OnPacketBelow | daemon/mesh.py:500-519 | what a node sends is below the packet it received, although reassembly and first receipt create packets with a fresh TTL |
| Quiescence.ArrivalDecreases | daemon/mesh.py:184-219 | every arrival or loss decreases the lexicographic measure of fragments, messages and acknowledgements |
| Quiescence.RelayTermination | daemon/mesh.py:500-565 | no infinite run consists of arrivals and losses only |
| Octets.BigEndianRoundTrip | bitchat/protocol.py:673-675 | k bytes keep a number modulo 256 to the k |
| Octets.MostSignificantFirst | bitchat/protocol.py:256-258 | the first byte of a number weighs most |
| Octets.StripPadding | bitchat/protocol.py:260-263 | stripping zeros undoes zero padding exactly for ids that do not end in zero |
| PacketCodec.FindTarget | bitchat/protocol.py:430-441 | the block search loop finds the smallest block with 16 bytes of room |
| PacketCodec.CreatePacket | bitchat/protocol.py:372-454 | the encoder, byte for byte, including the payload that is too long |
| PacketCodec.RelayRaw | daemon/mesh.py:542-549 | the patched copy differs in the TTL byte only |
| PacketCodec.RelaysParse | daemon/mesh.py:542-549 | relays change nothing the parser sees except the TTL |
| PacketCodec.PacketRoundTrip | bitchat/protocol.py:221-298 | a created packet parses to its type, sender, addressee and payload with TTL 7 - k after k relays, and the seventh relay refuses |
| PacketCodec.CreateFails | bitchat/protocol.py:372-412 | creation fails exactly when the payload length or the clock does not fit its field |
| PacketCodec.WireLayout | bitchat/protocol.py:372-428 | every field at its offset: version, type, TTL, clock, the flag bits for recipient and signature, length, sender, payload and signature |
| PacketCodec.Id8Bytes | bitchat/protocol.py:404-421 | an id keeps its first eight bytes and is filled up with zeros |
| PacketCodec.IdSurvives | bitchat/protocol.py:260-273 | an id comes back if and only if it has at most eight bytes and does not end in zero |
| PeerIds.SenderSeen | bitchat/protocol.py:260-273 | what receivers of a created and relayed packet read as its sender and its recipient |
| PeerIds.RecipientRead | bitchat/protocol.py:414-421 | without a recipient, and not in a fragment, eight bytes 0xFF are read after any k < 7 relays; in a fragment none; otherwise the recipient's id without trailing zeros |
| PeerIds.AddressedExactly | daemon/mesh.py:428-431 | a packet created without recipient is for every daemon; one created for an eight-byte id is for exactly the daemon with that id, if it does not end in zero; the ids of all zeros and of all 0xFF are read as everybody |
| PeerIds.SeenAs | daemon/mesh.py:192-194 | an eight-byte id is read as itself if it does not end in a zero byte, and otherwise as no eight-byte id |
| PeerIds.ReplyAddressed | daemon/mesh.py:353-379 | a reply passes its addressee's recipient check if and only if the addressee's id does not end in a zero byte |
| PacketCodec.ParseAccepts | bitchat/protocol.py:221-292 | exactly 21 bytes or more of version one and a known type parse, unless a compressed payload does not inflate |
| PacketCodec.TruncationAccepted | bitchat/protocol.py:223-277 | of the packets that parse, the sender field is whole exactly from 22 bytes on, a recipient field from 30 on and the payload from start plus announced length on |
| PacketCodec.MissingBytesReadAsZeros | bitchat/protocol.py:260-273 | a packet cut off inside its ids parses as if the missing bytes were zeros |
| PacketCodec.PaddingArithmetic | bitchat/protocol.py:430-448 | exactly the sizes 22-240, 257-496, 769-1008 and 1793-2032 are padded, to a block size, and unpadding restores them |
| PacketCodec.UnpadRemoves | bitchat/protocol.py:211-218 | unpadding takes off exactly what the last byte says, and nothing when that is zero or more than there is |
| Chunking.ChunksRebuild | bitchat/fragmentation.py:28-29 | the chunks join to the original, none is empty, all but the last are full |
| Chunking.ChunkLoop | bitchat.py:540-542 | the slicing loop computes the chunks |
| Fragments.PayloadRoundTrip | bitchat.py:824-829 | a fragment payload reads back as the fragment, with every field at its offset |
| Fragments.SendFragments | bitchat.py:540-568 | the sending loop emits exactly the packet of each fragment, and fails exactly when their number does not fit 16 bits |
| Fragments.FragmentOnTheWire | bitchat.py:545-568 | every fragment packet is 256 bytes, needs no further fragmenting, and reads back after up to six relays, marked START, CONTINUE or END by position, with the type of a message and no recipient |
| Fragments.FragmentLargePayload | bitchat/fragmentation.py:22-49 | nothing up to 500 bytes, otherwise at least two numbered pieces with the original type, marked START, CONTINUE and END by position, that join to the payload |
| Fragments.Reassemble | bitchat/protocol.py:187-194 | the loop joins parts 0 to total - 1 or reports a missing one |
| Reassembly.CountingSuffices | bitchat/protocol.py:184-203 | for genuine parts, their number is the total if and only if every index is there, and then they join to the packet |
| Reassembly.OthersUntouched | bitchat/protocol.py:175-181 | a fragment never disturbs another id |
| Reassembly.AddAnyFragment | bitchat/protocol.py:169-205 | for any fragment, forged ones included: a value comes back exactly when the number of parts is the announced total and no index is missing, and it is those parts joined; otherwise the part is kept |
| Reassembly.CollectorTracks | bitchat/protocol.py:169-205 | after any arrivals the collector holds exactly the indices outstanding since each packet's last completion |
| Reassembly.ReassemblyCorrect | bitchat/protocol.py:169-205 | a value is returned exactly on completing arrivals, and it is the original packet |
| Reassembly.SenderIsOpener | bitchat/protocol.py:175-203 | a completed packet is attributed to the sender of its first fragment since the last completion |
| Reassembly.FragmentCollector.AddFragment | bitchat/protocol.py:169-205 | the collector object returns a value exactly when the arrival completes a packet, and it is that packet, for every assignment of packets to ids that its history of arrivals fits |
| Reassembly.WireFragmentsGenuine | bitchat.py:822-833 | fragments read off the wire are genuine |
| Reassembly.FragmentedPacketArrives | bitchat.py:822-838 | a fragmented and reassembled packet parses to what it was created from |
| MessagePayload.PayloadRoundTrip | bitchat/protocol.py:301-344 | id, content or ciphertext, channel and encryption flag come back for every combination of optional fields |
| MessagePayload.PayloadLayout | bitchat/protocol.py:466-505 | every field at its offset, with those the parser skips: the flag bits, the clock, the sender's name and peer id |
| MessagePayload.CreateFails | bitchat/protocol.py:457-505 | creation fails exactly when a length or the clock does not fit its field |
| MessagePayload.CutAccepted | bitchat/protocol.py:301-344 | a payload cut off after n bytes is accepted if and only if the content length, and the length bytes of the peer id and channel it announces, are there and the channel so far decodes |
| MessagePayload.FlagsDecode | bitchat/protocol.py:466-476 | the flag byte gives each flag back |
| Identity.TimestampBytes | bitchat/protocol.py:673-675 | the loop writes the big-endian bytes |
| Identity.HexRoundTrip | bitchat/protocol.py:660-661 | hexadecimal digits survive the conversion to bytes and back |
| Identity.DigitsKept | bitchat/protocol.py:660-661 | an id keeps its first 16 digits and is filled up with zeros; a byte is two digits, the high one first |
| Identity.AnnouncementLayout | bitchat/protocol.py:646-684 | every field of an announcement at its offset |
| Identity.AnnouncementRoundTrip | bitchat/protocol.py:646-684 | encode then parse returns every field and consumes every byte |
| Identity.FieldsRecovered | bitchat/protocol.py:660-675 | ids come back if and only if they have 16 digits, timestamps if and only if their thousandfold fits 64 bits |
| Identity.ParseExtends | bitchat/protocol.py:526-643 | bytes after what the parser consumed change nothing |
| Identity.PrefixFree | bitchat/protocol.py:526-643 | every strict prefix of an encoding is rejected |
| Identity.EncodeFails | bitchat/protocol.py:646-684 | encoding fails exactly when a length does not fit its byte |
| Identity.BadNicknameRejected | bitchat/protocol.py:526-643 | an announcement whose nickname does not decode is rejected |
| Framing.FrameBound | daemon/transport.py:181-185 | exactly packets up to 65535 bytes can be framed, behind their length in two bytes, most significant first |
| Framing.ReadLoop | daemon/transport.py:206-229 | the read loop emits every whole frame |
| Framing.PrefixRead | daemon/transport.py:206-229 | on any prefix of a stream exactly the packets with complete frames are emitted |
| Framing.FramingRoundTrip | daemon/transport.py:175-188 | reading back a stream of frames gives the list of packets |
| PendingQueue.PendingConserved | daemon/mesh.py:678-731 | under any interleaving each letter occurs exactly as often as it was submitted |
| PendingQueue.SubmittedOnce | daemon/mesh.py:678-731 | a letter submitted once is in exactly one place and never in two drains |
| PendingQueue.PrivateQueue.SendPrivateMessage | daemon/mesh.py:713-750 | adds exactly one copy of one letter, whose id is the one returned: with a session at the end of what was sent, under that id; without one at the end of the peer's waiting list |
| PendingQueue.PrivateQueue.StartPendingDrain | daemon/mesh.py:678-681 | the whole waiting list of the peer moves into a drain and no letter changes its number of copies |
| PendingQueue.PrivateQueue.ContinueDrain | daemon/mesh.py:682-687 | takes the first letter of the drain, which is sent, waits again last or is lost; no letter changes its number of copies |
| PendingQueue.PrivateQueue.RemovePeer | daemon/mesh.py:567-571 | the letters of a removed peer are accounted for as dropped |
| PendingQueue.WireIdIsReturned | daemon/mesh.py:713-750 | with ids drawn afresh, a sent letter left under the id its submission returned if and only if the session existed at submission |
| QueueOrder.QueuedInOrder | daemon/mesh.py:678-717 | on every run the letters of each waiting list and of each drain stand in the order of the events that queued them |
| QueueOrder.SubmittedWait | daemon/mesh.py:713-731 | submissions without a session wait in the order of submission, behind what waited before |
| QueueOrder.DrainSendsInOrder | daemon/mesh.py:678-687 | whatever else happens, a drain whose session stays sends its letters from the front, one at each turn under the id drawn there |
| QueueOrder.WholeListSent | daemon/mesh.py:678-687 | a drain that gets its turns sends the whole waiting list in order |

## Left out

- X25519 low-order points, on which the library's exchange raises: every symbolic exchange succeeds.
- Secrecy and authentication against an attacker who computes with keys: the symbolic model states agreement, key and transcript binding, and (in `CipherStream`) that nobody else sealed under the session key.
- ServiceState.EncryptionService: the dictionaries hold handshakes and ciphers as values and a stored handshake is resumed as an object to be updated in place; sharing of one object between dictionary entries is not captured.
- SessionLink: acknowledgements arrive with TTL 3, that is over a direct connection, and no peer is blocked; relayed acknowledgements, which the receiver does not try to decrypt, are not part of that model.
- Mesh: peer table, channel announcements, leave side effects and blocked-peer bookkeeping; blocked and unreadable packets are choices of the environment.
- FragmentFlood: the connection a fragment arrived on is still up when its packet completes, and the fragment handler raises only if that packet does not parse.
- Handshake and announcement packets inside `RelayTermination`: they are not relayed, and `HandshakeQuiescence` covers their exchange.
- The wire formats are not composed with the symbolic cryptography: ciphertexts are payload bytes to the codecs.
- Message payload and identity encoders: the appends to a byte buffer and the advancing offset are written as concatenations and offsets of a function; only the byte loop of the timestamp is a loop.
- `DeliveryTracker.mark_delivered`, `should_send_ack` and the JSON of acknowledgements: field copies and one-line conditions; whether a channel message is acknowledged is a choice of the environment.
- The original-type byte that the collector stores with a fragment's first part: never used in reassembly.
- Channel encryption, password derivation and compression: library calls.
- The Bloom filter: written but never consulted; its capacity of 5000 ids (daemon/mesh.py:79), past which adding one may raise, is taken as not exceeded.
- BLE scanning, console commands and display in bitchat.py; HTTP and WebSocket API, discovery, configuration, persistence.
- PendingQueue: the handshake that a submission without a session initiates, and its timeout, which touch no letter.
- Timeouts and relay delays: replaced by arbitrary scheduling.
- Floating-point rounding of announcement timestamps: they are exact rationals.
