# CypherSyntax: a verified model

CypherSyntax is an authenticated session protocol. Two parties agree on a session in three signed messages,
exchange packets in canonical envelopes, refuse replayed packets with a sliding window, and keep their secrets
in an encrypted file. This project models those layers in Dafny and proves what they guarantee over every
input, every run and every crash.

`dafny verify dfyconfig.toml` checks everything.

## How the model is organised

| Layer | Modules |
|---|---|
| Text, bytes, JSON | `Basics`, `Utf8`, `Digits`, `Json`, `JsonRoundTrip`, `JsonOrder`, `JsonBytes`, `JsonImage`, `JsonText` |
| Envelopes and handshake messages | `Protocol`, `Wire`, `WireText`, `Handshake`, `HandshakeCodec`, `HandshakeText`, `Payloads`, `SignedBytes`, `Kdf`, `KeySchedule` |
| Sessions | `Replay`, `Session`, `Packets`, `Channel`, `Delivery` |
| Threads of a session | `SendLock`, `SealReuse`, `ReturnedPackets`, `ConcurrentSenders`, `ReceiveLock` |
| Handshake | `Establish`, `Admission`, `Agreement`, `Accountability`, `InjectiveAgreement`, `Progress`, `HonestRun`, `Separation` |
| Encrypted store | `FileSystem`, `Persistence`, `Store`, `StoreFormat`, `StoreKeys` |

Objects that the source updates in place are classes: `Replay.ReplayWindow`, `Session.SessionState`, the two
handshake classes of `Establish`, `FileSystem.Volume` and `Store.EncryptedStore`. Their methods are proved
against functions of their fields (`Record`, `Encrypted`, `InitiatorComplete`, ...), and the theorems about
runs are proved about those functions. What each of these functions accepts, computes and raises is stated once more
without them, by the lemmas of `Admission`, `Packets`, `KeySchedule`, `SignedBytes`, `WireText`, `HandshakeText` and
`StoreFormat`: field by field, with literal labels and names, exactly when a call succeeds and which error it raises
otherwise. The JSON printer and the JSON parser are concrete and independent of
each other: the parser accepts whitespace, any key order and every escape of section 7 of RFC 8259.

Library calls are the fields of one record, `Library.Calls`. What is assumed of them:

- `Library.Lawful`: lengths of keys, hashes and signatures; X25519 commutes (section 6.1 of RFC 7748); a
  signature verifies under its own key; a sealed plaintext opens, and its ciphertext is 16 bytes longer.
- `Agreement.Fair`: in a run, what verifies under an honest key has been signed with it, and each generated
  X25519 key is new. Identities with honest keys sign only in the three calls of `session.py`.
- `Channel.IdealStep`: the AEAD opens only what one of the two sessions sealed under the same key, nonce and
  associated data. `Separation.SharedStep` weakens this to what any session at all has sealed.
- `Kdf.NoHkdfCollision`, `InjectiveAgreement.NoHmacCollision`, `Separation.NoHashCollision`: the finitely many
  HKDF, HMAC and SHA-256 calls of a run do not collide. (Injectivity on all inputs would contradict the 32-byte
  outputs.) Agreement on transcripts needs none of them: the signatures cover the transcript itself.

`HonestRun` shows that these assumptions can be met together: an undisturbed handshake is a fair run whatever
the libraries do beyond their laws, and an example record of functions and two identities make one.

## Results a reader may not expect

- The key check of `save` looks at the outermost keys only (`src/cyphersyntax/store.py:45`), so an object whose
  *nested* dictionaries have integer keys is written. `Store.LoadAfterSave` says what `load` then does, for every
  object that `save` accepts: if each dictionary in it sorts its keys as it would sort their texts, `load` returns
  the object with text for keys and lists for tuples; if not, it raises. So `{"": {1: None}}` comes back changed,
  and `{"": {9: None, 10: None}}` does not come back: 9 sorts before 10 as a number and after it as text.
- A failure between the AEAD call and the increment of `send_sequence`, an interrupt say, leaves a sequence sealed
  and not yet spent. Over every interleaving of threads and failures a sequence, so a key and nonce, is sealed twice
  if and only if something is sealed while such a failure is the last thing that happened to the sequence
  (`SealReuse.SequenceRepeatsExactlyWhenResealed`). The session of every undisturbed handshake has such a run
  (`HonestRun.EstablishedSessionReseals`). No failure of `encrypt` itself can fall there
  (`Session.EncryptSucceedsExactly`), and without one nothing is sealed twice.
- A failure after the increment loses a packet: its sequence is spent and nobody has it. The returned packets cover
  all spent sequences exactly when there was no such failure (`ReturnedPackets.AllReturnedExactlyWithoutLateFailure`).
- The signature of a confirmation does not cover its suite, names and keys. A confirmation with any of them altered
  verifies, and only the comparison with the response refuses it (`Admission.AlteredConfirmationIsRefused`).
- `atomic_write_bytes` does not always report failures as `PersistenceError`: an `OSError` from `is_symlink`
  or from closing the descriptor in the `finally` block escapes, and the latter also leaves the temporary file
  behind. `Persistence.AtomicWriteBytes` states when.

## Model

| member | source | states |
|---|---|---|
| InjectiveAgreement.InjectiveAgreementOverEveryRun | src/cyphersyntax/session.py:158-296 | in every run of any number of handshakes, the completed responders with honest peers map one-to-one to completed initiators with the same offer, transcript, names, suite and ephemeral keys |
| InjectiveAgreement.CompletedInitiatorHasOneResponder | src/cyphersyntax/session.py:158-243 | an initiator that completed against an honest key agrees with one responder and no other |
| InjectiveAgreement.AgreementIsOneToOne | src/cyphersyntax/session.py:299-409 | one offer replayed to several responders, or one responder answering several initiators, never yields two agreeing pairs that share a side |
| InjectiveAgreement.ConfirmationSigner | src/cyphersyntax/session.py:258-296 | the signature that completes a responder was made by an initiator's `complete` over the responder's own offer, response and both confirmations |
| InjectiveAgreement.ResponseSigner | src/cyphersyntax/session.py:158-173 | the signature that completes an initiator was made by a responder over the initiator's own offer |
| InjectiveAgreement.CompletionImpliesKeyAgreement | src/cyphersyntax/session.py:179-195 | completion implies equal root keys and equal supplemental secrets, and two completed sessions are mirror images that start a channel |
| InjectiveAgreement.SharedSecretsAgree | src/cyphersyntax/session.py:176-179 | both sides of an agreeing pair compute one X25519 secret |
| InjectiveAgreement.SupplementalSecretsAgree | src/cyphersyntax/session.py:181-195 | equal roots force equal supplemental secrets |
| InjectiveAgreement.RootsAgree | src/cyphersyntax/session.py:186-195 | the responder confirmation that the initiator checked fixes the root key |
| Separation.PairRootIsItsOwn | src/cyphersyntax/kdf.py:21-33 | no other session of a run has the root of an agreeing pair |
| Separation.InitiatorRootsDiffer | src/cyphersyntax/session.py:180-185 | no two completed initiators of a run share a root |
| Separation.ResponderRootsDiffer | src/cyphersyntax/session.py:373-380 | no two responders of a run share a root |
| Separation.SharedRootMeansAgreement | src/cyphersyntax/session.py:180-195 | an initiator shares its root with no responder but the one it agrees with |
| Separation.SharedRunIsIdeal | src/cyphersyntax/session.py:95-135 | a channel stays ideal although the AEAD also opens what sessions with other roots have sealed |
| Separation.PairIsSafeAmongOthers | src/cyphersyntax/session.py:76-296 | end-to-end safety from the handshake on, for each agreeing pair of a run among all its other sessions |
| HonestRun.UndisturbedRunCompletes | src/cyphersyntax/session.py:411-435 | an undisturbed handshake is a fair run that completes both sides as mirror images, whatever the libraries do beyond their laws |
| HonestRun.UndisturbedRunMakesAPair | src/cyphersyntax/session.py:411-435 | and it meets every hypothesis of the theorems about agreeing pairs |
| HonestRun.ExampleRun | src/cyphersyntax/session.py:411-435 | such a handshake exists, between two identities with different keys |
| Accountability.EveryAnsweredOfferWasAddressedAndSigned | src/cyphersyntax/session.py:347-355 | in every run, with any peers, a responder has answered only an offer that names it and is signed under the key it trusts |
| Accountability.OfferSigner | src/cyphersyntax/session.py:338-355 | in every fair run, an offer answered under an honest key was made by an initiator with that key for that responder, with the same terms and ephemeral key |
| Accountability.EveryResponderCompletionIsConfirmed | src/cyphersyntax/session.py:258-281 | in every run, a completed responder, with a dishonest peer too, received a confirmation that repeats its response, is signed and confirms the session's root |
| Accountability.EveryInitiatorCompletionIsConfirmed | src/cyphersyntax/session.py:158-195 | in every run, a completed initiator received a response that repeats its offer, comes from the trusted key, is signed and confirms the session's root |
| Accountability.RunKeepsObjects | src/cyphersyntax/session.py:143-409 | after every run, with no assumption on signatures or fresh keys, each object is accounted for by the calls made on it |
| Agreement.RunKeepsInvariant | src/cyphersyntax/session.py:143-409 | after every run each object, each signature ever made and each generated key is accounted for, and calls that raise have changed nothing |
| Admission.InitiatorStartsExactly | src/cyphersyntax/session.py:299-336 | an initiator starts exactly between two different legal names, and every field of its offer |
| Admission.ResponderStartsExactly | src/cyphersyntax/session.py:338-380 | for every valid offer: answered exactly if it is addressed to this identity, carries the trusted key, is signed, and the ephemeral keys differ and exchange; the error of each failing check |
| Admission.InitiatorCompletesExactly | src/cyphersyntax/session.py:158-195 | for every valid response: accepted exactly if it repeats the offer, carries the trusted key, is signed and confirms the root; the error of each failing check |
| Admission.InitiatorCompletion | src/cyphersyntax/session.py:197-243 | every field of the confirmation and of the session |
| Admission.ResponderCompletesExactly | src/cyphersyntax/session.py:258-296 | for every valid confirmation: accepted exactly if it repeats the response, is signed and confirms the root; the error of each failing check, and the session |
| Admission.AcceptedConfirmationIsUnique | src/cyphersyntax/session.py:258-281 | all confirmations one responder accepts are equal up to the signature |
| Admission.AlteredConfirmationIsRefused | src/cyphersyntax/handshake.py:577-589 | an accepted confirmation with any field altered that its signature does not cover still verifies, raises ValueError and changes nothing |
| Admission.ResignedConfirmationIsRefused | src/cyphersyntax/session.py:272-281 | another key confirmation, signed again with the initiator's key, raises KeyConfirmationError and changes nothing |
| Admission.AcceptedResponseIsUnique | src/cyphersyntax/session.py:158-195 | all responses with one ephemeral key that one initiator accepts are equal up to the signature |
| Admission.ResignedResponseIsRefused | src/cyphersyntax/session.py:186-195 | another key confirmation, signed again with the responder's key, raises KeyConfirmationError and changes nothing |
| Admission.MisaddressedOfferIsRefused | src/cyphersyntax/session.py:347-348 | an offer made for somebody else raises ValueError although its signature verifies |
| Establish.InitiatorHandshake.Complete | src/cyphersyntax/session.py:158-243 | the checks in their order, the error of each, and that only a normal return forgets the private key |
| Establish.ResponderHandshake.Complete | src/cyphersyntax/session.py:258-296 | the checks in their order, the error of each, and that only a normal return forgets the root key |
| Establish.InitiatorHandshake.constructor | src/cyphersyntax/session.py:143-152 | the fields as given |
| Establish.ResponderHandshake.constructor | src/cyphersyntax/session.py:246-252 | the fields as given |
| Establish.StartedOfferIsValid | src/cyphersyntax/session.py:299-336 | a started offer is a valid message, signed over its own payload |
| Establish.StartedResponderHolds | src/cyphersyntax/session.py:338-409 | a response echoes its offer, is signed over its own payload and confirms the root that the pending responder keeps |
| Establish.CompletedInitiatorHolds | src/cyphersyntax/session.py:197-243 | the confirmation fits the response and is signed over its own payload |
| Establish.TranscriptIgnoresConfirmation | src/cyphersyntax/session.py:366-401 | the provisional, the unsigned and the final response have one transcript |
| Progress.InitiatorIsSpentByCompletion | src/cyphersyntax/session.py:154-166 | after any sequence of responses the object is unchanged, or spent exactly if one was accepted |
| Progress.ResponderIsSpentByCompletion | src/cyphersyntax/session.py:254-263 | after any sequence of confirmations the object is unchanged, or spent exactly if one was accepted |
| Progress.InitiatorCompletesAtMostOnce | src/cyphersyntax/session.py:162-164 | every call after an accepted one raises the already-completed error |
| Progress.ResponderCompletesAtMostOnce | src/cyphersyntax/session.py:259-261 | every call after an accepted one raises the already-completed error |
| Progress.OfferIsAnsweredExactlyWhenTrusted | src/cyphersyntax/session.py:338-355 | an honest offer survives the wire and is answered exactly when the responder trusts the initiator's key |
| Progress.ResponseCompletesExactlyWhenMatched | src/cyphersyntax/session.py:158-195 | after any rejected responses, an honest one carried as bytes completes the initiator exactly when the anchor and the supplemental secrets match |
| Progress.ConfirmationCompletes | src/cyphersyntax/session.py:258-296 | after any rejected confirmations, the honest one carried as bytes completes the responder, and the two sessions mirror each other |
| Payloads.JoinFieldsInjective | src/cyphersyntax/handshake.py:101-102 | length-prefixed fields can be read back from their concatenation in only one way |
| Payloads.OfferPayloadInjective | src/cyphersyntax/handshake.py:211-230 | equal offer payloads cover equal fields |
| Payloads.TranscriptInjective | src/cyphersyntax/handshake.py:694-712 | equal transcripts come from one offer and equal responder keys |
| Payloads.ResponsePayloadInjective | src/cyphersyntax/handshake.py:448-456 | equal response payloads come from one offer and equal responder fields |
| Payloads.ConfirmationPayloadInjective | src/cyphersyntax/handshake.py:591-605 | equal confirmation payloads come from one offer, equal responder fields and equal confirmations |
| Payloads.PayloadKindsDisjoint | src/cyphersyntax/handshake.py:220-230 | no byte string is the signing payload of two kinds of message |
| SignedBytes.OfferPayloadIs | src/cyphersyntax/handshake.py:211-230 | the signed bytes of an offer: label, version, suite, names and keys, in this order, each behind its length |
| SignedBytes.TranscriptIs | src/cyphersyntax/handshake.py:694-712 | the bytes of a transcript |
| SignedBytes.ResponsePayloadIs | src/cyphersyntax/handshake.py:448-456 | the signed bytes of a response |
| SignedBytes.ConfirmationPayloadIs | src/cyphersyntax/handshake.py:591-605 | the signed bytes of a confirmation |
| HandshakeText.OfferBytesExactly | src/cyphersyntax/handshake.py:309-361 | the exact text of an offer, in raw UTF-8; `from_bytes` returns an offer on that text alone, with fields within the limits, and raises HandshakeError on the rest |
| HandshakeText.ResponseBytesExactly | src/cyphersyntax/handshake.py:458-534 | the same for responses |
| HandshakeText.ConfirmationBytesExactly | src/cyphersyntax/handshake.py:607-667 | the same for confirmations |
| HandshakeText.NamesAreRaw | src/cyphersyntax/handshake.py:105-111 | a name without quotes, backslashes and control characters stands in the bytes unescaped |
| HandshakeCodec.OfferRoundTrip | src/cyphersyntax/handshake.py:309-361 | encoding a valid offer never fails and decoding undoes it |
| HandshakeCodec.OfferImage | src/cyphersyntax/handshake.py:327-361 | `from_bytes` accepts exactly the encodings of valid offers |
| HandshakeCodec.ResponseRoundTrip | src/cyphersyntax/handshake.py:458-534 | encoding a valid response never fails and decoding undoes it |
| HandshakeCodec.ResponseImage | src/cyphersyntax/handshake.py:485-534 | `from_bytes` accepts exactly the encodings of valid responses |
| HandshakeCodec.ConfirmationRoundTrip | src/cyphersyntax/handshake.py:607-667 | encoding a valid confirmation never fails and decoding undoes it |
| HandshakeCodec.ConfirmationImage | src/cyphersyntax/handshake.py:628-667 | `from_bytes` accepts exactly the encodings of valid confirmations |
| HandshakeCodec.KindsAreDisjoint | src/cyphersyntax/handshake.py:161-166 | no byte string parses as two kinds of message |
| HandshakeCodec.ShapeFits | src/cyphersyntax/handshake.py:105-114 | every valid message of the three kinds fits 4096 bytes, so the size error is never raised |
| KeySchedule.MessageKeyIs | src/cyphersyntax/kdf.py:78-96 | key and nonce are the first 32 and the last 12 of 44 bytes, expanded with the literal label and the eight big-endian bytes of the sequence from the traffic secret, which is expanded from the root with the literal label, suite, sender and recipient |
| KeySchedule.TrafficBytesAre | src/cyphersyntax/kdf.py:55-75 | the information string of the traffic secret, byte by byte |
| KeySchedule.RootIs | src/cyphersyntax/kdf.py:21-33 | the root's input read back: shared before supplemental secret, the transcript's hash as salt, the literal label |
| KeySchedule.ConfirmationIs | src/cyphersyntax/kdf.py:36-52 | each role's confirmation input with the literal role name |
| KeySchedule.BigEndianDigit | src/cyphersyntax/kdf.py:94 | numbers are written most significant byte first |
| Kdf.RolesAreSeparated | src/cyphersyntax/kdf.py:36-52 | the two roles never confirm with the same bytes |
| Kdf.TrafficQueryInjective | src/cyphersyntax/kdf.py:59-75 | one traffic-secret derivation comes from one root, suite and direction |
| Kdf.MessageQueryInjective | src/cyphersyntax/kdf.py:94-95 | one message-key derivation comes from one secret and one sequence |
| Kdf.MessageKeysAreSeparated | src/cyphersyntax/kdf.py:78-96 | barring HKDF collisions, one key and nonce come from one root, suite, direction and sequence |
| Channel.EndToEndSafety | src/cyphersyntax/session.py:76-140 | in every run against a network that drops, duplicates, reorders, reflects and alters, the plaintexts a session returns map one-to-one to its peer's `encrypt` calls with equal sequence and content |
| Channel.AcceptedBlobIsPeerPacket | src/cyphersyntax/session.py:112-140 | an accepted blob is byte for byte the packet the peer made for that sequence, so nothing is accepted by reflection or alteration |
| Channel.RunKeepsInvariant | src/cyphersyntax/session.py:76-140 | after every run both logs of sent packets, both windows and both logs of returned plaintexts are consistent |
| Channel.NeverRekeys | src/cyphersyntax/session.py:95-106 | in every run no key and nonce is applied to two messages, within a direction or across the two |
| Delivery.ReturnedExactlyOnceWhenTimely | src/cyphersyntax/session.py:112-140 | over every run of the channel, each message is returned exactly once if its packet first arrives before it is overtaken by the window size, and otherwise never, whatever else arrives |
| Delivery.PacketIsAuthentic | src/cyphersyntax/session.py:123-140 | at any point of a run the mirrored peer parses every packet made so far, derives its key and nonce and recovers its plaintext |
| Delivery.PacketsDiffer | src/cyphersyntax/session.py:82-110 | no two packets of one session are equal |
| Delivery.ReceiverFollowsWindow | src/cyphersyntax/session.py:137-140 | over every run a receiver's window and what it returned are those of a bare window fed with the packets that arrived |
| Delivery.OtherBlobStep | src/cyphersyntax/session.py:112-140 | a delivered blob that is not one of the peer's packets leaves no trace |
| Packets.PacketIs | src/cyphersyntax/session.py:76-110 | for every session and plaintext: when `encrypt` returns, the error otherwise, and the exact packet, down to key, nonce and associated data |
| Packets.DecryptsExactly | src/cyphersyntax/session.py:112-140 | for every session and blob: when `decrypt` returns, what, and the error of each failing check |
| Session.SessionState.constructor | src/cyphersyntax/session.py:52-67 | a new session has used no sequence and accepted none |
| Session.SessionState.Encrypt | src/cyphersyntax/session.py:76-110 | the packet, the new fields and the AEAD calls made so far, which stay one per sequence |
| Session.SessionState.Decrypt | src/cyphersyntax/session.py:112-140 | the result, and that only an accepted packet changes the window |
| Session.EncryptSucceedsExactly | src/cyphersyntax/session.py:76-110 | `encrypt` succeeds exactly for a legal plaintext, an unspent sequence and valid names, and never fails after the AEAD call |
| Session.DecryptIsWindowStep | src/cyphersyntax/session.py:112-140 | decryption is the window's decision on an attempt that does not depend on the window |
| Session.RejectedTrafficDoesNotInterfere | src/cyphersyntax/session.py:112-140 | deleting every rejected delivery from a run leaves the final fields and every accepted result unchanged |
| SealReuse.SequenceRepeatsExactlyWhenResealed | src/cyphersyntax/session.py:82-110 | under every interleaving with failures anywhere, two AEAD calls use one sequence exactly if something was sealed while a failure had left the next sequence sealed already |
| SealReuse.KeyRepeatsExactlyWhenResealed | src/cyphersyntax/session.py:95-106 | the same for one key and nonce, barring HKDF collisions |
| SealReuse.NoSequenceIsSealedTwice | src/cyphersyntax/session.py:95-110 | so without a failure between the AEAD call and the increment no sequence is sealed twice |
| SealReuse.ExposedFailureReseals | src/cyphersyntax/session.py:102-109 | at any point of any run, a failure in that stretch makes the next `encrypt` seal its plaintext under the same sequence |
| SealReuse.SealThenFailReseals | src/cyphersyntax/session.py:102-109 | every session that can encrypt has a run of two threads that seals its first sequence twice |
| HonestRun.EstablishedSessionReseals | src/cyphersyntax/session.py:102-109 | and so has the session that any undisturbed handshake establishes |
| ReturnedPackets.ReturnedAreSpentButNotLost | src/cyphersyntax/session.py:82-110 | under every interleaving with failures anywhere, returned packets carry ascending sequences and are encryptions of their callers' plaintexts; once no thread is inside they are the spent ones without those lost by a failure after the increment |
| ReturnedPackets.AllReturnedExactlyWithoutLateFailure | src/cyphersyntax/session.py:109-110 | once no thread is inside, every sequence below the current one was returned exactly if there was no such failure |
| SendLock.SpentSequencesAreContiguous | src/cyphersyntax/session.py:82-110 | under every interleaving with failures anywhere, the packets whose sequences the increment has spent carry exactly those from the initial to the current one, each once and in order, and each is the encryption of its caller's plaintext |
| SendLock.ExhaustionIsPermanent | src/cyphersyntax/session.py:83-84 | once 2^64 - 1 is used no sequence is ever spent again |
| SendLock.RunKeepsInvariant | src/cyphersyntax/session.py:82-110 | the lock is held by exactly the thread inside it, and what that thread has read is still current |
| ConcurrentSenders.SpentIsSent | src/cyphersyntax/session.py:76-110 | what any interleaving of sending threads spends is what the channel's sequential calls of `encrypt` on the same plaintexts send, whatever arrives in between |
| ConcurrentSenders.ThreadsAreSafeEndToEnd | src/cyphersyntax/session.py:76-140 | so what the peer returns was encrypted by one of the threads, with equal sequence and content, and is returned once |
| ReceiveLock.InterleavingsAreSerial | src/cyphersyntax/session.py:112-140 | every interleaving of `decrypt` calls, with failures anywhere, returns what the calls return one after another in the order of the lock, and leaves the same window |
| ReceiveLock.FinishedSectionsAreCalls | src/cyphersyntax/replay.py:66-75 | without failures under the lock that is the sequential run of `decrypt` over the packets in that order |
| ReceiveLock.NoSequenceIsReturnedTwice | src/cyphersyntax/replay.py:45-59 | under every interleaving, with failures even between the assignments that record a sequence, no sequence is returned twice |
| Replay.ReplayWindow.constructor | src/cyphersyntax/replay.py:27-43 | a new window has accepted nothing |
| Replay.ReplayWindow.RecordUnlocked | src/cyphersyntax/replay.py:54-59 | the pruned fields after recording |
| Replay.ReplayWindow.Observe | src/cyphersyntax/replay.py:61-64 | accepts exactly what the full history would |
| Replay.ReplayWindow.AuthenticateAndRecord | src/cyphersyntax/replay.py:66-75 | accepts exactly what the full history would and the operation confirms, and records only then; the operation may read anything but the window |
| Replay.CheckAgreesWithHistory | src/cyphersyntax/replay.py:45-52 | the pruned window decides every sequence as the unpruned history does |
| Replay.RecordRefines | src/cyphersyntax/replay.py:54-59 | recording keeps the window equal to the recent part of the history |
| Replay.RunRefinesHistory | src/cyphersyntax/replay.py:45-75 | after any run `seen` is the accepted history above the floor, at most `window_size` long, `highest_seen` is its maximum or -1, and no sequence was accepted twice |
| Replay.HighestNeverDecreases | src/cyphersyntax/replay.py:56-57 | `highest_seen` never decreases along a run |
| Replay.RejectedAttemptsDoNotMatter | src/cyphersyntax/replay.py:66-75 | deleting rejected attempts changes neither the window nor what is accepted |
| Replay.AcceptedExactlyWhenTimely | src/cyphersyntax/replay.py:45-59 | a sequence is accepted exactly when its first delivery is not overtaken by the window size |
| Replay.ExactlyOnce | src/cyphersyntax/replay.py:45-59 | with every packet delivered in time each is accepted exactly once |
| Wire.FromBytesInvertsToBytes | src/cyphersyntax/wire.py:147-217 | encoding a valid envelope never fails and decoding undoes it |
| Wire.FromBytesAcceptsExactlyTheImage | src/cyphersyntax/wire.py:166-217 | `from_bytes` accepts exactly the encodings of valid envelopes |
| Wire.FromBytesInjective | src/cyphersyntax/wire.py:215-216 | no two byte strings decode to one envelope |
| Wire.EnvelopeFits | src/cyphersyntax/wire.py:147-164 | every valid envelope fits `MAX_ENVELOPE_BYTES` |
| Wire.AssociatedDataInjective | src/cyphersyntax/wire.py:133-145 | associated data exists for valid metadata and fixes every field of it |
| Wire.TrailingNewlineIsRefused | src/cyphersyntax/wire.py:215-216 | a packet that parses to the same dictionary but is not canonical is refused |
| WireText.AssociatedDataIs | src/cyphersyntax/wire.py:133-145 | associated data exists exactly for valid metadata; its exact text in visible ASCII, which reads back as the five named fields |
| WireText.ToBytesIs | src/cyphersyntax/wire.py:147-164 | the same for a packet and its six fields |
| WireText.FromBytesExactly | src/cyphersyntax/wire.py:166-217 | `from_bytes` returns an envelope on its own text alone, with fields within the limits, and raises EnvelopeError on the rest |
| JsonText.ShowsObject | src/cyphersyntax/wire.py:157-161 | an object prints its members in the order of its keys, with commas and colons and no spaces |
| JsonText.ListShows | src/cyphersyntax/store.py:48-54 | a list or a tuple prints its items in order, with commas and no spaces |
| JsonText.LiteralsShow | src/cyphersyntax/store.py:48-54 | None, True and False print as null, true and false |
| JsonText.Hex4Is | src/cyphersyntax/wire.py:135-145 | the four digits of an escape are those of its two bytes, lowercase |
| JsonText.ShortEscapes | src/cyphersyntax/wire.py:157-161 | the escapes that have a letter of their own, with either setting |
| JsonText.OtherEscapes | src/cyphersyntax/wire.py:135-145 | every other character: four digits, a surrogate pair, or the character itself, depending on the setting |
| JsonText.EscapedIsVisible | src/cyphersyntax/wire.py:135-145 | with ASCII escapes every text prints as visible ASCII |
| Json.RejectDuplicateKeys | src/cyphersyntax/wire.py:27-33 | raises exactly on a repeated key, and otherwise returns the dictionary of the pairs |
| Json.ToDictDefined | src/cyphersyntax/handshake.py:117-123 | the pairs make a dictionary exactly when no key repeats |
| Json.ToDictValues | src/cyphersyntax/store.py:29-35 | every pair keeps its value |
| Json.ToDictKeys | src/cyphersyntax/store.py:29-35 | the dictionary has the keys of the pairs and no others |
| JsonRoundTrip.LoadsInvertsDumps | src/cyphersyntax/wire.py:157-179 | parsing undoes printing on every JSON-normal value, with ASCII escapes and without |
| JsonRoundTrip.LoadsRereads | src/cyphersyntax/store.py:48-54 | parsing what was printed gives, for every printable value, the value with text for keys and lists for tuples |
| JsonRoundTrip.DumpsInjective | src/cyphersyntax/wire.py:135-145 | JSON-normal values print alike only if equal |
| JsonBytes.LoadBytesInvertsDumpBytes | src/cyphersyntax/handshake.py:106-148 | the same through UTF-8 bytes |
| JsonBytes.EscapeSize | src/cyphersyntax/wire.py:157-164 | escaping expands a text at most sixfold in bytes |
| JsonImage.ReprintableIsNormal | src/cyphersyntax/store.py:131-151 | what loads and can be encoded again is JSON-normal |
| JsonImage.EncodedExactlyWhenEncodable | src/cyphersyntax/store.py:47-56 | printing and strict encoding succeed exactly on values without lone surrogates whose dictionaries have comparable keys |
| JsonOrder.PrintsAgainExactlyWhenTextOrdered | src/cyphersyntax/store.py:142-150 | a value that was printed and read back prints the same again exactly when every dictionary in it was in text order |
| Utf8.DecodeInvertsEncode | src/cyphersyntax/wire.py:161-177 | UTF-8 decoding undoes encoding on text without surrogates |
| Utf8.EncodeInvertsDecode | src/cyphersyntax/wire.py:177 | whatever decodes is the one encoding of its text, so overlong forms and surrogates are refused |
| Utf8.EncodeExamples | src/cyphersyntax/wire.py:161-177 | the characters of the examples in section 7 of RFC 3629 |
| Digits.HexIs | src/cyphersyntax/wire.py:155 | each byte prints as its high and its low digit, which `Digits.HexDigitIs` fixes as lowercase |
| Digits.FromHexInvertsHex | src/cyphersyntax/wire.py:95-105 | hexadecimal decoding undoes encoding |
| Digits.HexInvertsFromHex | src/cyphersyntax/handshake.py:183-194 | lowercase hexadecimal text is the one encoding of its bytes |
| FileSystem.RenameReplaces | src/cyphersyntax/persistence.py:73 | after renaming a synced file, a crash leaves the old contents or the whole new ones |
| FileSystem.UnsyncedRenameLosesContents | src/cyphersyntax/persistence.py:67-73 | without the file sync, any bytes at all could be left |
| FileSystem.SyncEntriesSettles | src/cyphersyntax/persistence.py:27-34 | after the directory sync only the new contents can be left |
| FileSystem.RecoveryInventsNothing | src/cyphersyntax/persistence.py:53-93 | what can survive the recovery from a crash could survive the crash |
| FileSystem.AnySurvivorMayBeFound | src/cyphersyntax/persistence.py:53-93 | whatever can survive a crash is what some recovery finds |
| Persistence.SyncDirectory | src/cyphersyntax/persistence.py:27-34 | its error, its effect, and that the descriptor is closed whichever call fails |
| Persistence.WriteThrough | src/cyphersyntax/persistence.py:67-71 | on success the temporary file holds all the data, synced; in any case no other name is touched and the descriptor is closed |
| Persistence.Install | src/cyphersyntax/persistence.py:73-79 | the temporary path is forgotten exactly when the replacement has happened, and what each later failure leaves |
| Persistence.Attempt | src/cyphersyntax/persistence.py:53-79 | the two locals that cleanup depends on, and the disk, for every combination of failing calls |
| Persistence.AtomicWriteBytes | src/cyphersyntax/persistence.py:37-93 | every state on the way leaves the old or the new contents after a crash; exactly which failures leave which state, error, directory entries and descriptors |
| Persistence.PreparingRenames | src/cyphersyntax/persistence.py:73-74 | replacing moves from certainly-old to old-or-new and disturbs no other name |
| Persistence.ReplacedSettles | src/cyphersyntax/persistence.py:79 | the directory sync moves from old-or-new to certainly-new |
| Persistence.PreparingUnlinks | src/cyphersyntax/persistence.py:87-93 | cleanup removes the temporary file and changes nothing else |
| Store.LoadAfterSave | src/cyphersyntax/store.py:42-151 | for every object that `save` accepts, `load` returns it with text for keys and lists for tuples if each dictionary sorts its keys as their texts, and otherwise raises |
| Store.LoadReturnsExactlyNormalObjects | src/cyphersyntax/store.py:42-151 | `load` after `save` returns the saved object itself exactly when it is JSON-normal |
| Store.LoadedWasEncodedCanonically | src/cyphersyntax/store.py:93-151 | what `load` returns is JSON-normal, and its canonical encoding is what the blob decrypts to under the header, salt and nonce |
| Store.SafeStatesRecover | src/cyphersyntax/store.py:77-91 | a crash during `save` leaves what was possible before or a file that loads as the object |
| Store.ReturnedSaveIsDurable | src/cyphersyntax/store.py:77-91 | through any history of saves, however they end, and of crashes with recovery, the file loads as the last `save` that returned after syncing the directory or as a later one; where directories are not synced (`nt`), a crash after a normal return may leave an older file |
| Store.LoadAfterHistory | src/cyphersyntax/store.py:93-151 | so `load` at the end of the history returns what one of those saves, from the last that synced the directory on, makes it return |
| StoreFormat.SealsExactly | src/cyphersyntax/store.py:42-91 | for every value: `save` accepts it exactly if it is a dictionary with text for outermost keys that can be encoded in 1 MiB; TypeError and StoreError otherwise; the exact file |
| StoreFormat.OpensExactly | src/cyphersyntax/store.py:93-151 | for every file: `load` returns an object exactly if the file has the header and opens to that object's canonical encoding within the limits; StoreError otherwise |
| StoreFormat.OutermostIntegerKeyIsRefused | src/cyphersyntax/store.py:45-46 | `{1: None}` can be encoded and is refused with TypeError |
| Store.EncryptedStore.Save | src/cyphersyntax/store.py:77-91 | its errors, TypeError exactly on what is no dictionary or has another outermost key than text, with the disk untouched; and for every object and every combination of failing calls what every crash and every later `load` gives |
| Store.EncryptedStore.Load | src/cyphersyntax/store.py:93-151 | the result as a function of the file's contents, always a JSON-normal dictionary |
| Store.EncryptedStore.constructor | src/cyphersyntax/store.py:62-66 | the path and the passphrase |
| Store.MakeStore | src/cyphersyntax/persistence.py:14-24 | a passphrase is refused exactly outside 16 to 1024 bytes |
| StoreKeys.NineBesideTenIsRefused | src/cyphersyntax/store.py:42-59 | the keys 9 and 10 of one nested dictionary are saved and then refused, whatever they hold |
| StoreKeys.SavedButLost | src/cyphersyntax/store.py:45-46 | a concrete object that `save` accepts and `load` refuses |
| StoreKeys.SavedAndChanged | src/cyphersyntax/store.py:45-46 | a concrete object that `save` accepts and `load` returns with another key |

## Left out

- Session.SessionState.Encrypt: modelled for sessions that a handshake made and whose fields nobody has assigned since; the `suite` field is then one of the two suites, so the unsupported-suite error cannot occur.
- Replay.ReplayWindow.AuthenticateAndRecord: the operation may read anything but the window and changes nothing. The lock is re-entrant, so an operation that called back into the window could invalidate the check; the closure that `decrypt` passes does not. `ReceiveLock` interleaves the threads that share one window.
- Establish.InitiatorHandshake.Complete: one atomic step, as is the responder's. The source takes no lock there, so two threads could both complete one object.
- Store.LoadAfterSave: floating-point numbers are left out, as in every result about the store.
- Store.LoadReturnsExactlyNormalObjects: floating-point numbers are left out; the model refuses every object that holds one, while the source saves and loads finite floats.
- Interrupts inside a lock's own entry and exit: every failure under a lock releases it.
- Persistence.AtomicWriteBytes: exceptions other than `OSError` (an interrupt, say), and other processes that change the directory meanwhile. Creating the directory and refusing a symbolic link are early failures without an effect of their own.
- `str.isprintable` and `str.strip`: unknown predicates on characters. `Wire.EnvelopeFits` therefore allows for sixfold escaping, where printable names need threefold.
- Dictionary keys `True` and 1: one key in Python, two in the model; they occur only in objects that no codec can return.
- NaN and the infinities: the parser reads them as floats, which every codec refuses; the source raises no later and with the same error class.
- Python's recursion limit and the digit limit of `int`: they turn some inputs that the model accepts into errors.
- Type checks of arguments: the types of the model exclude the wrong ones, except where a decoded JSON value decides.
- Computational security, secrecy and timing: cryptography is ideal or a named function.
- Randomness and the operating system: fresh keys, salts, nonces and the outcome of every system call are parameters.
- `Identity`: a name and a signing key; key generation, persistence and the file name are a thin layer over the store.
- File permissions, error texts, `repr`, `check_green.py`, `check_source_quality.py`, `demo.py` and packaging.
