# Verified model of wolfSPDM

wolfSPDM implements both ends of SPDM (DSP0274 1.4.0) with secured messages (DSP0277 1.2.0): a requester that
authenticates a device and opens a session with it, and a responder that a TPM can put behind its command interface.
This project models the two ends and the layers under them in Dafny and proves what they promise together.

The configuration is fixed: TCG binding, PSK, responder, MCTP, chunking, attestation, ML-KEM and ML-DSA on, default
buffer sizes.

## How it is built

Each mutable object of the library is a class whose methods follow the code statement by statement, and whose
`ensures` equate its new state with a function of the old one. What the library promises is then proved about those
functions, over whole runs where it is a promise about runs.

| file | what it holds |
|---|---|
| bytes.dfy, codes.dfy, crypto.dfy | fields and the record IV, message codes, the cryptographic interface and the key schedule |
| records.dfy, channel.dfy | both wire formats; in-order delivery and mirrored exchanges over whole runs |
| context.dfy | `SpdmContext`: transcript, derivations, record encryption, direction swap |
| keyupdate.dfy, nonce.dfy | KEY_UPDATE with trial rotation and rollback; nonce uniqueness over whole runs |
| responder.dfy, responderobject.dfy, safety.dfy | the responder's message handling, its object, and what every run of it keeps |
| requester.dfy, requesterobject.dfy | the requester's side of both handshakes and its object |
| handshake.dfy, agreement.dfy | the requester's flows against any other end, and the proof that with this responder they end in one session |
| authentication.dfy | what the requester accepts from anyone, and what a connection that succeeds proves |
| replies.dfy, tunnel.dfy | what the responder accepts, refuses and answers; TPM and vendor commands end to end |
| chunk.dfy | large requests and responses (section 10.27 of DSP0274) |
| attest.dfy | L1/L2 and M1, measurement records, CHALLENGE |
| certs.dfy, negotiate.dfy | certificate retrieval and the chain walk; capabilities and algorithms |

Start with `Agreement.TcgHandshakeAgrees`, `Authentication.TcgAuthenticated`, `Tunnel.TpmThroughSession`, `ResponderSafety.CommandsAuthenticated`, `Nonce.NoNonceReuse`,
`ResponderSafety.ResponderNonces`, `Channel.InOrderDelivery`, `Channel.XferMirrors`, `KeyUpdates.UpdateAgrees`,
`Chunks.Transparent`, `Attestation.MeasurementsHash`, `Attestation.ChallengeHash`, `Certificates.ValidateAccepts` and
`Negotiation.AcceptsAnswers`.

## Hypotheses

- Cryptography is a record of arbitrary total functions. Theorems that need facts about them ask for `Sound()`: fixed
  output sizes, `open(seal(p)) == p`, Diffie-Hellman commutes, `verify` accepts what `sign` makes. `Crypto.Satisfiable`
  shows that these can hold together. No call fails; in particular HKDF is total, which src/spdm_session.c:324-325 needs,
  since both counters are zeroed there before the derivation's result is looked at.
- Integrity of the AEAD is the hypothesis `Channel.UnforgedRun`: what opens under a traffic key was sealed by its sender.
  `Channel.InOrderDelivery` asks for it, and `KeyUpdates.AcceptedUpdateAgrees` for one record.
- The 64-bit counter of the TCG binding stays below 2^64: `Channel.InOrderDelivery`, `Nonce.NoNonceReuse` and
  `ResponderSafety.ResponderNonces` bound the length of a run with that binding. Nothing is asked with the MCTP binding, whose sender stops at 16 bits.
- Nonce uniqueness names a key generation by the run of the key schedule and the derivation of its secret, and proves
  that each record is sealed under the key so derived. It does not say that HKDF has no collisions:
  `Nonce.SharedNonceIsCollision` turns an equal key and IV into two derivations of one key.
- The handshake theorems give the responder an output buffer of the size the requester's transport has. With a buffer
  too small for the reply the responder is CONNECTED before its reply fails (src/spdm_responder.c:886-889 and
  1249-1255); the methods and the safety theorems cover that case too.
- An accepted UpdateAllKeys is acknowledged under the new keys. If that record also opened under the old key the
  requester would not rotate; `KeyUpdates.UpdateAgrees` has the exact condition without any assumption, and
  `KeyUpdates.AcceptedUpdateAgrees` shows that AEAD integrity always meets it.
- AlgStructs that repeat with different selections are not refused: the last one of each kind decides
  (`Negotiation.LastStructWins`, with an example in `Negotiation.ConflictAccepted`).
- Comparison in constant time is equality.
- Where code and documentation disagree the code is followed. docs/Attestation-Notes.md starts M1 when the certificate
  chain is fetched, and restarts it before KEY_EXCHANGE is built; src/spdm_standard.c:301-306 starts it when algorithms
  have been negotiated, and src/spdm_session.c:100-107 restarts it only once the request has been built.

## Model

| member | source | states |
|---|---|---|
| Bytes.BuildIV | src/spdm_internal.h:444-451 | the loop leaves the 12-byte IV that is the base IV with the little-endian sequence number XORed into its first 8 bytes |
| Bytes.RecordIVInjective | src/spdm_internal.h:444-451 | two different sequence numbers never give the same IV from one base IV |
| Bytes.LERoundTrip | src/spdm_internal.h:387-425 | a number written little-endian in n bytes reads back, for every number that fits |
| Bytes.BERoundTrip | src/spdm_internal.h:393-414 | the same big-endian |
| Bytes.LEByte | src/spdm_internal.h:387-425 | byte i of the little-endian form is v / 256^i mod 256 |
| Bytes.BEByte | src/spdm_internal.h:393-414 | the big-endian form is the same bytes in the other order |
| Bytes.RecordIVBytes | src/spdm_internal.h:444-451 | byte i of the sequence number, from the least significant, goes into byte i of the IV; the last four bytes stay |
| Bytes.XorBit | src/spdm_internal.h:444-451 | the exclusive or of the model is bitwise |
| Bytes.FromLEInjective | src/spdm_internal.h:387-425 | two equally long fields with the same value are the same bytes |
| Records.SealThenOpen | src/spdm_secured.c:44-375 | in both wire formats a receiver with the same direction verifies every record that EncryptRecord produces, and recovers its framed plaintext |
| Records.FrameUnframe | src/spdm_secured.c:67-155 | the message is recovered from its framed plaintext in either format, whatever the padding |
| Records.HeaderFields | src/spdm_secured.c:67-155 | session id, sequence number and length read back from the 14- or 8-byte header as written |
| Records.OpenMeans | src/spdm_secured.c:194-325 | a record verifies if and only if its header is that of this session and number, its AEAD output has a permitted length and is there (with MCTP and nothing after it), and the AEAD opens it |
| Records.SealMeans | src/spdm_secured.c:44-180 | a record is produced exactly for a message that is short enough, a number that fits the binding and a buffer that holds it |
| Records.UnframeMeans | src/spdm_secured.c:327-366 | a plaintext yields exactly the message whose length, type byte and bytes it starts with |
| Records.OpenVerified | src/spdm_secured.c:194-334 | a record whose tag verifies starts with exactly the header that its sender writes for this session and number, and has its AEAD input where that header says |
| Channel.InOrderDelivery | src/spdm_secured.c:194-375 | whatever mix of genuine, replayed, reordered, altered or invented records arrives, the i-th one that verifies carries the sender's i-th message and rspSeqNum is the number verified |
| Channel.OnlyNextRecordOpens | src/spdm_secured.c:229-283 | a genuine record is accepted exactly in its own session at its own number; elsewhere the error names which of the two is wrong |
| Channel.SendKeepsInStep | src/spdm_secured.c:158-183 | every seal appends one record at the sender's number and moves that number by one |
| Channel.DeliverKeepsInStep | src/spdm_secured.c:219-345 | a delivery either verifies the sender's next undelivered record or changes nothing |
| Channel.TransactMirrors | src/spdm_secured.c:384-403 | between ends with equal directions one sealed request and its sealed answer arrive unchanged, and only the directions used move, on both ends alike |
| Channel.XferMirrors | src/spdm_responder.c:329-369 | requester Decrypt of RespEncrypt and RespDecrypt of requester Encrypt return the message for every message that passes: a secured transfer between two contexts in one session is one exchange of an ideal channel on both, and touches only the counters and the randomness for padding |
| Channel.SwapRefines | src/spdm_responder.c:329-369 | what RespEncrypt and RespDecrypt do is what the requester's operations do on a context with the directions swapped, swapped back |
| Channel.ExchangesStayMirrored | src/spdm_secured.c:384-403 | over any sequence of exchanges the secured channel is an ideal one: both ends keep equal keys, IVs and counters, and hear exactly the messages that are short enough and, with MCTP, whose number fits 16 bits |
| Channel.IdealCounts | src/spdm_secured.c:174-178 | each counter has moved by exactly the messages received |
| Context.SpdmContext.constructor | src/spdm_context.c:35-66 | a new context is in state INIT with no keys, an empty transcript and requester session id 1 |
| Context.SpdmContext.TranscriptReset | src/spdm_transcript.c:34-46 | transcript and hash points are empty again |
| Context.SpdmContext.TranscriptAdd | src/spdm_transcript.c:48-66 | data is appended whole, or nothing changes and the result is BUFFER_SMALL |
| Context.SpdmContext.PlainTcg | src/spdm_secured.c:67-109 | length, message and random padding to 16 bytes; refused exactly when the record would not fit; randomness is drawn only if there is padding |
| Context.SpdmContext.PlainMctp | src/spdm_secured.c:110-155 | length, type byte and message; refused first when the record number exceeds 16 bits |
| Context.SpdmContext.SealRecord | src/spdm_secured.c:101-180 | header and AEAD output of one record for the current direction |
| Context.SpdmContext.EncryptInternal | src/spdm_secured.c:44-192 | the step of the record specification: an error leaves the context as it was, success advances only reqSeqNum |
| Context.SpdmContext.OpenRecord | src/spdm_secured.c:194-325 | all header checks in the code's order, then the AEAD |
| Context.SpdmContext.UnframeMessage | src/spdm_secured.c:327-366 | the message inside a verified plaintext, with every length and type check |
| Context.SpdmContext.DecryptInternal | src/spdm_secured.c:194-382 | rspSeqNum advances exactly when the tag verifies, even if the payload is then refused |
| Context.SpdmContext.SwapDataDir | src/spdm_responder.c:329-349 | keys, IVs and counters of the two directions change places |
| Context.SpdmContext.RespEncryptRecord | src/spdm_responder.c:351-359 | swap, encrypt, swap: the requester's direction is untouched and only the response counter advances |
| Context.SpdmContext.RespDecryptRecord | src/spdm_responder.c:361-369 | swap, decrypt, swap: only the request counter advances |
| Context.SpdmContext.DeriveFromHandshakeSecret | src/spdm_kdf.c:139-189 | handshake traffic keys, IVs and finished keys of both directions; sequence numbers untouched |
| Context.SpdmContext.DeriveAppDataKeys | src/spdm_kdf.c:216-291 | application secrets, keys and IVs over the whole transcript; both sequence numbers restart |
| Context.SpdmContext.DeriveUpdatedKeys | src/spdm_kdf.c:295-330 | one "traffic upd" generation in the requested direction or directions, each from its own secret, sequence numbers untouched |
| Context.UpdateLineage | src/spdm_kdf.c:295-330 | the request direction moves one generation along its own derivation, the response direction along its own or not at all; counters and handshake material stay |
| Context.HandshakeLineage | src/spdm_kdf.c:139-189 | every handshake key, IV and finished key comes from the secret of its own direction, handshake secret and TH1 |
| Context.ApplicationLineage | src/spdm_kdf.c:216-291 | every application secret, key and IV comes from its own direction, the handshake secret and the whole transcript; counters restart |
| Crypto.ScheduleInputs | src/spdm_kdf.c:31-86 | each derivation is the HKDF-Expand call of DSP0277: length, "spdm1.x ", its own label |
| Crypto.ExpandInput | src/spdm_kdf.c:31-86 | the info of every labelled expansion, with its context, for each version |
| Crypto.SigningInput | src/spdm_msg.c:211-250 | 100 bytes before the digest: "dmtf-spdm-v1.x.*" four times, zeros, and the context string at the right end |
| Context.SpdmContext.SessionReset | src/spdm_context.c:425-467 | session material goes; configured keys, PSK and session id stay |
| Context.HandshakeKeysKeep | src/spdm_kdf.c:139-189 | handshake derivation gives well-sized keys and leaves both sequence numbers alone |
| KeyUpdates.KeyUpdate | src/spdm_session.c:283-367 | the whole procedure, proved against its specification for every pair of transport results |
| KeyUpdates.BeginUpdate | src/spdm_session.c:302-349 | announcement, reply and rotation against the specification |
| KeyUpdates.DecryptOrRotate | src/spdm_session.c:317-339 | trial rotation with its snapshot: when neither key set opens the reply, all six fields and both counters are restored |
| KeyUpdates.SecuredVerify | src/spdm_session.c:351-363 | VERIFY_NEW_KEY under the keys in force, and its acknowledgement |
| KeyUpdates.AllOrNothing | src/spdm_session.c:283-367 | key, IV and secret end one generation ahead of their own direction's lineage, in just the requested directions, if the peer proved that it rotated, otherwise all are unchanged; success implies the former |
| KeyUpdates.UpdateSucceeds | src/spdm_session.c:283-367 | success exactly when both messages go out and each is answered with its own acknowledgement: the first under the current keys, or for UpdateAllKeys under the next ones alone, the second under the kept ones |
| KeyUpdates.AckIs | src/spdm_msg.c:713-726 | an acknowledgement is the four bytes of version, code, operation and tag, and nothing else |
| KeyUpdates.BeginAllOrNothing | src/spdm_session.c:302-349 | the first half seals at most once, under the old direction, and moves the keys exactly when the peer has proved that it rotated |
| KeyUpdates.RolledBack | src/spdm_session.c:317-340 | a reply that opens under neither key set leaves all keys and counters as after sending, and only the old key was sealed under |
| KeyUpdates.UpdateAgrees | src/spdm_session.c:283-367 | against a peer that rejects or rotates and acknowledges, the call reports which, and both ends hold the same keys and counters; an UpdateAllKeys succeeds if and only if the acknowledgement does not also open under the old key |
| KeyUpdates.AcceptedUpdateAgrees | src/spdm_session.c:283-367 | with AEAD integrity an accepted update always succeeds and both ends hold the same keys and counters |
| KeyUpdates.RejectionAgrees | src/spdm_session.c:309-336 | after a rejection both ends keep their keys in step |
| KeyUpdates.RequestRotationAgrees | src/spdm_session.c:342-349 | after an accepted UpdateKey both ends rotate the request direction only and restart its counter |
| KeyUpdates.FullRotationAgrees | src/spdm_session.c:317-336 | after an accepted UpdateAllKeys both ends rotate both directions, exactly when the acknowledgement is not valid under the old key, which traffic on that key guarantees |
| KeyUpdates.VerifyAgrees | src/spdm_session.c:351-366 | VERIFY_NEW_KEY between ends in step succeeds and keeps them in step |
| Nonce.NoNonceReuse | src/spdm_secured.c:158-183 | over any run of resets, handshakes, derivations, secured messages and key updates, every encryption uses the key and base IV that its generation derives, no two share generation and IV, and none uses zeroed keys |
| Nonce.SharedNonceIsCollision | src/spdm_secured.c:158-177 | two encryptions with equal key and IV exhibit two derivations, at different places of the run, of one key |
| Nonce.StepKeepsInv | src/spdm_session.c:283-367 | every single step keeps the invariant behind it, for either binding |
| Nonce.SealedByUpdate | src/spdm_session.c:283-367 | a key update seals at most once under the old direction and at most once under the kept new one, never under a discarded generation |
| Nonce.RotateKeepsInv | src/spdm_session.c:317-349 | a key update, accepted, rejected or rolled back, reuses no nonce |
| Nonce.InitialInv | src/spdm_context.c:35-66 | a newly initialised context starts such a run |
| ResponderObject.SpdmResponder.constructor | src/spdm_responder.c:86-102 | a new responder is in INIT, unprovisioned, without identity, with an empty trace |
| ResponderObject.SpdmResponder.RespSetMode | src/spdm_responder.c:121-144 | at least one mode; the binding follows it |
| ResponderObject.SpdmResponder.RespSetPSK | src/spdm_responder.c:146-188 | the store is replaced, marked provisioned and its ClearAuth digest dropped, or the arguments are refused |
| ResponderObject.SpdmResponder.RespSetIdentityKey | src/spdm_responder.c:190-213 | the identity key is set only in INIT |
| ResponderObject.SpdmResponder.RespReset | src/spdm_responder.c:259-297 | session state goes, identity, PSK store, mode and pinned version stay |
| ResponderObject.SpdmResponder.BuildErrorClear | src/spdm_responder.c:314-326 | a 4-byte ERROR under the pinned version or 0x10, or BUFFER_SMALL |
| ResponderObject.SpdmResponder.RespSelectVersion | src/spdm_responder.c:422-437 | the first request after VERSION pins an in-range version; later ones must repeat it |
| ResponderObject.SpdmResponder.RespBuildVersion | src/spdm_responder.c:384-415 | the loop lists every supported version; the pin is dropped and the state becomes VERSION |
| ResponderObject.SpdmResponder.RespBuildCapabilities | src/spdm_responder.c:440-471 | the fixed CAPABILITIES with the PSK bit of the mode |
| ResponderObject.SpdmResponder.RespBuildAlgorithms | src/spdm_responder.c:474-504 | the fixed ALGORITHMS response of algorithm set B |
| ResponderObject.SpdmResponder.RespBuildPskExchangeRsp | src/spdm_responder.c:507-592 | checks in order, session id, transcript, PSK handshake keys, verify data and state, with the recorded exchange |
| ResponderObject.SpdmResponder.DeriveHandshakeKeysPsk | src/spdm_psk.c:282-315 | keys from the PSK under a salt of 0xFF bytes; the inner PSK is wiped |
| ResponderObject.SpdmResponder.RespBuildKeyExchangeRsp | src/spdm_responder.c:714-840 | session id, signature over the transcript split, shared secret, TH1 keys, verify data and state |
| ResponderObject.SpdmResponder.RespHandleFinish | src/spdm_responder.c:845-949 | FINISH and PSK_FINISH: TH2, the HMAC comparison, and CONNECTED only if it matches |
| ResponderObject.SpdmResponder.RunCommand | src/spdm_responder.c:994-1138 | each vendor command with its guards: which need a secured record, which need CONNECTED |
| ResponderObject.SpdmResponder.RunTpmCommand | src/spdm_responder.c:1011-1030 | the TPM dispatcher is called once with the payload and the call recorded; success exactly with its answer, if there is one that fits the envelope |
| ResponderObject.SpdmResponder.ProvisionPsk | src/spdm_responder.c:1075-1105 | PSK_SET_ fills an empty store or confirms the same PSK, never replaces different bytes |
| ResponderObject.SpdmResponder.ClearPsk | src/spdm_responder.c:1106-1133 | PSK_CLR_ empties the store only for a ClearAuth whose hash is the stored digest |
| ResponderObject.SpdmResponder.RespHandleVendorDefined | src/spdm_responder.c:968-1174 | parse, run, answer; a failed command answers nothing |
| ResponderObject.SpdmResponder.RespDispatchClear | src/spdm_responder.c:595-705 | version gate, mode gate, state gate, then the handler; ERROR replies where the code sends them |
| ResponderObject.SpdmResponder.HandlePlain | src/spdm_responder.c:1206-1247 | a decrypted request by its code; finish only in KEY_EX and of the pending kind |
| ResponderObject.SpdmResponder.HearRecord | src/spdm_responder.c:1193-1202 | decrypts one record and records that its tag verified, with the state it was opened in |
| ResponderObject.SpdmResponder.RespondTo | src/spdm_responder.c:1249-1261 | the reply is encrypted under the old keys before application keys are derived or the session is reset |
| ResponderObject.SpdmResponder.AfterReply | src/spdm_responder.c:1253-1259 | application keys after a sealed finish reply, a reset after a sealed END_SESSION_ACK, nothing otherwise |
| ResponderObject.SpdmResponder.RespDispatchSecured | src/spdm_responder.c:1176-1275 | only KEY_EX and CONNECTED with a session id open records |
| ResponderObject.SpdmResponder.RespHandleMessage | src/spdm_responder.c:1277-1348 | the public entry point, for every byte string and buffer size, against the responder specification and its recorded events |
| ResponderSafety.ReachableJoint | src/spdm_responder.c:259-297 | every reachable state: KEY_EX or CONNECTED has an in-range version and a session id, INIT and VERSION have zero counters, sessionAsym implies CONNECTED and pendingAsym, pendingAsym implies a session, provisioned iff the store is non-empty, clearAuthSet implies provisioned |
| ResponderSafety.CommandsAuthenticated | src/spdm_responder.c:994-1069 | in every run each TPM call and lock change happens on a record opened in CONNECTED, after an exchange and a matching finish of the same kind under that exchange's key, with no reset since; the lock and the call count are exactly what the trace records |
| ResponderSafety.ResponderNonces | src/spdm_responder.c:1249-1255 | in every run, whatever arrives, each reply is sealed under the keys that the exchange or finish before it derived, and no two under the same ones with the same IV |
| ResponderSafety.SinceMeans | src/spdm_responder.c:1249-1255 | where a trace says that keys came into force, that exchange or finish is |
| ResponderSafety.VersionPinned | src/spdm_responder.c:410-437 | a chosen version stays through any run without GET_VERSION, resets included |
| ResponderSafety.IdentityPinned | src/spdm_responder.c:202-213 | the identity key never changes outside INIT, and never by a message |
| ResponderSafety.StoreStep | src/spdm_responder.c:1075-1133 | one message keeps a stored PSK byte for byte or, only with the right ClearAuth, empties the store |
| ResponderSafety.StorePersists | src/spdm_responder.c:1075-1133 | over any run without such a PSK_CLR_ or reconfiguration the stored PSK is unchanged |
| ResponderSafety.StoreReused | src/spdm_responder.c:535-542 | the outcome of a PSK exchange does not depend on the inner PSK a previous one wiped, and leaves the store usable |
| ResponderSafety.MessageHandled | src/spdm_responder.c:1277-1348 | any message from any safe state keeps the joint invariant, the trace discipline, the version pin and the store rule |
| ResponderSafety.StepSafe | src/spdm_responder.c:1277-1348 | any call of the interface keeps the invariant and only extends the trace |
| ResponderSafety.FinishStep | src/spdm_responder.c:845-949 | CONNECTED is entered only by a finish whose HMAC matches under the pending exchange's key |
| ResponderSafety.VendorStep | src/spdm_responder.c:994-1138 | a vendor command never touches the session; TPM and lock effects need CONNECTED |
| ResponderSafety.ScanMeans | src/spdm_responder.c:845-949 | what an authentic trace claims as its exchange and finish really is in it, with no reset after |
| ResponderSafety.MessageValid | src/spdm_responder.c:1277-1348 | any message from any state leaves a well-formed responder |
| RequesterObject.SpdmRequester.ParseVersionReply | src/spdm_msg.c:467-519 | the loop selects the highest version within the limits, or the reply is refused and nothing changes |
| RequesterSpec.HighestIsGreatest | src/spdm_msg.c:491-512 | the selected version is listed, in range, and no listed in-range version is higher |
| RequesterObject.SpdmRequester.CommitSession | src/spdm_msg.c:600-621 | session id and KEY_EX only after ResponderVerifyData matched |
| RequesterObject.SpdmRequester.DeriveFromExchange | src/spdm_msg.c:581-599 | the signature joins the transcript before TH1 and the handshake keys |
| RequesterObject.SpdmRequester.ParseKeyExchangeReply | src/spdm_msg.c:521-626 | every length and field check, the signature check, the transcript split and the commit; what it accepts is Authentication.ExchangeAccepted |
| RequesterObject.SpdmRequester.SecuredExchange | src/spdm_secured.c:405-436 | refused before there is a session, then one secured transfer |
| RequesterObject.SpdmRequester.TpmCommand | src/spdm_tcg.c:204-265 | between connected ends the requester receives exactly what the dispatcher answers to exactly the command given |
| Authentication.ExchangeAccepted | src/spdm_msg.c:521-626 | KEY_EXCHANGE_RSP is accepted if and only if it is complete, signed under the configured key over this transcript, and carries the HMAC over TH1 under the finished key of the agreed secret; the session is then the one it opens; a wrong signature is BAD_SIGNATURE |
| Authentication.TcgAuthenticated | src/spdm_tcg.c:651-751 | whatever the other end is and answers: ConnectTCG succeeds only if a reply to its own KEY_EXCHANGE carried a signature under the configured key over its own transcript and the HMAC over TH1; keys and TH1 of the session follow from that reply |
| Authentication.PskAuthenticated | src/spdm_psk.c:319-426 | whatever the other end is and answers: the PSK connection succeeds only if a reply carried the HMAC over TH1 under the finished key that follows from the configured PSK |
| Authentication.PskExchangeAccepted | src/spdm_psk.c:130-205 | PSK_EXCHANGE_RSP is accepted if and only if it is complete and carries that HMAC; the session is then the one it opens |
| Authentication.SessionOpened | src/spdm_msg.c:600-621 | session id and KEY_EX exactly for the HMAC of TH1 under the responder's finished key; any other verify data is BAD_HMAC and changes nothing |
| Authentication.PubKeyAccepted | src/spdm_tcg.c:327-353 | a fetched key passes exactly if none is configured or it is the configured point, raw or at the end of a TPMT_PUBLIC; any other is PEER_ERROR |
| Authentication.PubKeyFetched | src/spdm_tcg.c:356-407 | success means a key that matches, Ct its hash and in the transcript; a failure leaves the transcript |
| Authentication.CapabilitiesAccepted | src/spdm_tcg.c:477-515 | exactly 20 bytes of the version with ENCRYPT, MAC, PUB_KEY_ID and KEY_EX, or one kind of PSK for a PSK requester, and sizes in order |
| Authentication.AlgorithmsAccepted | src/spdm_tcg.c:517-548 | one message per version is accepted and no other |
| Authentication.CheckedRecords | src/spdm_tcg.c:550-643 | success puts the request and a reply that passed the check into the transcript; a failure leaves state ERROR |
| Authentication.VersionAccepted | src/spdm_msg.c:467-519 | VERSION is accepted exactly if it is whole and lists a version in range; the greatest one is taken |
| Authentication.VersionUndone | src/spdm_session.c:29-74 | a version exchange that fails leaves transcript, version and state |
| Authentication.FinishAccepted | src/spdm_msg.c:628-667 | FINISH_RSP exactly with its code and, from 1.4, opaque data of at most 256 bytes that is there; it joins the transcript |
| Authentication.PskFinishAccepted | src/spdm_psk.c:257-278 | PSK_FINISH_RSP exactly with its code; its four bytes join the transcript |
| Authentication.ExchangeAsked | src/spdm_msg.c:125-199 | KEY_EXCHANGE read back: version, slot, session id, fresh randomness, the public part of a fresh key that the requester keeps, and opaque data of the length it says |
| Authentication.FinishAsked | src/spdm_msg.c:318-444 | FINISH with mutual authentication or without: header, TH2 over the transcript with it, signature over TH2, HMAC over everything before it |
| Authentication.PskAsked | src/spdm_psk.c:70-255 | PSK_EXCHANGE and PSK_FINISH read back: hint, lengths, fresh randomness; TH2 and HMAC |
| Authentication.FixedAsked | src/spdm_tcg.c:550-635 | capability flags and sizes, and algorithm set B alone, read back from the requests |
| Authentication.VendorAccepted | src/spdm_tcg.c:36-89 | a clear command takes exactly the payload of a response under its own code; an ERROR is never one |
| Authentication.GivePubConfirmed | src/spdm_tcg.c:91-128 | GIVE_PUB succeeds exactly in a session with a reply that is not an ERROR |
| Authentication.FinishGuarded | src/spdm_session.c:127-166 | FINISH only in KEY_EX; a reply in the clear ends it with PEER_ERROR and counts as no record |
| Authentication.PubKeyStarts | src/spdm_tcg.c:356-407 | a fresh context has the version exchange in its transcript before Ct |
| Authentication.FrameAccepted | src/spdm_context.c:560-600 | a reply frame is stripped exactly when it is whole; a FIPS indicator other than zero is remembered |
| RequesterObject.SpdmRequester.BuildKeyExchangeRequest | src/spdm_msg.c:125-199 | the request with a fresh ephemeral key and the opaque data of the mode |
| RequesterObject.SpdmRequester.BuildFinishRequest | src/spdm_msg.c:318-444 | FINISH with the mutual-authentication signature when requested, TH2 and the verify data |
| RequesterObject.SpdmRequester.ParseFinishReply | src/spdm_msg.c:628-667 | FINISH_RSP with its 1.4 opaque data, or the error, then the transcript |
| RequesterObject.SpdmRequester.BuildPskExchangeRequest | src/spdm_psk.c:70-128 | PSK_EXCHANGE with hint, context and opaque data |
| RequesterObject.SpdmRequester.ParsePskExchangeReply | src/spdm_psk.c:130-205 | checks, transcript split, PSK keys and the commit |
| RequesterObject.SpdmRequester.DerivePskKeys | src/spdm_psk.c:282-315 | handshake keys from the PSK |
| RequesterObject.SpdmRequester.BuildPskFinishRequest | src/spdm_psk.c:207-255 | PSK_FINISH with TH2 and the verify data |
| RequesterObject.SpdmRequester.ParsePskFinishReply | src/spdm_psk.c:257-278 | PSK_FINISH_RSP or the error |
| RequesterObject.SpdmRequester.TcgSendReceive | src/spdm_context.c:513-606 | frame, the responder's message handler as transport, and the stripping of the reply |
| RequesterObject.SpdmRequester.Strip | src/spdm_context.c:560-600 | the frame of a reply is checked and removed, its binding fields adopted |
| RequesterObject.SpdmRequester.GetVersion | src/spdm_session.c:29-74 | a failed exchange leaves no half message in the transcript |
| RequesterObject.SpdmRequester.GetCapabilities | src/spdm_tcg.c:550-591 | request, checked reply and transcript |
| RequesterObject.SpdmRequester.NegotiateAlgorithms | src/spdm_tcg.c:593-643 | request, checked reply and transcript |
| RequesterObject.SpdmRequester.GetPubKey | src/spdm_tcg.c:356-407 | a context that has not connected asks for the version first; a failure there ends the call |
| RequesterObject.SpdmRequester.FetchPubKey | src/spdm_tcg.c:356-407 | GET_PUBK, the comparison with the configured key, and Ct over the fetched object |
| RequesterObject.SpdmRequester.KeyExchange | src/spdm_session.c:76-124 | the TCG form of KEY_EXCHANGE as one step of the two-party world |
| RequesterObject.SpdmRequester.PskExchange | src/spdm_psk.c:363-379 | PSK_EXCHANGE as one step of the two-party world |
| RequesterObject.SpdmRequester.SecuredTransfer | src/spdm_secured.c:384-403 | seal, send, receive, open |
| RequesterObject.SpdmRequester.GivePubKey | src/spdm_tcg.c:409-433 | GIVE_PUB over the handshake keys |
| RequesterObject.SpdmRequester.FinishHandshake | src/spdm_session.c:127-196 | FINISH, its reply and the application keys |
| RequesterObject.SpdmRequester.PskFinishHandshake | src/spdm_psk.c:381-407 | PSK_FINISH, its reply and the application keys |
| RequesterObject.SpdmRequester.ConnectTCG | src/spdm_tcg.c:651-751 | the whole flow against the two-party specification; CONNECTED or ERROR at the end |
| RequesterObject.SpdmRequester.ConnectPSK | src/spdm_psk.c:319-426 | the same for the PSK flow |
| RequesterObject.SpdmRequester.ConnectSession | src/spdm_context.c:385-421 | run on the two objects, Connect returns success with both ends connected in one session |
| Agreement.TcgHandshakeAgrees | src/spdm_tcg.c:651-751 | from any state of either end, for every identity, randomness, version cap and permitted session id: both ends CONNECTED, equal transcripts, TH1 and TH2 over the same prefixes, equal application keys, IVs and session id, all counters zero |
| Agreement.PskHandshakeAgrees | src/spdm_psk.c:319-426 | the same for the PSK handshake, whatever the hints |
| Agreement.ConnectedEndsStayInStep | src/spdm_context.c:385-421 | Connect and then any exchanges: the ends stay mirrored and every message of a permitted length arrives unchanged |
| Agreement.Transparent | src/spdm_context.c:513-606 | a reply of the responder reaches the requester unchanged through frame choice, framing and stripping |
| Agreement.VersionAgreed | src/spdm_responder.c:384-415 | both transcripts are the greeting and the requester has the highest common version |
| Agreement.NegotiateAgreed | src/spdm_tcg.c:550-643 | capabilities and algorithms pass the requester's checks with equal transcripts |
| Agreement.PubKeyAgreed | src/spdm_tcg.c:356-407 | both transcripts gain the same Ct |
| Agreement.VendorRoundTrip | src/spdm_tcg.c:204-323 | code and payload of a vendor command read back from its message |
| Agreement.KeyExchangeAgreed | src/spdm_responder.c:714-840 | both ends are in KEY_EX with equal transcript, TH1, handshake keys and session id |
| Agreement.KeyExchangeServed | src/spdm_responder.c:714-840 | the responder's answer to any well-formed request, with its signature and verify data over the right transcript prefixes |
| Agreement.KeyExchangeParsed | src/spdm_msg.c:521-626 | the requester accepts that answer and derives the same keys |
| Agreement.PskExchangeAgreed | src/spdm_responder.c:507-592 | the same for PSK_EXCHANGE |
| Agreement.SecuredAgreed | src/spdm_secured.c:384-436 | a secured request and its reply pass between ends with the same handshake keys, and both counters advance alike |
| Agreement.GivePubAgreed | src/spdm_tcg.c:409-433 | GIVE_PUB keeps both ends in the handshake with equal counters |
| Agreement.FinishAgreed | src/spdm_responder.c:845-949 | the finish of either kind ends in one established session |
| Agreement.CompleteAgreed | src/spdm_tcg.c:727-744 | GIVE_PUB when the requester has a key of its own, then FINISH: one established session |
| Agreement.AuthenticateAgreed | src/spdm_tcg.c:695-725 | GET_PUBK and KEY_EXCHANGE: both ends in the handshake phase of one session |
| Tunnel.TpmThroughSession | src/spdm_responder.c:1011-1030 | Connect and then any TPM commands, from any state of ends that share an identity or key: each reaches the dispatcher once, in order and unchanged, and its answer comes back unchanged |
| Tunnel.CommandsRelayed | src/spdm_responder.c:1011-1030 | over any sequence of commands in a session every answer is the dispatcher's to its own command, and the ends stay in step |
| Tunnel.TpmTunneled | src/spdm_responder.c:1011-1030 | one command through records and frames and back |
| Tunnel.CommandTunneled | src/spdm_responder.c:968-1160 | any vendor command with any payload that fits: the requester receives exactly the payload of its effect under its own code, and the responder has had exactly that effect |
| Tunnel.StatusTunneled | src/spdm_responder.c:1055-1061 | the status read through a session is whether a PSK is provisioned, and the lock |
| Tunnel.LockTunneled | src/spdm_responder.c:1062-1069 | 1 locks and 0 unlocks, through a session |
| Replies.TpmServed | src/spdm_responder.c:1011-1030 | a parsed TPM2_CMD in CONNECTED: the dispatcher is called once with its payload and its answer is the response payload under the same code; no answer, or one too large, is reported and nothing is sent |
| Replies.StatusServed | src/spdm_responder.c:1055-1061 | GET_STS_ returns two fixed bytes, then provisioned, then the lock, and changes nothing |
| Replies.LockServed | src/spdm_responder.c:1062-1069 | SPDMONLY: 1 locks, 0 unlocks, anything else is refused and changes nothing |
| Replies.KeysServed | src/spdm_responder.c:1032-1053 | GIVE_PUB stores at most 128 bytes; GET_PUBK returns the identity key or is refused without one |
| Replies.CommandsGated | src/spdm_responder.c:994-1009 | TPM2_CMD, GIVE_PUB and SPDMONLY in the clear, and all but GIVE_PUB before CONNECTED, are refused and change nothing |
| Replies.OnlyPubKeyRecorded | src/spdm_responder.c:674-697 | of the vendor commands in the clear only an answered GET_PUBK adds to the transcript, and it adds the hash of the key |
| Replies.VendorMeans | src/spdm_tcg.c:266-323 | a vendor-defined message is read exactly when its length covers a code and what is there, after any vendor id |
| Replies.VersionRefused | src/spdm_responder.c:422-437 | a version other than the pinned one is answered with ERROR(MajorVersionMismatch), a request before VERSION with ERROR(UnexpectedRequest), and nothing changes |
| Replies.SelectMeans | src/spdm_responder.c:422-437 | the version a request is handled under, and when there is one |
| Replies.ExchangeRefused | src/spdm_responder.c:628-640 | a key exchange is refused when its mode is off, then while a session is negotiating or connected |
| Replies.UnknownRefused | src/spdm_responder.c:698-704 | any other code in the clear is answered with ERROR(UnsupportedRequest) |
| Replies.CapabilitiesServed | src/spdm_responder.c:440-471 | the bytes of CAPABILITIES with the PSK bit exactly when PSK is on; request and response join the transcript |
| Replies.PskExchangeAnswered | src/spdm_responder.c:507-592 | answered exactly with a stored PSK, a whole request and room; the keys are those of the stored PSK |
| Replies.KeyExchangeAnswered | src/spdm_responder.c:714-840 | answered exactly with an identity, a whole request, a point that agrees and room; a refusal leaves the state |
| Replies.FinishAnswered | src/spdm_responder.c:845-949 | accepted exactly for the HMAC over the transcript with its header under the requester's finished key; any other is BAD_HMAC and leaves the state |
| Replies.FinishGates | src/spdm_responder.c:1207-1229 | only the pending kind of finish, only in KEY_EX |
| Replies.EndServed | src/spdm_responder.c:1230-1260 | END_SESSION is acknowledged under the keys of the session and ends it |
| Replies.ResetMeans | src/spdm_responder.c:259-297 | session, keys and transcript go; identity, store, mode, lock and version stay |
| Replies.PskSetMeans | src/spdm_responder.c:1075-1105 | accepted exactly for 112 bytes while no ClearAuth is set and the store is empty or holds the same PSK; its whole effect |
| Replies.PskClearMeans | src/spdm_responder.c:1106-1133 | accepted exactly for 32 bytes that hash to the registered digest; its whole effect |
| Replies.ProvisionedOnce | src/spdm_responder.c:1075-1133 | a PSK set with the hash of a ClearAuth cannot be set again or cleared by anything that hashes otherwise; that ClearAuth clears it and frees the store |
| Replies.FrameGates | src/spdm_responder.c:1277-1348 | a frame is read exactly when a mode is on, its tag is known and its length is there; the reply has the same tag |
| Chunks.Transparent | src/spdm_chunk.c:281-317 | against any responder that follows the standard and computes f, in the clear or in a session, for every limit of at least 42 and any peer chunk sizes, the exchange returns exactly f of the request whenever the counts are within the stated limits |
| Chunks.SendHonest | src/spdm_chunk.c:100-193 | the CHUNK_SEND loop hands such a responder the whole request and brings back its answer or the handle for it |
| Chunks.GetHonest | src/spdm_chunk.c:196-279 | the CHUNK_GET loop brings back the whole response |
| Chunks.SendsClosedForm | src/spdm_chunk.c:114-128 | the chunk count in closed form |
| Chunks.ChunksPartition | src/spdm_chunk.c:114-146 | each CHUNK_SEND carries data and fits the limit, LastChunk is set exactly on the last, and the payloads are the request |
| Chunks.SendsPrefix | src/spdm_chunk.c:114-193 | whatever the peer answers, what goes out is a prefix of those chunks, all of them on success |
| Chunks.GetsBounded | src/spdm_chunk.c:209-279 | whatever the peer answers, at most one round per byte of the buffer, consecutive sequence numbers, and a 16-bit guard that never fires |
| Chunks.SeqReadBack | src/spdm_chunk.c:35-57 | the sequence number reads back in either width |
| Chunks.AckMeans | src/spdm_chunk.c:149-186 | an acknowledgement continues the loop only in the middle with nothing after it, and ends it only after the last chunk with the response or ERROR(LargeResponse); all else fails |
| Chunks.ChunkMeans | src/spdm_chunk.c:228-268 | a CHUNK_RESPONSE is taken exactly when it is the one asked for, states its size, stays within the total and is flagged last exactly when it completes it |
| Chunks.ChunkAsked | src/spdm_chunk.c:114-146 | each CHUNK_SEND and CHUNK_GET read back: flag, handle, number, size, total, and as much data as the limit allows |
| Chunks.ChunkEngine.ChunkXfer | src/spdm_chunk.c:76-83 | the message is logged and handled by the peer exactly if it can go out, and an answer that can come back and fits the buffer is returned whole; anything else is refused |
| Chunks.XferMeans | src/spdm_chunk.c:76-83 | exactly when a transfer succeeds, in the clear and in a session, and with what |
| Chunks.ChunkEngine.CopyOut | src/spdm_chunk.c:85-95 | the answer is copied if it fits, refused otherwise |
| Chunks.ChunkEngine.ChunkSend | src/spdm_chunk.c:100-193 | the loop over sent and seq, equal to the specification |
| Chunks.ChunkEngine.ChunkGet | src/spdm_chunk.c:196-279 | the loop over off and seq, which writes the caller's array inside its bounds and nowhere else |
| Chunks.ChunkEngine.ChunkExchange | src/spdm_chunk.c:281-317 | chunked or direct request, then reassembly on ERROR(LargeResponse) |
| Attestation.MeasurementsHash | src/spdm_attest.c:210-275 | after any run, a signed-measurement check hashes the VCA, the unsigned GET_MEASUREMENTS exchanges immediately before it, this request and its response up to the signature; a signed success means a good signature over exactly that: a key, the size of its algorithm, and the verdict of ECDSA over the hash or ML-DSA over the signing input |
| Attestation.ChallengeHash | src/spdm_attest.c:403-446 | a CHALLENGE_AUTH check hashes the VCA, every DIGESTS and CERTIFICATE exchange since M1 last restarted, this request and its response up to the signature; once checked it succeeds exactly if the signature is good under the key which the validation leaves, for an acceptable stored chain |
| Attestation.StepTracks | src/spdm_attest.c:44-132 | every operation keeps both running hashes equal to their definition over the history |
| Attestation.MeasureTracks | src/spdm_attest.c:210-275 | GET_MEASUREMENTS extends, demotes or closes L1/L2 as the history says |
| Attestation.ChallengeTracks | src/spdm_attest.c:403-446 | CHALLENGE restarts M1 on success and drops it on a bad signature |
| Attestation.ConnectTracks | src/spdm_standard.c:290-308 | successful negotiation fixes the VCA and starts M1 |
| Attestation.ExchangeTracks | src/spdm_session.c:103-108 | KEY_EXCHANGE restarts a running M1 |
| Attestation.FetchTracks | src/spdm_attest.c:342-349 | a DIGESTS or CERTIFICATE exchange joins a running M1 |
| Attestation.CertifyTracks | src/spdm_standard.c:377-454 | every portion of a certificate chain joins a running M1, whether retrieval succeeds or not; Ct leaves the VCA alone |
| Attestation.OtherTracks | src/spdm_secured.c:420-425 | any other secured exchange ends the back-to-back block |
| Attestation.StepKeepsRecord | src/spdm_attest.c:173-275 | the stored record always fits its array and is exactly as many blocks as the count says |
| Attestation.StartStep | src/spdm_attest.c:282-329 | the k-th block lies inside the record where the walk arrives |
| Attestation.BlocksCover | src/spdm_attest.c:189-207 | the blocks end to end are the whole record |
| Attestation.ParseMeasurements | src/spdm_attest.c:173-208 | success implies an exact partition into the announced number of blocks and a signature that is all the rest |
| Attestation.ParseTail | src/spdm_attest.c:99-115 | the signature is exactly the rest of the response |
| Attestation.Attestor.StartRun | src/spdm_attest.c:44-59 | a run restarts at the VCA |
| Attestation.Attestor.WalkBlocks | src/spdm_attest.c:189-207 | the loop accepts exactly the exact partitions |
| Attestation.Attestor.ParseMeasurementsReply | src/spdm_attest.c:173-208 | the parser against its specification |
| Attestation.Attestor.VerifyRun | src/spdm_attest.c:75-95 | succeeds exactly for a good signature over the hash of the run with this exchange added |
| Attestation.SignatureVerdict | src/spdm_msg.c:272-313 | a signature is accepted exactly if there is a key, it has the size of the level, and ECDSA over the hash of the signing input, or ML-DSA at that level over the input, verifies it |
| Attestation.MeasurementsKept | src/spdm_attest.c:210-275 | GET_MEASUREMENTS succeeds exactly when it may be sent, the response is well formed, a requested signature is good and the record fits; then record and count are the response's, otherwise there are none |
| Attestation.MeasurementsAccepted | src/spdm_attest.c:173-208 | MEASUREMENTS is well formed exactly with version, code, slot, an exact partition of the record, and nonce, opaque data, echo and signature as all the rest |
| Attestation.ChallengeAuthAccepted | src/spdm_attest.c:378-401 | CHALLENGE_AUTH is well formed exactly with version, code, slot, the hash of the fetched chain, and the tail as all the rest |
| Attestation.MeasurementsAsked | src/spdm_attest.c:140-171 | GET_MEASUREMENTS read back: operation, nonce and slot of a signed request, RequesterContext |
| Attestation.ChallengeAsked | src/spdm_attest.c:351-375 | CHALLENGE read back: slot, summary type, nonce and RequesterContext |
| Attestation.ChallengeGates | src/spdm_attest.c:403-446 | a CHALLENGE goes out exactly from CERT on, with M1 running, for the fetched slot, to a capable responder with an acceptable chain; what becomes of M1 |
| Attestation.CertificateSettles | src/spdm_standard.c:377-454 | success exactly with a retrieved chain and room for Ct, which is its hash; a key taken from an earlier chain is gone either way |
| Attestation.DmtfRead | src/spdm_attest.c:305-325 | type and value of a DMTF block read back |
| Attestation.RawRead | src/spdm_attest.c:305-325 | any other block is passed on as it stands |
| Attestation.Attestor.GetMeasurementsFrom | src/spdm_attest.c:210-275 | the whole call against its specification, L1/L2, record and block count included |
| Attestation.Attestor.GetMeasurementBlock | src/spdm_attest.c:282-329 | for every index below the count: index, type and value of that block, BUFFER_SMALL with the size when it does not fit; any other index is refused |
| Attestation.Attestor.RestartM1ForKeyExchange | src/spdm_session.c:103-108 | a running M1 restarts at the VCA |
| Attestation.Attestor.AddToM1 | src/spdm_attest.c:342-349 | nothing happens while no M1 runs |
| Attestation.Attestor.GetCertificateFrom | src/spdm_standard.c:377-454 | slot guard, retrieval, M1, then Ct in the transcript and state CERT |
| Attestation.Attestor.RecordChain | src/spdm_standard.c:441-453 | Ct is the hash of the chain; it joins the transcript whole or the state stays |
| Attestation.Attestor.ResetSession | src/spdm_context.c:452-466 | session, capabilities, measurements and both transcripts go |
| Attestation.Attestor.ChallengeFrom | src/spdm_attest.c:403-446 | the whole call against its specification: guards, chain validation with the key that it installs, request, signature, M1 |
| Certificates.SequenceMeasured | src/spdm_standard.c:458-485 | a DER SEQUENCE in any accepted length form is measured exactly, whatever follows |
| Certificates.MeasuredIsSequence | src/spdm_standard.c:458-485 | only such SEQUENCEs are measured |
| Certificates.ChainFetched | src/spdm_standard.c:377-454 | a served chain that fits arrives whole in any portions, and retrieval succeeds if and only if its Length field is its length and it is longer than its header |
| Certificates.OffsetsAreGathered | src/spdm_standard.c:407-438 | whatever arrives, every requested offset is the number of bytes gathered, so 16 bits never wrap; retrieval ends; on success the length field is the total |
| Certificates.CertificateParsed | src/spdm_standard.c:350-375 | portion and remainder of a CERTIFICATE read back |
| Certificates.CertificateAccepted | src/spdm_standard.c:350-375 | a portion is taken exactly from the right slot, when it is there and still fits |
| Certificates.RequestsAsk | src/spdm_standard.c:385-418 | every request is for this version and slot, in portions that the responder can send |
| Certificates.WalkAccepts | src/spdm_standard.c:722-737 | the walk succeeds exactly when the bytes split into SEQUENCEs without remainder and each certificate is signed by the CA before it |
| Certificates.ValidateAccepts | src/spdm_standard.c:680-771 | validation succeeds exactly on an acceptable chain under the configured root and policy; a pinned key never moves, the leaf's key is installed only on success and no key survives a failure |
| Certificates.KeyExchangeTrusts | src/spdm_session.c:86-102 | KEY_EXCHANGE goes out exactly with a pinned key or a key whose chain is acceptable under the current policy |
| Certificates.CertStore.MeasureSequence | src/spdm_standard.c:458-485 | the length loop |
| Certificates.CertStore.GetCertificate | src/spdm_standard.c:377-454 | retrieval into the chain array, equal to the specification |
| Certificates.CertStore.GatherPortions | src/spdm_standard.c:407-438 | the retrieval loop |
| Certificates.CertStore.ValidateCertChain | src/spdm_standard.c:680-771 | the chain walk as a loop, equal to the specification |
| Certificates.CertStore.CheckKeyExchange | src/spdm_session.c:86-102 | the guard before a standard KEY_EXCHANGE |
| Negotiation.StaysWithinOffer | src/spdm_standard.c:91-276 | for any ALGORITHMS bytes success means, over the AlgStructs and masks read from the bytes of the request: exactly one of offered ECDHE or one single offered ML-KEM set, as the last AlgStruct of each kind says, with the offered AEAD and key schedule, exactly one offered signature algorithm, and the header that was asked for |
| Negotiation.OfferRead | src/spdm_standard.c:91-159 | the request read back: ECDHE exactly if preferred, the preferred ML-KEM sets exactly at 1.4, AEAD, mutual signature and key schedule once each, ECDSA, SHA-384 and at 1.4 ML-DSA, and nothing else; refused exactly when nothing is left to offer |
| Negotiation.CapabilitiesAccepted | src/spdm_standard.c:57-89 | accepted exactly with certificates, encryption, MAC and key exchange and sizes in order; otherwise nothing is recorded |
| Negotiation.AcceptsAnswers | src/spdm_standard.c:163-276 | success exactly when the header is right, every AlgStruct is within the offer, and the last ones of each kind form one complete algorithm set |
| Negotiation.LastStructWins | src/spdm_standard.c:220-265 | AlgStructs that repeat and contradict one another are accepted; the last one of each kind is recorded |
| Negotiation.ConflictAccepted | src/spdm_standard.c:240-248 | a response with two different ML-KEM selections is accepted with the second |
| Negotiation.PickAllMeans | src/spdm_standard.c:220-260 | the loop succeeds exactly when every AlgStruct is present and within the offer |
| Negotiation.LegalChoiceAccepted | src/spdm_standard.c:163-276 | every single choice that the bytes of the request leave to the responder, with AlgStructs in any number and order, is accepted and recorded |
| Negotiation.KemAllowedMeans | src/spdm_standard.c:240-248 | the bit tests accept exactly the single offered sets |
| Negotiation.LimitsValid | src/spdm_standard.c:79-87 | DataTransferSize is always 0 or at least 42 and at most MaxSPDMmsgSize, over any replies and resets |
| Negotiation.Negotiator.ParseCapabilitiesReply | src/spdm_standard.c:57-89 | required capabilities and sizes, or nothing is recorded |
| Negotiation.Negotiator.BuildNegotiateAlgorithms | src/spdm_standard.c:91-159 | struct by struct the bytes of the specification, whose reading is Negotiation.OfferRead; nothing to offer is refused |
| Negotiation.Negotiator.ParseAlgorithmsReply | src/spdm_standard.c:163-276 | the parser against its specification |
| Negotiation.Negotiator.WalkStructs | src/spdm_standard.c:217-260 | the loop over AlgStructs of any size |
| Negotiation.Negotiator.SetKeyExchangePref | src/spdm_standard.c:799-816 | preferences that leave something to offer |
| Crypto.Satisfiable | src/spdm_crypto.c:40-228 | the assumptions about cryptography that the theorems make can all be met at once |

## Left out

- RequesterObject.SpdmRequester.KeyExchange: models the TCG form (P-384 ECDHE and ECDSA, slot 0xFF). The ML-KEM and ML-DSA form of the message and its certificate slots are not modelled; the guard of the standard mode is `Certificates.KeyExchangeTrusts`.
- RequesterObject.SpdmRequester.BuildKeyExchangeRequest: the TCG form only, as above; no ML-KEM encapsulation key and no certificate slot.
- RequesterObject.SpdmRequester.ParseKeyExchangeReply: the TCG form only, as above; no ML-KEM ciphertext and no ML-DSA signature size.
- RequesterObject.SpdmRequester.ConnectSession: covers the modes of the TCG binding. ConnectStandard as one flow (src/spdm_standard.c:820-863) is not modelled; its parts are: negotiation, certificates, chunking, attestation, records and key update.
- KeyUpdates.KeyUpdate: VERIFY_NEW_KEY is one secured transfer; a responder that answers those four bytes with ERROR(LargeResponse) would bring in the chunk engine, which is modelled on its own, and what the exchange does to L1/L2 is `Attestation.OtherTracks`.
- KeyUpdates.SecuredVerify: as for KeyUpdates.KeyUpdate, without chunking and L1/L2.
- Nonce.NoNonceReuse: a run is made of the documented flows (Connect, secured exchanges, KeyUpdate, Disconnect); GIVE_PUB and FINISH are secured messages of such a run. The responder's own sealing is `ResponderSafety.ResponderNonces`.
- Attestation.StepTracks: GET_DIGESTS enters a run as the exchange that it adds to M1, and other secured traffic as the demotion it causes; what they carry is in the other modules. A KeyUpdate that fails on its first record does not pass through SecuredExchange (src/spdm_session.c:309-314) and is not counted as a secured exchange.
- Chunks.Transparent: asks that the request is not itself a chunk message and the response not itself ERROR(LargeResponse), which the engine consumes, and that the caller's buffer holds the five bytes of that error.
- Certificates.ValidateAccepts: what an X.509 certificate says (key, CA flag, signature, leaf key form) is a parameter; parsing is wolfCrypt's.
- Certificates.CertStore.GetCertificate: ends with the chain; the slot guard, M1, Ct and state CERT are `Attestation.Attestor.GetCertificateFrom`, which adds the portions to M1 after the loop rather than inside it.
- Context.SpdmContext.SessionReset: the limits, measurement record and running hashes that a reset also clears are fields of other classes; see `Attestation.Attestor.ResetSession` and `Negotiation.LimitsValid`.
- Fixed-size arrays of the contexts are sequences whose capacity the methods check where the code does; fields that are always written together are grouped into one record.
- reqHsSecret, rspHsSecret and lastPeerErrorCode are not fields: the first two are only intermediate values of the key schedule, the last only reports.
- SendData, ReceiveData, and EncryptMessage and DecryptMessage driven by the caller; the `app` form of the record format is modelled.
- HEARTBEAT, getters, setters, error strings, debug output, allocation and compile-time switches.
- wolfCrypt internals, failures of cryptographic calls and of the random generator, wiping of buffers and timing.
- I/O: the transport is the other end in the handshake, which is either this responder or anything that answers frames (`Handshake.FarEnd`), and an arbitrary answer elsewhere.
- The vendor adapters (src/vendor), which wrap vendor commands.
- NULL arguments and similar guards at the entry of each function.
