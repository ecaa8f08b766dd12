# A verified model of the stateful cores

This project models, in Dafny, the parts of the repository whose correctness rests on state: the
replayable event stream behind the live pages; the replay and ordering state machines of remote
pairing, with the byte encodings they sign; the driver that plays a benchmark scenario on a
simulated clock; the lifecycle of a mutating request; and the table of browser sessions. Beside
them stand three transformations with sharp laws: the table-driven CRC-32, the paragraph editor of
prompt variants, and the calibration figures of the decision benchmark.

How it is laid out. Each state machine is given twice. A class has the source's fields and
branches, and each of its methods is proved equal to a step function on values. The lemmas are
about those step functions: over every run, every interleaving of atomic steps, every restart from
a snapshot. A stretch of code between two awaits is one atomic step. Where the source throws, the
model returns an error (`Result`, `Option`, or a refusal).

What is a parameter. Hashes, MACs, signatures, AEAD opening, canonical JSON and CBOR, the schemas of
parsed records, the clock, random identifiers, and everything the application does inside a call of
the driver enter as functions or values of a `Library`, an event, or an oracle, with no assumption
but those a lemma states: that SHA-256 gives 32 bytes, that no MAC is forged, that the clock does not
run back, that identifiers are fresh. Equal hashes are never taken to mean equal bytes: where it
matters the conclusion names the collision.

| file | modules |
|---|---|
| Wire.dfy | `Results`, `Sets`, `ByteStrings`, `LengthPrefixed` |
| Base64Url.dfy | `Base64Url` |
| ByteOrder.dfy | `ByteOrder` |
| SigningInputs.dfy | `SigningInputs` |
| SessionContexts.dfy | `EndpointContexts`, `ApplicationSessions` |
| Endpoint.dfy, EndpointReceive.dfy | `EndpointCandidates`, `EndpointReceive`, `EndpointRuns` |
| NonceWindow.dfy | `Listings`, `NonceWindows`, `NonceRuns` |
| PairIngress.dfy | `PairIngress`, `IngressRuns` |
| PairConfirmation.dfy | `PairConfirmations`, `ConfirmationExchange` |
| RemoteBrowser.dfy | `SessionAuthentication`, `ReplayGuards` |
| EventStream.dfy, EventSubscribers.dfy | `Filters`, `EventLogs`, `EventStreams`, `EventRuns` |
| Driver.dfy | `ScenarioTimeline`, `Drivers` |
| Mutations.dfy | `Mutations` |
| BrowserSessions.dfy | `BrowserSessions`, `BrowserSessionRuns` |
| Crc32.dfy | `Iteration`, `Crc32` |
| Variants.dfy | `Paragraphs`, `Sections`, `VariantEdits` |
| Calibration.dfy | `Calibration` |

## Where a promise does not hold as written

Each of these has a lemma that says when the promise does hold, for all inputs; where that lemma does not
show the failure by itself, a second one gives an instance.

- Forgetting records (`dropReplay`): the comment says a client resuming from an older cursor only
  misses the forgotten records. When every record up to the direct successor of its cursor goes, it is sent a reset
  and a snapshot instead (`EventLogs.ForgettingDemandsSnapshot`,
  `EventLogs.ForgettingTheHeadDemandsSnapshot`).
- Mutations: a handler does not only start on a receipt its request prepared. A completed receipt of a
  recoverable kind without a stored response lets the handler run again
  (`Mutations.RecoveryRunsHandlerAgain`, `Mutations.UnpreparedStartIsRecovery`).
- Browser sessions: the clock is read once for the check and again for the refresh. A session whose idle
  limit passes in between is revived (`BrowserSessions.RevivalWitness`,
  `BrowserSessions.RevivedExactlyWhenIdleRunsOutInBetween`).
- Scenarios: a message that replies to its own label passes the check, yet the reply is not found when it
  is delivered (`ScenarioTimeline.SelfReplyIsAccepted`, `Drivers.AcceptedRepliesAreFound`).
- Variants: edits may leave a paragraph that opens a section and has no text; then the tag's line end runs
  into a blank line and the text no longer splits into those paragraphs. It happens by a blank replacement of
  an opener (`VariantEdits.ReplacementSplitsAgain`), and by a blank replacement next to one that is then
  removed (`VariantEdits.BlankThenRemoveBreaks`); over any list of edits, exactly when such a paragraph is left
  (`VariantEdits.VariantKeepsSections`), which text in every paragraph and edit rules out
  (`VariantEdits.TextEverywhereStays`).
- Nonce window: one envelope can verify twice when the clock runs 600 seconds ahead and back in between,
  and in no other way (`NonceRuns.ClockConditionNeeded`, `NonceRuns.ReplayNeedsClockToRunBack`).

## Model

| member | source | states |
|---|---|---|
| `LengthPrefixed.ConcatInjective` | scripts/remote-contracts/controlAuth.ts:152-157 | Length-prefixed concatenation is injective on field lists, whatever their number and lengths: equal bytes mean equal fields. |
| `LengthPrefixed.PrefixSelfDelimiting` | scripts/remote-contracts/endpointEnvelope.ts:135-138 | One length-prefixed field followed by anything is read back in one way only. |
| `LengthPrefixed.DecodeTuple` | scripts/remote-contracts/endpointEnvelope.ts:395-444 | The strict reader returns the one field list of the given domain and widths that encodes to the payload, and nothing when there is none: no trailing, truncated or wrong-width input. |
| `LengthPrefixed.FieldReader.Read` | scripts/remote-contracts/endpointEnvelope.ts:398-405 | Reads exactly that many bytes and moves the offset past them, or refuses and leaves it. |
| `LengthPrefixed.FieldReader.ReadField` | scripts/remote-contracts/endpointEnvelope.ts:407-413 | Either the next field of that width, or proof that no field list continues with one. |
| `SigningInputs.DomainSeparation` | scripts/remote-contracts/controlAuth.ts:22-29 | The first field of every signing or MAC input fixes its kind: no two of the nine kinds share a domain. |
| `SigningInputs.RequestInjective` | scripts/remote-contracts/controlAuth.ts:690-712 | Equal fields of two valid certificate requests mean equal requests, method, path, body hash, certificate hash, timestamp and nonce included. |
| `SigningInputs.ActivationInjective` | scripts/remote-contracts/controlAuth.ts:714-742 | The same for activation begin and poll requests under their fixed paths. |
| `SigningInputs.ResponseInjective` | scripts/remote-contracts/controlAuth.ts:1068-1105 | The same for signed responses. |
| `SigningInputs.RecordInjective` | scripts/remote-contracts/pairControl.ts:190-209 | The same for pair control records: type, side, generation, sequence, timestamp, nonce and payload hash. |
| `SigningInputs.RevocationInjective` | scripts/remote-contracts/pairControl.ts:262-284 | The same for revocations, whose reason is a field of its own. |
| `SigningInputs.RevocationAckInjective` | scripts/remote-contracts/pairControl.ts:262-284 | The same for revocation acknowledgements, which carry no reason. |
| `SigningInputs.ConfirmationInjective` | scripts/remote-contracts/pairConfirmation.ts:92-107 | The same for pair confirmations: all eight context fields, the side and the nonce. |
| `SigningInputs.EncodeInjective` | scripts/remote-contracts/controlAuth.ts:356-363 | Over all nine kinds at once: two valid inputs encode to the same bytes only if they are the same input of the same kind. |
| `SigningInputs.EncodesExactlyTheValid` | scripts/remote-contracts/controlAuth.ts:356-363 | Exactly the valid inputs are encoded, as the length-prefixed domain and fields. |
| `EndpointContexts.EncodeInjective` | scripts/remote-contracts/endpointEnvelope.ts:377-393 | Associated data of two contexts is equal only if the contexts are. |
| `EndpointContexts.Decode` | scripts/remote-contracts/endpointEnvelope.ts:446-451 | Decoding undoes encoding both ways: what is accepted re-encodes to the very bytes read, and every valid context's encoding is accepted and gives it back. |
| `EndpointContexts.FieldsOfInterpret` | scripts/remote-contracts/endpointEnvelope.ts:415-443 | Every field list of the right widths is the field list of the context it is read as. |
| `ApplicationSessions.EncodeInjective` | scripts/remote-contracts/remoteServiceCrypto.ts:216-239 | Signed bytes of two application sessions are equal only if the sessions are. |
| `ApplicationSessions.Decode` | scripts/remote-contracts/remoteServiceCrypto.ts:296-309 | The two-way round trip for application sessions, with the expected minor when one is given. |
| `Base64Url.DecodeOfEncode` | scripts/remote-contracts/controlAuth.ts:479-493 | Decoding the text of any byte string gives that byte string. |
| `Base64Url.EncodeOfDecode` | scripts/remote-contracts/controlAuth.ts:479-493 | Whatever text the strict decoder accepts is the one text of its bytes: padding, stray characters and spare bits are refused. |
| `EndpointCandidates.TiesOnlyWhenEqual` | scripts/remote-contracts/endpointEnvelope.ts:165-177 | Candidates compare equal only if all five of their fields are. |
| `EndpointCandidates.OrderFlips` | scripts/remote-contracts/endpointEnvelope.ts:165-177 | Swapping two candidates swaps the comparison. |
| `EndpointCandidates.OrderTransitive` | scripts/remote-contracts/endpointEnvelope.ts:165-177 | The comparison is transitive; with the two above, a total order. |
| `EndpointCandidates.OrderIsLexicographic` | scripts/remote-contracts/endpointEnvelope.ts:165-177 | The order is the lexicographic one of priority, highest first, then kind, family, address bytes and port. |
| `ByteOrder.CompareFindsFirstDifference` | scripts/remote-contracts/endpointEnvelope.ts:175 | Byte strings compare by their first difference, a prefix before what it begins. |
| `EndpointCandidates.CandidatePassesExactlyWhen` | scripts/remote-contracts/endpointEnvelope.ts:179-210 | A candidate passes exactly with a known kind, a family with an address of its length, a port, a uint32 priority and a safe address, and is called unsafe exactly when only that fails. |
| `EndpointCandidates.UnsafeFour` | scripts/remote-contracts/endpointEnvelope.ts:144-151 | Unsafe IPv4 addresses by prefix: unspecified, loopback, link-local, multicast, broadcast. |
| `EndpointCandidates.UnsafeSix` | scripts/remote-contracts/endpointEnvelope.ts:152-158 | Unsafe IPv6 addresses by prefix: unspecified, loopback, link-local, multicast, IPv4-mapped. |
| `EndpointCandidates.OrderErrorNone` | scripts/remote-contracts/endpointEnvelope.ts:224-234 | The check of neighbours and the set of identities together find no error exactly when the whole list is strictly sorted with distinct identities. |
| `EndpointCandidates.AcceptedOrderUnique` | scripts/remote-contracts/endpointEnvelope.ts:212-237 | Any set of candidates has at most one accepted order. |
| `EndpointCandidates.ValidateGeneration` | scripts/remote-contracts/endpointEnvelope.ts:212-237 | The loop with its identity set accepts exactly the acceptable generations, and reports the first error otherwise. |
| `EndpointReceive.SnapshotReadsBack` | scripts/remote-contracts/endpointEnvelope.ts:625-661 | A snapshot validates exactly when it is empty, or holds an acceptable value of its own epoch beside a ciphertext within 1,200 bytes and that ciphertext's 32-byte hash; validation returns it unchanged. |
| `EndpointReceive.SnapshotCheckNeverFails` | scripts/remote-contracts/endpointEnvelope.ts:704-712 | After a successful decryption the snapshot check inside prepare cannot fail. |
| `EndpointReceive.DecryptedInItsContext` | scripts/remote-contracts/endpointEnvelope.ts:567-604 | What decrypts opens under the sender's direction key, the epoch's nonce and this context's associated data, which no other valid context has. |
| `EndpointReceive.DecryptsExactlyWhen` | scripts/remote-contracts/endpointEnvelope.ts:567-604 | Decryption succeeds exactly for an approved envelope in a valid context, with a 32-byte key, within the size limits, that opens to an acceptable value of the context's own epoch. |
| `EndpointReceive.PreparesExactlyWhen` | scripts/remote-contracts/endpointEnvelope.ts:674-713 | For every durable state: an envelope that decrypts is answered exactly when its epoch is the first, or above the stored one, or its bytes are the stored ones. In the first two cases its epoch, ciphertext, hash and value are stored as prepared; otherwise nothing changes. |
| `EndpointReceive.RefusedUnopened` | scripts/remote-contracts/endpointEnvelope.ts:680-697 | An unapproved sender, an invalid context, a wrong first epoch, an epoch below the stored one, and other bytes for the stored one are each refused as what they are. |
| `EndpointReceive.EndpointReceiveState.Restore` | scripts/remote-contracts/endpointEnvelope.ts:666-668 | A restart takes over exactly the durable snapshots, each as it is. |
| `EndpointReceive.EndpointReceiveState.TakeSnapshot` | scripts/remote-contracts/endpointEnvelope.ts:670-672 | The snapshot taken in any reachable state validates. |
| `EndpointReceive.EndpointReceiveState.Prepare` | scripts/remote-contracts/endpointEnvelope.ts:674-713 | Succeeds exactly as above, storing the new record or changing nothing; the state stays durable. |
| `EndpointReceive.EndpointReceiveState.MarkApplied` | scripts/remote-contracts/endpointEnvelope.ts:715-727 | Marking applied does its step and nothing else. |
| `EndpointRuns.RunForward` | scripts/remote-contracts/endpointEnvelope.ts:674-727 | Over every run, restarts included, the received epoch never goes back, and within an epoch the stored bytes stay and applied stays applied. |
| `EndpointRuns.OneCiphertextPerEpoch` | scripts/remote-contracts/endpointEnvelope.ts:674-713 | The first answered epoch is 1, answered epochs never decrease, and each epoch is answered for one ciphertext (or two that collide under SHA-256), one value, and one new preparation. |
| `EndpointRuns.AppliedWasPrepared` | scripts/remote-contracts/endpointEnvelope.ts:715-727 | Every (epoch, hash) ever applied was prepared before. |
| `EndpointRuns.OnlyPreparedIsApplied` | scripts/remote-contracts/endpointEnvelope.ts:715-727 | Applying succeeds exactly on the record prepared now, and changes only its phase. |
| `EndpointRuns.RedeliveryIsIdempotent` | scripts/remote-contracts/endpointEnvelope.ts:691-702 | The same bytes again give the same value and leave the state alone. |
| `NonceWindows.KeySplits` | scripts/remote-contracts/controlAuth.ts:929-939 | A key splits at its last colon into the identity and nonce it was made of, colons in the identity notwithstanding. |
| `NonceWindows.RestartIsTransparent` | scripts/remote-contracts/controlAuth.ts:890-905 | Any listing of a well-formed window's entries, in whatever order, restores exactly that window. |
| `NonceWindows.RestoresExactlyWhen` | scripts/remote-contracts/controlAuth.ts:890-905 | A snapshot restores exactly the entries it lists, each once, well formed, at most 1,024. |
| `NonceWindows.AcceptsExactlyWhen` | scripts/remote-contracts/controlAuth.ts:908-927 | A nonce is accepted exactly when identity, clock and nonce are well formed, it is not held for less than 600 seconds, and fewer than 1,024 are; each refusal has its one cause. |
| `NonceWindows.EntriesAfterAccept` | scripts/remote-contracts/controlAuth.ts:908-927 | Whatever the outcome exactly the nonces still held stay, and an accepted one joins them. |
| `NonceWindows.NonceWindow.Accept` | scripts/remote-contracts/controlAuth.ts:908-927 | The pruning loop and the checks after it do the accept step: a refusal only prunes, an acceptance adds the one key. |
| `NonceWindows.NonceWindow.Snapshot` | scripts/remote-contracts/controlAuth.ts:929-939 | The lines written are the entries, each once, and restore the window. |
| `NonceWindows.NonceWindow.Restore` | scripts/remote-contracts/controlAuth.ts:890-905 | The restoring loop accepts exactly the restorable snapshots and rebuilds the window they describe. |
| `NonceRuns.ClampedWindowIsExact` | scripts/remote-contracts/controlAuth.ts:677-688 | The clamped uint64 window is the plain one: the timestamp is within 60 seconds of now. |
| `NonceRuns.VerifiedExactlyWhen` | scripts/remote-contracts/controlAuth.ts:990-1054 | An envelope verifies exactly when it is genuine, within 60 seconds of now, and its nonce neither held nor without room. |
| `NonceRuns.VerdictReasons` | scripts/remote-contracts/controlAuth.ts:990-1054 | An envelope is out of the window, or else not genuine, exactly when it is; neither touches the nonces. |
| `NonceRuns.WindowBounded` | scripts/remote-contracts/controlAuth.ts:908-927 | In every run, restarts included, the window holds at most 1,024 entries. |
| `NonceRuns.NonceHeld` | scripts/remote-contracts/controlAuth.ts:908-927 | An accepted nonce stays held, with its time, until the clock shows 600 seconds past it. |
| `NonceRuns.ReplayNeedsClockToRunBack` | scripts/remote-contracts/controlAuth.ts:968-1054 | For every clock: an envelope verifies twice only if in between the clock was 600 seconds past the first time, and at the second at most 120. |
| `NonceRuns.NeverAcceptedTwice` | scripts/remote-contracts/controlAuth.ts:968-1054 | With a clock that never goes back no envelope is accepted twice, whatever else happens. |
| `NonceRuns.ClockConditionNeeded` | scripts/remote-contracts/controlAuth.ts:908-927 | Without that condition it happens, for every identity and any two nonces. |
| `PairIngress.CanonicalSpelling` | scripts/remote-contracts/pairControl.ts:162-182 | No two payloads parse to the same record. |
| `PairIngress.VerifiedExactlyWhen` | scripts/remote-contracts/pairControl.ts:521-538 | What ingress verifies: exactly the canonical payloads within 2,048 bytes, allowed on a transport other than the poll, signed by their own side's key, of this pair and protocol, within 60 seconds of now, their presence not over. |
| `PairIngress.RecordVerifiesExactlyWhen` | scripts/remote-contracts/pairControl.ts:374-435 | The whole check in either timestamp mode, with the optional revocation MAC: exactly when the record is canonical, allowed, signed, of the expected protocol, pair and side, timely, and, for revocations checked against a context, carries that context's MAC. |
| `PairIngress.RefusalsAreJustified` | scripts/remote-contracts/pairControl.ts:162-182 | No verification is refused for a reason that does not hold. |
| `PairIngress.UploadsPartition` | scripts/remote-contracts/pairControl.ts:237-253 | Every record type can be uploaded over exactly one HTTPS transport: revocations and their acknowledgements over their own, the rest over publish. |
| `PairIngress.AcceptedExactlyWhen` | scripts/remote-contracts/pairControl.ts:539-585 | A verified record is accepted exactly when it starts its side at (1, 1), continues its generation, or starts a later one at 1, and its nonce is not held; then it is the side's high-water. It is idempotent exactly when it is the latest. |
| `PairIngress.RefusedByTuple` | scripts/remote-contracts/pairControl.ts:545-568 | Stale generations, stale sequences, conflicting payloads and wrong starts are each refused as what they are. |
| `PairIngress.AdmittedStaysDeliverable` | scripts/remote-contracts/pairControl.ts:374-393 | A record admitted at ingress still verifies when polled at any later time, unless its presence ran out or the poller's own revocation check fails. |
| `PairIngress.IngressFrame` | scripts/remote-contracts/pairControl.ts:521-585 | Only an accepted record changes anything, and only its own side. |
| `PairIngress.SnapshotIsExact` | scripts/remote-contracts/pairControl.ts:499-519 | A snapshot restores a state exactly when it is that well-formed state's snapshot, and a state has only one. |
| `PairIngress.RestoresExactlyWhen` | scripts/remote-contracts/pairControl.ts:455-519 | A snapshot restores exactly when it has the version, tuples and hashes in range, and sorted 16-byte nonces, none for a side not known. |
| `PairIngress.RestoreNonces` | scripts/remote-contracts/pairControl.ts:455-467 | Comparing neighbours accepts exactly the strictly sorted lists of 16-byte texts and gives their set. |
| `PairIngress.PairControlIngress.Restore` | scripts/remote-contracts/pairControl.ts:499-519 | A restart takes over exactly the restorable snapshots. |
| `PairIngress.PairControlIngress.Accept` | scripts/remote-contracts/pairControl.ts:521-585 | Accepts exactly the verified records that may follow, with a nonce not held; in the source's order of refusals, and keeping the state well formed. |
| `PairIngress.PairControlIngress.TakeSnapshot` | scripts/remote-contracts/pairControl.ts:587-595 | The snapshot taken is the state's and restores it. |
| `IngressRuns.RestartIsTransparent` | scripts/remote-contracts/pairControl.ts:499-519 | Reading back a snapshot leaves the state as it was, so every later answer too. |
| `IngressRuns.ReachableIsWellFormed` | scripts/remote-contracts/pairControl.ts:587-595 | Every reachable state can be written out and read back. |
| `IngressRuns.AcceptedAscend` | scripts/remote-contracts/pairControl.ts:545-571 | Per side, accepted (generation, sequence) pairs strictly increase and no nonce is accepted twice. |
| `IngressRuns.EveryGenerationStartsAtOne` | scripts/remote-contracts/pairControl.ts:545-568 | A side begins at (1, 1) and every generation at sequence 1: any other accepted record has an accepted predecessor. |
| `IngressRuns.HighWaterWasAccepted` | scripts/remote-contracts/pairControl.ts:572-585 | The stored high-water is always the tuple of a record accepted before. |
| `IngressRuns.ResendIsNeverAccepted` | scripts/remote-contracts/pairControl.ts:555-571 | An accepted payload sent again is never accepted and changes nothing; it is idempotent exactly when it still verifies and its side accepted nothing since. |
| `PairConfirmations.WireInputsInjective` | scripts/remote-contracts/pairConfirmation.ts:92-107 | The MAC input determines the confirmation. |
| `PairConfirmations.VerifiesExactlyWhen` | scripts/remote-contracts/pairConfirmation.ts:137-176 | A payload verifies exactly when it is within 1,024 bytes, canonical, and carries the 32-byte MAC of its own fields. |
| `PairConfirmations.RefusalsAreJustified` | scripts/remote-contracts/pairConfirmation.ts:233-274 | No record handed in, one's own or the peer's, is refused for a reason that does not hold. |
| `PairConfirmations.PairConfirmationSession.Approve` | scripts/remote-contracts/pairConfirmation.ts:222-231 | Succeeds exactly before approval or when approved already, true only the first time; the phase is then approved and nothing else has changed. What the session vouches for is kept. |
| `PairConfirmations.PairConfirmationSession.PublishLocal` | scripts/remote-contracts/pairConfirmation.ts:233-249 | Succeeds exactly when approved, for a genuine record of the own side and context, and only if nothing else was published; the payload kept is that record's, never replaced, and nothing else changes. |
| `PairConfirmations.PairConfirmationSession.ReceivePeer` | scripts/remote-contracts/pairConfirmation.ts:251-274 | Succeeds exactly when approved and published, for a canonical genuine record of the other side with the same context, and only if no other was accepted; those very bytes are kept, never replaced, and nothing else changes. |
| `PairConfirmations.PairConfirmationSession.Consume` | scripts/remote-contracts/pairConfirmation.ts:276-287 | Succeeds exactly when consumed already or approved with a verified peer, true only the first time; a consumed session always holds its own payload and a peer payload that verifies in its context. |
| `PairConfirmations.PairConfirmationSession.Cancel` | scripts/remote-contracts/pairConfirmation.ts:289-297 | Succeeds exactly unless consumed or expired, true only when it ends the session; only the phase changes. |
| `PairConfirmations.PairConfirmationSession.Expire` | scripts/remote-contracts/pairConfirmation.ts:299-307 | Succeeds exactly unless consumed or cancelled, true only when it ends the session; only the phase changes. |
| `ConfirmationExchange.AcceptedIsPublished` | scripts/remote-contracts/pairConfirmation.ts:251-274 | Short of a forged MAC, an accepted peer record is byte for byte the one the peer published, under the same key and context. |
| `ConfirmationExchange.ConsumedMeansAgreement` | scripts/remote-contracts/pairConfirmation.ts:208-331 | Over an adversarial mailbox: a consumed side had approved and published before it verified; the peer had approved and published for the opposite side; keys and all eight context fields agree. |
| `ConfirmationExchange.TerminalIsFinal` | scripts/remote-contracts/pairConfirmation.ts:276-307 | Consumed, cancelled and expired sessions never change again. |
| `ConfirmationExchange.HonestDeliveryCompletes` | scripts/remote-contracts/pairConfirmation.ts:208-331 | Two honest sides with the same key and context both reach consumed when their records are delivered, so the agreement is not empty. |
| `SessionAuthentication.AuthenticatedMeansWholeScript` | scripts/remote-contracts/remoteServiceCrypto.ts:381-422 | Whatever is attempted, the events let through are a first part of the role's script; requests may start exactly when the script is done. |
| `SessionAuthentication.ScriptGoesThrough` | scripts/remote-contracts/remoteServiceCrypto.ts:381-422 | At every point exactly the next event of the role's script is let through. |
| `SessionAuthentication.ScriptAuthenticates` | scripts/remote-contracts/remoteServiceCrypto.ts:381-422 | The script itself authenticates. |
| `SessionAuthentication.ApplicationSessionAuthentication.MakeTransition` | scripts/remote-contracts/remoteServiceCrypto.ts:412-421 | A transition moves the phase exactly when it is the one allowed next. |
| `ReplayGuards.PassesExactlyWhen` | scripts/remote-contracts/remoteServiceCrypto.ts:562-611 | A request passes exactly when its proof is genuine, bound to this trust, launch, session, method and target, in time, and unused. |
| `ReplayGuards.RefusalsAreJustified` | scripts/remote-contracts/remoteServiceCrypto.ts:562-611 | No request is refused for a reason that does not hold. |
| `ReplayGuards.CreatesUnused` | scripts/remote-contracts/remoteServiceCrypto.ts:540-544 | A new application session has let nothing through; a known handle keeps its own. |
| `ReplayGuards.ReplayGuard.VerifyAndConsume` | scripts/remote-contracts/remoteServiceCrypto.ts:562-621 | Succeeds exactly for an admissible proof and returns its context; then its nonce, direct request and session are used up and nothing else has changed. A refusal changes nothing. |
| `ReplayGuards.EachIsConsumedOnce` | scripts/remote-contracts/remoteServiceCrypto.ts:602-620 | In every run each request nonce, direct request and application session gets at most one request through. |
| `EventLogs.EvictionKeepsLongestSuffix` | src/api/eventStream.ts:116-122 | Eviction keeps the longest recent stretch of records within both budgets. |
| `EventLogs.PublishesExactlyWhen` | src/api/eventStream.ts:99-127 | A publication succeeds exactly on an open stream with a sequence left, for a valid name and data writable within the limit; it gets the next sequence, and what fits stays. A refusal changes nothing. |
| `EventLogs.PublishKeepsIndex` | src/api/eventStream.ts:99-127 | After a publication the log is again an exact index of the history: what was published after some horizon and not forgotten, its byte count the sum, both budgets kept. |
| `EventLogs.DropKeepsIndex` | src/api/eventStream.ts:133-140 | The same after a forget. |
| `EventLogs.RecoveryIsExact` | src/api/eventStream.ts:142-169 | A recovery without a snapshot hands out, in order, exactly the published records after the cursor that were not forgotten. |
| `EventLogs.RecoveryReasons` | src/api/eventStream.ts:142-169 | No reset exactly without a cursor; a reset for the epoch exactly for a well-formed cursor of another; a resumption only for one of this epoch not ahead of the stream. |
| `EventLogs.SnapshotDemandedExactly` | src/api/eventStream.ts:156-163 | A good cursor of this epoch is asked for a snapshot exactly when records were published after it and all up to its direct successor are gone. |
| `EventLogs.ForgettingDemandsSnapshot` | src/api/eventStream.ts:129-163 | A cursor that could resume before a forget needs a snapshot after it exactly when records were published after it and the forget takes every retained record up to its direct successor. |
| `EventLogs.ForgettingTheHeadDemandsSnapshot` | src/api/eventStream.ts:129-140 | The shortest instance: forgetting the one retained record turns the cursor before it from a resumption into a snapshot demand. |
| `EventStreams.EventStream.Publish` | src/api/eventStream.ts:99-127 | The refusals in order; otherwise the record goes to the log's end and to every open subscriber's queue. |
| `EventStreams.EventStream.Retain` | src/api/eventStream.ts:111-122 | The eviction loop leaves exactly the records and byte count of the append step. |
| `EventStreams.EventStream.FanOut` | src/api/eventStream.ts:123-125 | Every open subscriber, and no other, gets the record at the end of its queue. |
| `EventStreams.EventStream.DropReplay` | src/api/eventStream.ts:133-140 | The matching records go, the byte count is recomputed, and the number removed is returned. |
| `EventStreams.EventStream.Subscribe` | src/api/eventStream.ts:171-286 | A new subscriber starts with the reset, snapshot or records its recovery demands. |
| `EventStreams.EventStream.Close` | src/api/eventStream.ts:307-311 | Closing terminates every open subscriber, once. |
| `EventRuns.LogIsExact` | src/api/eventStream.ts:99-140 | In every reachable state the log is an exact index of the history, within budget. |
| `EventRuns.RunsPublish` | src/api/eventStream.ts:99-127 | In every run a publication that succeeds is on record and at the end of every open subscriber's queue. |
| `EventRuns.RunsSubscribe` | src/api/eventStream.ts:171-286 | In every run a subscription to an open stream opens with what its cursor calls for. |
| `EventRuns.SettleKeepsLedger` | src/api/eventStream.ts:228-260 | Whatever an authorisation answers, the subscriber's ledger still adds up; anything but permission closes it. |
| `EventRuns.ResumedMissesNothing` | src/api/eventStream.ts:171-286 | For every interleaving: an open subscriber that resumed without a snapshot was handed, was spared by its projection, or still awaits exactly the published records after its cursor, less those forgotten before it came, in order. |
| `EventRuns.SnapshotThenEverything` | src/api/eventStream.ts:269-281 | After a snapshot at the latest cursor: that snapshot, the reset before it if any, then every record published since. |
| `EventRuns.HandedInCursorOrder` | src/api/eventStream.ts:228-281 | What any subscriber was handed is in strictly increasing cursor order, the snapshot before the records after it. |
| `EventRuns.NothingAfterClosing` | src/api/eventStream.ts:195-250 | Over every run: after a subscriber closed, nothing is handed over and no further notice goes out. |
| `EventRuns.EndingIsFinal` | src/api/eventStream.ts:199-250 | Over every run: a subscriber that is denied, or whose authorisation, projection or callback fails, or whose stream closes, is closed from then on, is handed nothing more, and has heard exactly the one notice for it. |
| `EventRuns.LeavingIsFinal` | src/api/eventStream.ts:195-198 | A client that leaves is handed nothing more and hears no notice. |
| `EventRuns.StaysOpen` | src/api/eventStream.ts:195-250 | Through any other action an open subscriber stays open. |
| `EventRuns.ClosedGetsAndAsksNothing` | src/api/eventStream.ts:228-232 | Closed, a subscriber gets no more records, and no authorisation is asked for what it had queued. |
| `EventRuns.QueueIsHandedOver` | src/api/eventStream.ts:228-281 | Nothing owed gets stuck: while the authorisation holds and the callbacks work, the whole queue is handed over in order. |
| `EventRuns.OmittedIsPassedOver` | src/api/eventStream.ts:252-259 | A record the projection leaves out is passed over and the next task may begin; resets and heartbeats are handed over all the same. |
| `EventRuns.HandoverFollowsOwnAuthorisation` | src/api/eventStream.ts:228-250 | Every handover is the positive answer to the request made for that very task, to a subscriber still open. |
| `ScenarioTimeline.CheckScenario` | scripts/life-benchmark/scenario.ts:208-246 | The event checks report no problem exactly for times in order inside the run, fresh labels, and known places, people, mentions and replies. |
| `ScenarioTimeline.RepliesLookBack` | scripts/life-benchmark/scenario.ts:230-244 | In an accepted scenario a reply names a label before it, exactly unless it names its own message's. |
| `ScenarioTimeline.SelfReplyIsAccepted` | scripts/life-benchmark/scenario.ts:230-244 | A message replying to its own label is accepted. |
| `Drivers.Align` | scripts/life-benchmark/runner.ts:446 | The aligned time is a multiple of the tick, at or after the time and less than a tick later. |
| `Drivers.NextAfter` | scripts/life-benchmark/runner.ts:451-452 | The earliest wakeup after now, or none when there is none. |
| `Drivers.DeliverNextConsistent` | scripts/life-benchmark/runner.ts:307-311 | Delivering the next event keeps order, once-only delivery, timeliness and the labels' index. |
| `Drivers.TimeOrTickGivesWay` | scripts/life-benchmark/runner.ts:454-461 | A round without an event or a checkpoint brings the end nearer or leaves no tick due. |
| `Drivers.Driver.Sleep` | scripts/life-benchmark/runner.ts:332-336 | A sleep ends at its target or later with nothing due by the target left to deliver, and past it only by the sleeping inside deliveries; inside a delivery it delivers nothing and moves the clock by just its time. |
| `Drivers.Driver.Deliver` | scripts/life-benchmark/runner.ts:308-311 | The next event goes out with the clock at its time or later. |
| `Drivers.Driver.DeliverUntil` | scripts/life-benchmark/runner.ts:302-325 | Everything due by the time is delivered and no burst is left unflushed; re-entry does nothing. |
| `Drivers.Driver.DeliverInBurst` | scripts/life-benchmark/runner.ts:309-318 | After an event the detector is flushed exactly unless the next one due belongs to its burst. |
| `Drivers.Driver.Tick` | scripts/life-benchmark/runner.ts:456-459 | The scheduler ticks exactly when its own time or a wakeup's has come; its next time is then the next multiple of the tick after the clock. |
| `Drivers.Driver.LifeUntilIdle` | scripts/life-benchmark/runner.ts:413-424 | Turns until one finds nothing queued, forty at most; none when the budget is spent, and over budget only when it is. |
| `Drivers.Driver.RunCheckpoints` | scripts/life-benchmark/runner.ts:438-443 | Takes exactly the checkpoints reached, in order, none before its time: every one left is later than the clock. |
| `Drivers.Driver.PlayRound` | scripts/life-benchmark/runner.ts:450-463 | Whatever the application does, one round uses up an event, a checkpoint, some time, or the tick that was due; the scheduler ticks when its time or a wakeup's has come, and her life has a turn. |
| `Drivers.Driver.PlayTimeline` | scripts/life-benchmark/runner.ts:449-468 | The loop terminates, and when it ends in good order every event is out. |
| `Drivers.Driver.Run` | scripts/life-benchmark/runner.ts:449-483 | Every run ends; the clock never goes back; events go out in order, each at most once, never early, and late by no more than the sleeping inside deliveries; a run that ends done delivered all, ticked at the end, and took every checkpoint up to it, none before its time. It ends in error exactly by a failure other than the budget's, and over budget only by that failure or a spent budget; every failure is some call's, and no call failed unreported but under one that swallows failures. |
| `Drivers.AcceptedRepliesAreFound` | scripts/life-benchmark/runner.ts:291-296 | In an accepted scenario a reply to a label is found at delivery, exactly unless the message replies to itself. |
| `Mutations.OnceEach` | src/api/mutations.ts:68-93 | Over every interleaving and every fate of the store calls: the handler starts at most once, finalisation is entered at most once, the receipt is settled at most once, never both completed and unknown. |
| `Mutations.HandlerStartsAfterAudit` | src/api/mutations.ts:277-331 | The handler starts only after a persisted accepted audit and, when no receipt existed, after this request prepared one. |
| `Mutations.UnpreparedStartIsRecovery` | src/storage/operationStore.ts:206-278 | A handler run without a prepared receipt happens exactly under an existing receipt: a completed, recoverable one of the same body, without a stored response. |
| `Mutations.OtherReceiptsLeaveNothing` | src/storage/operationStore.ts:217-245 | Under any other receipt found, no interleaving starts the handler, writes anything or audits anything. |
| `Mutations.StartsExactlyWhen` | src/api/mutations.ts:256-331 | Left alone, the handler starts exactly when there was no receipt, or one to recover, and the reservation and the accepted audit worked. |
| `Mutations.FailedAuditWithdraws` | src/api/mutations.ts:277-305 | When the accepted audit fails, the receipt just prepared is withdrawn, unless that fails too. |
| `Mutations.AbortedBeforeCheckNeverStarts` | src/api/mutations.ts:325-331 | A request aborted before the check never starts its handler, whatever follows. |
| `Mutations.SendingSettles` | src/api/mutations.ts:337-399 | For every fate of the calls: the answer goes out exactly when the final audit and the completion worked; a failed audit or completion marks the receipt unknown if that works. |
| `Mutations.AbortMarksUnknown` | src/api/mutations.ts:68-93 | An abort while the handler is at work marks the receipt unknown and audits that, as far as the calls work. |
| `Mutations.EarlyAbortIsMarkedAtCheck` | src/api/mutations.ts:325-331 | An abort that came before the context existed is treated the same at the check. |
| `Mutations.LateAnswerIsReleased` | src/api/mutations.ts:337-340 | An answer after finalisation goes out and touches neither receipt nor audit. |
| `Mutations.LateAbortLeavesNothing` | src/api/mutations.ts:68-70 | An abort without a context, or after finalisation, leaves nothing. |
| `Mutations.CleanFailureLeavesNothing` | src/storage/operationStore.ts:281-348 | A store call that fails clean leaves no durable trace. |
| `Mutations.DirtyFailureLeavesTheSame` | src/storage/operationStore.ts:281-348 | One that fails after its work leaves the trace and receipt it would have left. |
| `Mutations.RecoveryRunsHandlerAgain` | src/storage/operationStore.ts:235-242 | A completed, recoverable receipt without a stored response lets the handler start with no receipt prepared. |
| `Mutations.AnswerFollowsCompletion` | src/api/mutations.ts:337-399 | For a request that created its receipt: the handler's answer goes out only after the receipt completed or an abort finalised, and completion follows the final audit. |
| `Mutations.StepKeepsInv` | src/api/mutations.ts:256-399 | Every step keeps the relation between the phases of handler, abort and send and the receipt. |
| `Mutations.RewritesOnlyOpen` | src/storage/operationStore.ts:281-348 | No step rewrites a settled receipt, and a settled one never becomes open again. |
| `BrowserSessions.TokenMatchIsExact` | src/api/browserSecurity.ts:263-268 | Comparing decoded token bytes accepts exactly the issued token. |
| `BrowserSessions.BoundExactlyWhen` | src/api/browserSecurity.ts:114-139 | In a well-formed table, as every reachable one is: a request is bound to a session exactly when it is a local browser's with good headers and the one cookie of a session live at the check; an unsafe one needs that session's own CSRF token too. |
| `BrowserSessions.PassesAsItCameExactlyWhen` | src/api/browserSecurity.ts:96-134 | A request passes unbound exactly with an upstream context about it that is safe or validated, forwarded without a browser's mark, not from a local browser, or as a local browser's safe request without a live session. |
| `BrowserSessions.RefusedExactlyWhen` | src/api/browserSecurity.ts:96-139 | Every other unbound request is refused, and each refusal has its one cause: above all an unsafe local browser request without a live session, or without that session's CSRF token. |
| `BrowserSessions.TableAfterAuthentication` | src/api/browserSecurity.ts:225-252 | Nothing but the bound session is refreshed, nothing but an expired one the request names is removed. |
| `BrowserSessions.EstablishesExactlyWhen` | src/api/browserSecurity.ts:141-156 | Establishing answers with the live session named, refreshed; else with a new one exactly when there is room after pruning; with bad headers not at all. |
| `BrowserSessions.CurrentExactlyWhen` | src/api/browserSecurity.ts:178-189 | A principal is current exactly when it is no local browser's, or of this launch with a live session. |
| `BrowserSessions.BrowserSecurity.Authenticate` | src/api/browserSecurity.ts:96-139 | Authentication does its step and keeps the table well formed; an unsafe request of a local browser succeeds only with the one cookie of a live session and that session's CSRF token. |
| `BrowserSessions.BrowserSecurity.Establish` | src/api/browserSecurity.ts:141-156 | Establishing reuses the live session or creates one after pruning, within capacity. |
| `BrowserSessions.BrowserSecurity.PruneExpired` | src/api/browserSecurity.ts:254-261 | The loop leaves exactly the sessions not expired. |
| `BrowserSessions.BrowserSecurity.CreateSession` | src/api/browserSecurity.ts:206-223 | Creation prunes, refuses at 1,024 and without well-formed tokens, and otherwise adds the one session with its two limits. |
| `BrowserSessions.BrowserSecurity.CurrentSession` | src/api/browserSecurity.ts:225-236 | Finds the session exactly when its identifier is the only cookie and it is live; exactly an expired one so named is removed, and every other stays as it was. |
| `BrowserSessions.BrowserSecurity.IsPrincipalCurrent` | src/api/browserSecurity.ts:178-189 | A principal that is no local browser's is always current; a local browser's exactly when it was made by this launch and its session is live. An expired one is removed. |
| `BrowserSessions.RevivedExactlyWhenIdleRunsOutInBetween` | src/api/browserSecurity.ts:225-252 | A refresh revives a session exactly when its idle limit passed between the two clock readings and its absolute one did not. |
| `BrowserSessions.RevivalWitness` | src/api/browserSecurity.ts:111-132 | Such a revival: checked one millisecond before the idle limit, refreshed at it. |
| `BrowserSessionRuns.TableStaysWellFormed` | src/api/browserSecurity.ts:206-252 | In every run the table holds at most 1,024 sessions under well-formed tokens, and idle expiry never exceeds absolute expiry, eight hours after creation. |
| `BrowserSessionRuns.ExpiredNeverReturns` | src/api/browserSecurity.ts:178-256 | With a clock that never goes back and fresh identifiers, a session expired at the end of an event is never used again. |
| `BrowserSessionRuns.SessionsAreTraced` | src/api/browserSecurity.ts:206-252 | Every session in the table goes back to one making and one last use, and its limits are theirs. |
| `BrowserSessionRuns.UsedWithinLimits` | src/api/browserSecurity.ts:225-252 | A session is used again only within eight hours of its making and thirty minutes of its previous use. |
| `Crc32.CrcTable` | scripts/life-benchmark/fakeServer.ts:328-332 | The table holds eight register shifts of every byte. |
| `Crc32.TableStep` | scripts/life-benchmark/fakeServer.ts:335 | One table look-up takes a byte in exactly as eight single-bit steps do. |
| `Crc32.TableCrc` | scripts/life-benchmark/fakeServer.ts:333-337 | For every byte sequence the table-driven loop gives the bit-at-a-time reflected CRC-32 of section 3.4 of RFC 2083. |
| `Crc32.ShiftDistributes` | scripts/life-benchmark/fakeServer.ts:330 | The register step is linear over exclusive or. |
| `Crc32.ChangedByteIsDetected` | scripts/life-benchmark/fakeServer.ts:333-337 | Changing any one byte anywhere always changes the CRC. |
| `Paragraphs.JoinOfSplit` | scripts/life-benchmark/variants.ts:133-167 | Splitting at blank lines and joining again gives the text back. |
| `Paragraphs.SplitOfJoin` | scripts/life-benchmark/variants.ts:133-167 | Paragraphs without blank lines and without a line end at their end are found again after joining. |
| `Paragraphs.OpenTagIsPrefix` | scripts/life-benchmark/variants.ts:117 | The opening tag found is the one the paragraph starts with. |
| `Paragraphs.CloseTagIsSuffix` | scripts/life-benchmark/variants.ts:118 | The closing tag found is the one the paragraph ends with. |
| `Sections.RemoveKeepsSections` | scripts/life-benchmark/variants.ts:142-151 | Removing a paragraph keeps the sections flat and balanced; a section goes only with its one paragraph. |
| `Sections.AddKeepsSections` | scripts/life-benchmark/variants.ts:152-164 | A new paragraph joins the section of the one it follows. |
| `Sections.ReplaceKeepsSections` | scripts/life-benchmark/variants.ts:136-141 | A replacement keeps the paragraph's tags. |
| `Sections.EditedBodies` | scripts/life-benchmark/variants.ts:136-164 | Each edit changes exactly one body: replaced, inserted after, or removed. |
| `VariantEdits.FindParagraph` | scripts/life-benchmark/variants.ts:123-128 | The paragraph found is the only one that contains the quoted text. |
| `VariantEdits.FindsExactlyWhen` | scripts/life-benchmark/variants.ts:123-128 | A paragraph is found exactly when it and no other contains the text; none is reported exactly when none does. |
| `VariantEdits.TrimTakesSpaceOff` | scripts/life-benchmark/variants.ts:139 | Trimming takes white space off both ends and nothing else. |
| `VariantEdits.ApplyVariant` | scripts/life-benchmark/variants.ts:131-172 | The loop applies the edits in order to the split text, or stops with the first error. |
| `VariantEdits.EditIsOnPieces` | scripts/life-benchmark/variants.ts:136-164 | On valid sections the string edit is the edit of the sections. |
| `VariantEdits.VariantKeepsSections` | scripts/life-benchmark/variants.ts:131-172 | Any list of tag-free edits that apply, their texts blank or of several paragraphs too, gives again flat, balanced sections, the same names in the same order less those that lost their only paragraph. Unless nothing is left, the text splits into just those sections' paragraphs exactly when no paragraph opens a section without any text. |
| `Sections.JoinedSplitsAgain` | scripts/life-benchmark/variants.ts:133-167 | Flat sections joined to one text split into their own paragraphs again exactly when every paragraph that opens a section has text. |
| `VariantEdits.TextEverywhereStays` | scripts/life-benchmark/variants.ts:136-164 | What can be checked beforehand: with text in every paragraph and in every edit, no paragraph that opens a section is ever left without. |
| `VariantEdits.BlankThenRemoveBreaks` | scripts/life-benchmark/variants.ts:136-151 | In any flat sections: blanking the paragraph after a lone opener and then removing the opener leaves a text that splits otherwise. |
| `VariantEdits.EditsKeepBodies` | scripts/life-benchmark/variants.ts:136-164 | Every paragraph text afterwards is one from before or an edit's. |
| `VariantEdits.UntargetedKeepsText` | scripts/life-benchmark/variants.ts:123-164 | Followed through any list of edits that apply, a paragraph no replacement and no removal hits is still there, with its text. |
| `VariantEdits.UntargetedKeepOrder` | scripts/life-benchmark/variants.ts:136-164 | Paragraphs not hit keep their order. |
| `VariantEdits.UntargetedIsMissed` | scripts/life-benchmark/variants.ts:123-128 | A paragraph whose text no edit quotes, under any of the sections' own tags, is hit by none. |
| `VariantEdits.OthersAreReplacedAndRemoved` | scripts/life-benchmark/variants.ts:123-164 | An instance: one paragraph replaced, one removed, and the third untargeted by both. |
| `VariantEdits.ReplacementSplitsAgain` | scripts/life-benchmark/variants.ts:136-141 | Where every paragraph has text, a tag-free replacement leaves the paragraphs intact exactly unless it is only white space and the paragraph opens a section. |
| `Calibration.ParseAnswers` | scripts/decision-benchmark/core.ts:40-70 | Succeeds exactly when every question's own answer parses, and returns just those answers, each a known choice near the maximum of probabilities in range that sum to one within 0.015; otherwise the first bad answer's error. |
| `Calibration.ParsesExactlyWhen` | scripts/decision-benchmark/core.ts:52-68 | One answer parses exactly when its choice is an option and, but for chat models, its rows give exactly the options probabilities in range, summing to about one, the choice within the tolerance of the largest; OpenAI rows must be distinct. |
| `Calibration.ParseErrors` | scripts/decision-benchmark/core.ts:51-67 | Each parse error means what it says. |
| `Calibration.AnsweredByItsEntry` | scripts/decision-benchmark/core.ts:45-51 | A question is answered by its own entry of the payload alone. |
| `Calibration.EveryAnswerIsJudged` | scripts/decision-benchmark/core.ts:98-103 | The judgments are exactly the answers of every question of the requests that parsed, each with its own options and expectation. |
| `Calibration.CalibratedIsSound` | scripts/decision-benchmark/core.ts:98-104 | Every calibrated judgment made of accepted answers has a choice among its options and valid probabilities for them. |
| `Calibration.BinsPartition` | scripts/decision-benchmark/core.ts:106-108 | The ten bins partition the judgments: sizes and gaps add up. |
| `Calibration.BinHolds` | scripts/decision-benchmark/core.ts:107 | Each bin holds exactly the ratings of its tenth, the last one full confidence too. |
| `Calibration.Ece` | scripts/decision-benchmark/core.ts:104-111 | The error is at least the distance of overall accuracy from mean confidence, and at most one. |
| `Calibration.Summarize` | scripts/decision-benchmark/core.ts:98-124 | For any payloads that came back: both figures, over the calibrated judgments of the accepted answers, exist exactly when there is something to rate and are within these bounds. |
| `Calibration.NextBrier` | scripts/decision-benchmark/core.ts:113-123 | The mean Brier score of sound judgments is between 0 and 1 + 1.015 squared, and there is none exactly when there are none. |
| `Calibration.BrierBound` | scripts/decision-benchmark/core.ts:123 | One judgment's score is at most one plus the square of its probabilities' sum. |
| `Calibration.BrierInClosedForm` | scripts/decision-benchmark/core.ts:123 | One judgment's score is the sum of its squared probabilities, plus one less twice the expected option's. |

## Left out

- Ed25519, HMAC, SHA-256, HKDF, ChaCha20-Poly1305, canonical JSON, canonical CBOR and the zod schemas: parameters of the model, as results a call may give; their own definitions are not part of this model.
- `SigningInputs.EncodeInjective`: the activation certificate's CBOR map and the payload's JSON enter as bytes, so the lemma covers everything around them.
- `NonceWindows.NonceWindow.Snapshot`: the source's `localeCompare` order of the lines; the model writes them in any order, and every order restores the same window.
- Decimal text of uint64 fields (timestamps, generations, epochs): held as integers with their bounds.
- `EndpointCandidates.ValidateGeneration`: the identity string is a tuple of the four fields it joins.
- Reserving, completing and marking in the operation store: modelled for the one request's receipt; expiry, capacity and the ledger's other receipts are not.
- `EventStreams.EventStream.Subscribe`: a `snapshot` callback that itself publishes, and callbacks that reach back into the stream, are not modelled; subscribers are values in a map, one step of their promise chain at a time.
- `Drivers.Driver.Run`: application work left running after the awaited call returned; every sleep happens inside some awaited call.
- Checkpoint contents, transcripts, metrics and probes of the driver: only which checkpoints are taken, and when.
- The probe and fact checks and the duplicate person checks of `checkScenario`, and time zones: event times are given milliseconds.
- HTTP, SSE and WebSocket plumbing, header and cookie parsing, and `refreshResponseCookie`: a request carries its parsed cookies and what its headers amount to.
- `applyToolEdits` and the summary texts: edits without tags, split at single line ends, would only add easy members.
- `Calibration.Ece`: exact reals; floating-point rounding is not modelled. The same holds for `Calibration.NextBrier` and `Calibration.Summarize`.
- `Calibration.ParseAnswers`: the refusal of a payload that is no object at all; answers come as a map of parsed objects.
- Percentiles, costs and per-group tables of the decision benchmark: would only add easy members.
- PNG chunks around the CRC, and the rest of the fake Discord server: glue.
- The fixture generators (`*Contract.ts`) and `wipcContract.ts`: concrete vectors only.
