/** Receiving endpoint envelopes: prepare, apply, and the durable snapshot between them. */
module EndpointReceive {
  import opened Results
  import opened ByteStrings
  import opened EndpointCandidates
  import EndpointContexts

  const CIPHERTEXT_MAX_BYTES := 1200
  const PLAINTEXT_MAX_BYTES := 1184
  const TAG_BYTES := 16

  /** SHA-256, ChaCha20-Poly1305 opening (key, nonce, associated data, ciphertext) and the CBOR decoder. */
  datatype Library = Library(
    sha256: Bytes -> Bytes,
    open: (Bytes, Bytes, Bytes, Bytes) -> Option<Bytes>,
    cbor: Bytes -> Result<Generation, ErrorCode>)

  ghost predicate HashIs32(lib: Library) {
    forall bytes :: |lib.sha256(bytes)| == 32
  }

  predicate Collide(lib: Library, a: Bytes, b: Bytes) {
    a != b && lib.sha256(a) == lib.sha256(b)
  }

  datatype Envelope = Envelope(
    hostToRemoteKey: Bytes, remoteToHostKey: Bytes, context: EndpointContexts.Context, ciphertext: Bytes, approved: bool)

  function Nonce(epoch: int): Bytes
    requires 0 <= epoch <= UINT64_MAX
  {
    [0, 0, 0, 0] + UInt64(epoch)
  }

  function OpenAead(lib: Library, key: Bytes, nonce: Bytes, associatedData: Bytes, ciphertext: Bytes): Result<Bytes, ErrorCode> {
    if |ciphertext| > CIPHERTEXT_MAX_BYTES then Err(CiphertextTooLarge)
    else if |ciphertext| < TAG_BYTES then Err(AeadAuthenticationFailed)
    else
      match lib.open(key, nonce, associatedData, ciphertext)
      case None => Err(AeadAuthenticationFailed)
      case Some(plaintext) => Ok(plaintext)
  }

  function DecodePlaintext(lib: Library, plaintext: Bytes): Result<Generation, ErrorCode> {
    if |plaintext| > PLAINTEXT_MAX_BYTES then Err(PlaintextTooLarge)
    else
      var decoded :- lib.cbor(plaintext);
      Validate(decoded)
  }

  function Decrypt(lib: Library, e: Envelope): Result<Generation, ErrorCode> {
    if !e.approved then Err(UnapprovedSender)
    else
      match EndpointContexts.Encode(e.context)
      case None => Err(InvalidContext)
      case Some(associatedData) =>
        var key := if e.context.senderRole == 1 then e.hostToRemoteKey else e.remoteToHostKey;
        if |key| != 32 then Err(OutOfRange)
        else
          var plaintext :- OpenAead(lib, key, Nonce(e.context.endpointEpoch), associatedData, e.ciphertext);
          var value :- DecodePlaintext(lib, plaintext);
          if value.endpointEpoch != e.context.endpointEpoch then Err(EpochMismatch) else Ok(value)
  }

  // ---- the durable snapshot ------------------------------------------------------------------------

  datatype Phase = Empty | Prepared | Applied | UnknownPhase(text: string)

  datatype Snapshot = Snapshot(
    version: int, phase: Phase, endpointEpoch: Option<int>, ciphertextSha256: Option<Bytes>,
    ciphertext: Option<Bytes>, value: Option<Generation>)

  const EMPTY: Snapshot := Snapshot(1, Empty, None, None, None, None)

  function ValidateSnapshot(lib: Library, s: Snapshot): Result<Snapshot, ErrorCode> {
    if s.version != 1 || s.phase.UnknownPhase? then Err(InvalidSnapshot)
    else if s.phase == Empty then
      if s.endpointEpoch.Some? || s.ciphertextSha256.Some? || s.ciphertext.Some? || s.value.Some? then Err(InvalidSnapshot)
      else Ok(s)
    else if s.endpointEpoch.None? || s.ciphertextSha256.None? || s.ciphertext.None? || s.value.None? then Err(InvalidSnapshot)
    else if !(0 <= s.endpointEpoch.value <= UINT64_MAX) then Err(OutOfRange)
    else if |s.ciphertextSha256.value| != 32 then Err(OutOfRange)
    else if |s.ciphertext.value| > CIPHERTEXT_MAX_BYTES then Err(InvalidSnapshot)
    else
      var parsed :- Validate(s.value.value);
      if parsed.endpointEpoch != s.endpointEpoch.value then Err(InvalidSnapshot)
      else if lib.sha256(s.ciphertext.value) != s.ciphertextSha256.value then Err(InvalidSnapshot)
      else Ok(s.(value := Some(parsed)))
  }

  predicate Holds(s: Snapshot) {
    && s.phase in {Prepared, Applied}
    && s.endpointEpoch.Some? && s.ciphertextSha256.Some? && s.ciphertext.Some? && s.value.Some?
  }

  /** What every stored snapshot is: empty, or complete and consistent with itself. */
  predicate Durable(lib: Library, s: Snapshot) {
    s == EMPTY || (s.version == 1 && Holds(s) && Coherent(lib, s.endpointEpoch.value, s.ciphertextSha256.value,
                                                            s.ciphertext.value, s.value.value))
  }

  /** An acceptable value of this very epoch, beside the ciphertext it came in and that ciphertext's hash. */
  predicate Coherent(lib: Library, epoch: int, hash: Bytes, ciphertext: Bytes, value: Generation) {
    && 0 <= epoch <= UINT64_MAX && value.endpointEpoch == epoch && Acceptable(value)
    && |hash| == 32 && |ciphertext| <= CIPHERTEXT_MAX_BYTES && lib.sha256(ciphertext) == hash
  }

  /** A snapshot that reads back is exactly the stored one, and stored ones always read back. */
  lemma SnapshotReadsBack(lib: Library, s: Snapshot)
    ensures ValidateSnapshot(lib, s).Ok? <==> Durable(lib, s)
    ensures ValidateSnapshot(lib, s).Ok? ==> ValidateSnapshot(lib, s).value == s
  {
    if s.value.Some? {
      ValidateAccepts(s.value.value);
    }
  }

  // ---- prepare and apply ---------------------------------------------------------------------------

  datatype Status = NewlyPrepared | ResumePrepared | AlreadyApplied

  datatype Receipt = Receipt(status: Status, value: Generation, ciphertextSha256: Bytes)

  datatype PrepareStep = PrepareStep(current: Snapshot, result: Result<Receipt, ErrorCode>)

  function Fresh(lib: Library, e: Envelope, value: Generation): Snapshot {
    Snapshot(1, Prepared, Some(e.context.endpointEpoch), Some(lib.sha256(e.ciphertext)), Some(e.ciphertext), Some(value))
  }

  function PrepareNew(lib: Library, s: Snapshot, e: Envelope): PrepareStep {
    match Decrypt(lib, e)
    case Err(code) => PrepareStep(s, Err(code))
    case Ok(value) =>
      match ValidateSnapshot(lib, Fresh(lib, e, value))
      case Err(code) => PrepareStep(s, Err(code))
      case Ok(stored) => PrepareStep(stored, Ok(Receipt(NewlyPrepared, value, lib.sha256(e.ciphertext))))
  }

  function Redeliver(lib: Library, s: Snapshot, e: Envelope): Result<Receipt, ErrorCode>
    requires Holds(s)
  {
    if lib.sha256(e.ciphertext) != s.ciphertextSha256.value then Err(EpochConflict)
    else
      var _ :- Decrypt(lib, e);
      Ok(Receipt(if s.phase == Prepared then ResumePrepared else AlreadyApplied, s.value.value, lib.sha256(e.ciphertext)))
  }

  function EndpointPrepare(lib: Library, s: Snapshot, e: Envelope): PrepareStep
    requires s == EMPTY || Holds(s)
  {
    if !e.approved then PrepareStep(s, Err(UnapprovedSender))
    else if !EndpointContexts.Valid(e.context) then PrepareStep(s, Err(InvalidContext))
    else if s == EMPTY then
      if e.context.endpointEpoch != 1 then PrepareStep(s, Err(InvalidInitialEpoch)) else PrepareNew(lib, s, e)
    else if e.context.endpointEpoch < s.endpointEpoch.value then PrepareStep(s, Err(EpochRollback))
    else if e.context.endpointEpoch == s.endpointEpoch.value then PrepareStep(s, Redeliver(lib, s, e))
    else PrepareNew(lib, s, e)
  }

  datatype ApplyStep = ApplyStep(current: Snapshot, result: Result<(), ErrorCode>)

  function EndpointApply(s: Snapshot, epoch: int, hash: Bytes): ApplyStep
    requires s == EMPTY || Holds(s)
  {
    if s.phase != Prepared then ApplyStep(s, Err(NoPreparedEndpoint))
    else if epoch != s.endpointEpoch.value then ApplyStep(s, Err(EpochConflict))
    else if |hash| != 32 then ApplyStep(s, Err(OutOfRange))
    else if hash != s.ciphertextSha256.value then ApplyStep(s, Err(EpochConflict))
    else ApplyStep(s.(phase := Applied), Ok(()))
  }

  /**
   * Decryption succeeds exactly for an approved envelope in a valid context, with a 32-byte key and a ciphertext of
   * 16 to 1,200 bytes, that opens to at most 1,184 bytes of an acceptable value of the context's own epoch.
   */
  lemma DecryptsExactlyWhen(lib: Library, e: Envelope, value: Generation)
    ensures var key := if e.context.senderRole == 1 then e.hostToRemoteKey else e.remoteToHostKey;
      Decrypt(lib, e) == Ok(value) <==>
        && e.approved && EndpointContexts.Valid(e.context) && |key| == 32
        && TAG_BYTES <= |e.ciphertext| <= CIPHERTEXT_MAX_BYTES
        && var plain :=
             lib.open(key, Nonce(e.context.endpointEpoch), EndpointContexts.Encode(e.context).value, e.ciphertext);
           && plain.Some? && |plain.value| <= PLAINTEXT_MAX_BYTES
           && lib.cbor(plain.value) == Ok(value) && Acceptable(value)
           && value.endpointEpoch == e.context.endpointEpoch
  {
    if e.approved && EndpointContexts.Valid(e.context) {
      var key := if e.context.senderRole == 1 then e.hostToRemoteKey else e.remoteToHostKey;
      var plain := lib.open(key, Nonce(e.context.endpointEpoch), EndpointContexts.Encode(e.context).value, e.ciphertext);
      if plain.Some? && lib.cbor(plain.value).Ok? {
        ValidateAccepts(lib.cbor(plain.value).value);
      }
    }
  }

  /** The record an envelope leaves behind: its epoch, its ciphertext with the hash of it, its value, waiting to be applied. */
  predicate HoldsPrepared(lib: Library, s: Snapshot, e: Envelope, value: Generation) {
    && s.version == 1 && s.phase == Prepared && s.endpointEpoch == Some(e.context.endpointEpoch)
    && s.ciphertext == Some(e.ciphertext) && s.ciphertextSha256 == Some(lib.sha256(e.ciphertext)) && s.value == Some(value)
  }

  /** An epoch to prepare anew: the first one, or one above the stored. */
  predicate IsNewEpoch(s: Snapshot, epoch: int) {
    if s.endpointEpoch.None? then epoch == 1 else epoch > s.endpointEpoch.value
  }

  /** The stored envelope once more. */
  predicate IsRedelivery(lib: Library, s: Snapshot, e: Envelope) {
    s.endpointEpoch == Some(e.context.endpointEpoch) && s.ciphertextSha256 == Some(lib.sha256(e.ciphertext))
  }

  predicate Answers(lib: Library, s: Snapshot, e: Envelope, step: PrepareStep, decrypted: Result<Generation, ErrorCode>) {
    && (step.result.Ok? <==> decrypted.Ok? && (IsNewEpoch(s, e.context.endpointEpoch) || IsRedelivery(lib, s, e)))
    && (step.result.Ok? && IsNewEpoch(s, e.context.endpointEpoch) ==>
      && HoldsPrepared(lib, step.current, e, decrypted.value)
      && step.result.value == Receipt(NewlyPrepared, decrypted.value, lib.sha256(e.ciphertext)))
    && (step.result.Err? || !IsNewEpoch(s, e.context.endpointEpoch) ==> step.current == s)
  }

  /**
   * An envelope that decrypts is answered exactly when its epoch is the first, or above the stored one, or its bytes
   * are the stored ones; in the first two cases it is stored as prepared, otherwise nothing changes.
   */
  lemma PreparesExactlyWhen(lib: Library, s: Snapshot, e: Envelope)
    requires HashIs32(lib) && Durable(lib, s)
    ensures Answers(lib, s, e, EndpointPrepare(lib, s, e), Decrypt(lib, e))
  {
    if Decrypt(lib, e).Ok? {
      SnapshotCheckNeverFails(lib, e);
      DecryptedIsAcceptable(lib, e);
    }
  }

  /** Why an envelope is refused before it is opened: for its sender or context, or then by its epoch alone. */
  lemma RefusedUnopened(lib: Library, s: Snapshot, e: Envelope)
    requires Durable(lib, s)
    ensures var epoch, result := e.context.endpointEpoch, EndpointPrepare(lib, s, e).result;
      if !e.approved then result == Err(UnapprovedSender)
      else if !EndpointContexts.Valid(e.context) then result == Err(InvalidContext)
      else
        && (s == EMPTY && epoch != 1 ==> result == Err(InvalidInitialEpoch))
        && (s != EMPTY && epoch < s.endpointEpoch.value ==> result == Err(EpochRollback))
        && (s != EMPTY && epoch == s.endpointEpoch.value && lib.sha256(e.ciphertext) != s.ciphertextSha256.value ==>
          result == Err(EpochConflict))
  {
  }

  /** After a successful decryption the snapshot check that follows cannot fail. */
  lemma SnapshotCheckNeverFails(lib: Library, e: Envelope)
    requires HashIs32(lib) && Decrypt(lib, e).Ok?
    ensures ValidateSnapshot(lib, Fresh(lib, e, Decrypt(lib, e).value)) == Ok(Fresh(lib, e, Decrypt(lib, e).value))
  {
    DecryptedIsAcceptable(lib, e);
    ValidateAccepts(Decrypt(lib, e).value);
  }

  lemma DecryptedIsAcceptable(lib: Library, e: Envelope)
    requires Decrypt(lib, e).Ok?
    ensures EndpointContexts.Valid(e.context) && e.approved
    ensures TAG_BYTES <= |e.ciphertext| <= CIPHERTEXT_MAX_BYTES
    ensures Acceptable(Decrypt(lib, e).value) && Decrypt(lib, e).value.endpointEpoch == e.context.endpointEpoch
  {
    var associatedData := EndpointContexts.Encode(e.context).value;
    var key := if e.context.senderRole == 1 then e.hostToRemoteKey else e.remoteToHostKey;
    var plaintext := OpenAead(lib, key, Nonce(e.context.endpointEpoch), associatedData, e.ciphertext).value;
    ValidateAccepts(lib.cbor(plaintext).value);
  }

  /**
   * What decrypts was sealed for its context: under the sender's direction key and the epoch's nonce, the
   * ciphertext opens with this context's associated data, and no other valid context has that data.
   */
  lemma DecryptedInItsContext(lib: Library, e: Envelope, other: EndpointContexts.Context)
    requires Decrypt(lib, e).Ok?
    ensures lib.open(if e.context.senderRole == 1 then e.hostToRemoteKey else e.remoteToHostKey, Nonce(e.context.endpointEpoch),
                     EndpointContexts.Encode(e.context).value, e.ciphertext).Some?
    ensures EndpointContexts.Encode(other) == EndpointContexts.Encode(e.context) ==> other == e.context
  {
    DecryptedIsAcceptable(lib, e);
    if EndpointContexts.Encode(other) == EndpointContexts.Encode(e.context) {
      EndpointContexts.EncodeInjective(other, e.context);
    }
  }

  lemma PrepareKeepsDurable(lib: Library, s: Snapshot, e: Envelope)
    requires Durable(lib, s)
    ensures Durable(lib, EndpointPrepare(lib, s, e).current)
  {
    if Decrypt(lib, e).Ok? {
      SnapshotReadsBack(lib, Fresh(lib, e, Decrypt(lib, e).value));
    }
  }

  class EndpointReceiveState {
    const lib: Library
    var current: Snapshot

    ghost predicate Valid()
      reads this
    {
      Durable(lib, current)
    }

    constructor (lib: Library)
      ensures this.lib == lib && current == EMPTY && Valid()
    {
      this.lib := lib;
      current := EMPTY;
    }

    /** A restart: takes over exactly the snapshot it is given, or refuses it. */
    static method Restore(lib: Library, snapshot: Snapshot) returns (r: Result<EndpointReceiveState, ErrorCode>)
      ensures r.Ok? <==> Durable(lib, snapshot)
      ensures r.Ok? ==> fresh(r.value) && r.value.lib == lib && r.value.current == snapshot && r.value.Valid()
    {
      SnapshotReadsBack(lib, snapshot);
      var checked := ValidateSnapshot(lib, snapshot);
      if checked.Err? {
        return Err(checked.error);
      }
      var state := new EndpointReceiveState(lib);
      state.current := checked.value;
      return Ok(state);
    }

    method TakeSnapshot() returns (snapshot: Snapshot)
      requires Valid()
      ensures snapshot == current && ValidateSnapshot(lib, snapshot) == Ok(snapshot)
    {
      SnapshotReadsBack(lib, current);
      snapshot := current;
    }

    method Prepare(e: Envelope) returns (r: Result<Receipt, ErrorCode>)
      requires Valid()
      modifies this
      ensures Valid()
      ensures PrepareStep(current, r) == EndpointPrepare(lib, old(current), e)
      ensures HashIs32(lib) ==> Answers(lib, old(current), e, PrepareStep(current, r), Decrypt(lib, e))
    {
      PrepareKeepsDurable(lib, current, e);
      if HashIs32(lib) {
        PreparesExactlyWhen(lib, current, e);
      }
      if !e.approved {
        return Err(UnapprovedSender);
      }
      if !EndpointContexts.Valid(e.context) {
        return Err(InvalidContext);
      }
      var hash := lib.sha256(e.ciphertext);
      if current.phase == Empty {
        if e.context.endpointEpoch != 1 {
          return Err(InvalidInitialEpoch);
        }
      } else {
        if e.context.endpointEpoch < current.endpointEpoch.value {
          return Err(EpochRollback);
        }
        if e.context.endpointEpoch == current.endpointEpoch.value {
          if hash != current.ciphertextSha256.value {
            return Err(EpochConflict);
          }
          var _ :- Decrypt(lib, e);
          var status := if current.phase == Prepared then ResumePrepared else AlreadyApplied;
          return Ok(Receipt(status, current.value.value, hash));
        }
      }
      var value :- Decrypt(lib, e);
      current :- ValidateSnapshot(lib, Fresh(lib, e, value));
      return Ok(Receipt(NewlyPrepared, value, hash));
    }

    method MarkApplied(epoch: int, hash: Bytes) returns (r: Result<(), ErrorCode>)
      requires Valid()
      modifies this
      ensures Valid()
      ensures ApplyStep(current, r) == EndpointApply(old(current), epoch, hash)
    {
      if current.phase != Prepared {
        return Err(NoPreparedEndpoint);
      }
      if epoch != current.endpointEpoch.value {
        return Err(EpochConflict);
      }
      if |hash| != 32 {
        return Err(OutOfRange);
      }
      if hash != current.ciphertextSha256.value {
        return Err(EpochConflict);
      }
      current := current.(phase := Applied);
      return Ok(());
    }
  }
}

/** Whole runs of a receiver: deliveries of any envelopes, apply receipts, and restarts from the snapshot. */
module EndpointRuns {
  import opened Results
  import opened ByteStrings
  import opened EndpointCandidates
  import opened EndpointReceive
  import EndpointContexts

  datatype Action = Deliver(envelope: Envelope) | Apply(epoch: int, hash: Bytes) | Restart

  /** A delivery that was answered with a receipt. */
  datatype Entry = Entry(epoch: int, ciphertext: Bytes, receipt: Receipt)

  datatype Receiver = Receiver(current: Snapshot, answered: seq<Entry>, applied: seq<(int, Bytes)>)

  const START: Receiver := Receiver(EMPTY, [], [])

  function Next(lib: Library, r: Receiver, action: Action): Receiver
    requires Durable(lib, r.current)
  {
    match action
    case Deliver(e) =>
      var step := EndpointPrepare(lib, r.current, e);
      Receiver(step.current,
               if step.result.Ok? then r.answered + [Entry(e.context.endpointEpoch, e.ciphertext, step.result.value)]
               else r.answered,
               r.applied)
    case Apply(epoch, hash) =>
      var step := EndpointApply(r.current, epoch, hash);
      Receiver(step.current, r.answered, if step.result.Ok? then r.applied + [(epoch, hash)] else r.applied)
    case Restart =>
      SnapshotReadsBack(lib, r.current);
      r.(current := ValidateSnapshot(lib, r.current).value)
  }

  lemma NextKeepsDurable(lib: Library, r: Receiver, action: Action)
    requires Durable(lib, r.current)
    ensures Durable(lib, Next(lib, r, action).current)
  {
    SnapshotReadsBack(lib, r.current);
    match action
    case Deliver(e) => PrepareKeepsDurable(lib, r.current, e);
    case Apply(_, _) =>
    case Restart =>
  }

  function Run(lib: Library, r: Receiver, actions: seq<Action>): (end: Receiver)
    requires Durable(lib, r.current)
    ensures Durable(lib, end.current)
    decreases |actions|
  {
    if actions == [] then r
    else
      NextKeepsDurable(lib, r, actions[0]);
      Run(lib, Next(lib, r, actions[0]), actions[1..])
  }

  function EpochOf(s: Snapshot): int {
    if s.endpointEpoch.Some? then s.endpointEpoch.value else 0
  }

  function Rank(s: Snapshot): int {
    if s.phase == Applied then 1 else 0
  }

  /** What was stored only moves forward: to a later epoch, or from prepared to applied within one. */
  predicate Forward(before: Snapshot, after: Snapshot) {
    || EpochOf(before) < EpochOf(after)
    || (EpochOf(before) == EpochOf(after) && Rank(before) <= Rank(after)
        && before.ciphertextSha256 == after.ciphertextSha256
        && before.ciphertext == after.ciphertext && before.value == after.value)
  }

  lemma StepForward(lib: Library, r: Receiver, action: Action)
    requires HashIs32(lib) && Durable(lib, r.current)
    ensures Forward(r.current, Next(lib, r, action).current)
    ensures action.Restart? ==> Next(lib, r, action) == r
  {
    SnapshotReadsBack(lib, r.current);
    match action
    case Deliver(e) => DeliverForward(lib, r.current, e);
    case Apply(_, _) =>
    case Restart =>
  }

  lemma DeliverForward(lib: Library, s: Snapshot, e: Envelope)
    requires HashIs32(lib) && Durable(lib, s)
    ensures Forward(s, EndpointPrepare(lib, s, e).current)
  {
    PrepareNewOutcome(lib, s, e);
  }

  /** The receive high-water mark and the phase never go back, over any run with any restarts. */
  lemma {:induction false} RunForward(lib: Library, r: Receiver, actions: seq<Action>)
    requires HashIs32(lib) && Durable(lib, r.current)
    ensures Forward(r.current, Run(lib, r, actions).current)
    decreases |actions|
  {
    if actions != [] {
      StepForward(lib, r, actions[0]);
      NextKeepsDurable(lib, r, actions[0]);
      RunForward(lib, Next(lib, r, actions[0]), actions[1..]);
    }
  }

  /** An answered delivery agrees with what is stored now for its epoch. */
  predicate Agrees(s: Snapshot, entry: Entry) {
    && 1 <= entry.epoch <= EpochOf(s)
    && (entry.epoch == EpochOf(s) ==>
      s.ciphertextSha256 == Some(entry.receipt.ciphertextSha256) && s.value == Some(entry.receipt.value)
      && (entry.receipt.status == AlreadyApplied ==> s.phase == Applied))
  }

  /** Same epoch: same hash, same value, and only the first answer is a new preparation. Epochs never go back. */
  predicate Consistent(earlier: Entry, later: Entry) {
    && earlier.epoch <= later.epoch
    && (earlier.epoch == later.epoch ==>
      && earlier.receipt.ciphertextSha256 == later.receipt.ciphertextSha256
      && earlier.receipt.value == later.receipt.value
      && later.receipt.status != NewlyPrepared)
  }

  ghost predicate Inv(lib: Library, r: Receiver) {
    && Durable(lib, r.current)
    && (r.current == EMPTY <==> r.answered == [])
    && (forall i | 0 <= i < |r.answered| :: Agrees(r.current, r.answered[i]))
    && (forall i | 0 <= i < |r.answered| :: r.answered[i].receipt.ciphertextSha256 == lib.sha256(r.answered[i].ciphertext))
    && (forall i, j | 0 <= i < j < |r.answered| :: Consistent(r.answered[i], r.answered[j]))
    && (r.answered != [] ==> r.answered[0].epoch == 1 && r.answered[0].receipt.status == NewlyPrepared)
    && (forall a | a in r.applied :: exists i :: 0 <= i < |r.answered| && PreparedAs(r.answered[i], a))
  }

  predicate PreparedAs(entry: Entry, applied: (int, Bytes)) {
    entry.epoch == applied.0 && entry.receipt.ciphertextSha256 == applied.1
  }

  /** The stored record is the answer to some delivery. */
  ghost predicate StoredWasAnswered(r: Receiver) {
    Holds(r.current) ==>
      exists i :: 0 <= i < |r.answered| && PreparedAs(r.answered[i], (EpochOf(r.current), r.current.ciphertextSha256.value))
  }

  /** A delivery answered with a receipt: its entry is the stored record's, new for a later epoch, the old one for the same. */
  lemma DeliverOutcome(lib: Library, s: Snapshot, e: Envelope)
    requires HashIs32(lib) && Durable(lib, s)
    ensures var step := EndpointPrepare(lib, s, e);
      && (step.result.Err? ==> step.current == s)
      && (step.result.Ok? ==>
        var entry := Entry(e.context.endpointEpoch, e.ciphertext, step.result.value);
        Stored(lib, step.current, entry) && Follows(s, step.current, entry))
  {
    PrepareNewOutcome(lib, s, e);
    if Holds(s) && e.context.endpointEpoch == s.endpointEpoch.value {
      RedeliverOutcome(lib, s, e);
    }
  }

  lemma PrepareNewOutcome(lib: Library, s: Snapshot, e: Envelope)
    requires HashIs32(lib)
    ensures var step := PrepareNew(lib, s, e);
      && (step.result.Err? ==> step.current == s)
      && (step.result.Ok? ==>
        && step.current == Fresh(lib, e, step.result.value.value)
        && step.result.value.status == NewlyPrepared
        && step.result.value.ciphertextSha256 == lib.sha256(e.ciphertext)
        && e.context.endpointEpoch >= 1)
  {
    if Decrypt(lib, e).Ok? {
      SnapshotCheckNeverFails(lib, e);
      DecryptedIsAcceptable(lib, e);
    }
  }

  lemma RedeliverOutcome(lib: Library, s: Snapshot, e: Envelope)
    requires Durable(lib, s) && Holds(s) && e.context.endpointEpoch == s.endpointEpoch.value
    ensures Redeliver(lib, s, e).Ok? ==>
      var receipt := Redeliver(lib, s, e).value;
      && receipt.value == s.value.value
      && receipt.ciphertextSha256 == lib.sha256(e.ciphertext) == s.ciphertextSha256.value
      && receipt.status == if s.phase == Prepared then ResumePrepared else AlreadyApplied
    ensures s.endpointEpoch.value >= 1
  {
  }

  predicate Stored(lib: Library, s: Snapshot, entry: Entry) {
    && Holds(s) && entry.epoch == EpochOf(s) >= 1
    && s.ciphertextSha256 == Some(entry.receipt.ciphertextSha256) && s.value == Some(entry.receipt.value)
    && (entry.receipt.status == AlreadyApplied ==> s.phase == Applied)
    && entry.receipt.ciphertextSha256 == lib.sha256(entry.ciphertext)
  }

  predicate Follows(before: Snapshot, after: Snapshot, entry: Entry) {
    && (before == EMPTY ==> entry.epoch == 1 && entry.receipt.status == NewlyPrepared)
    && (before != EMPTY ==> EpochOf(before) < entry.epoch || (before == after && entry.receipt.status != NewlyPrepared))
  }

  lemma EarlierEntryKept(lib: Library, before: Snapshot, after: Snapshot, earlier: Entry, entry: Entry)
    requires Agrees(before, earlier) && before != EMPTY && Stored(lib, after, entry) && Follows(before, after, entry)
    ensures Agrees(after, earlier) && Consistent(earlier, entry)
  {
  }

  lemma DeliverKeepsInv(lib: Library, r: Receiver, e: Envelope)
    requires HashIs32(lib) && Inv(lib, r) && StoredWasAnswered(r)
    ensures Inv(lib, Next(lib, r, Deliver(e))) && StoredWasAnswered(Next(lib, r, Deliver(e)))
  {
    PrepareKeepsDurable(lib, r.current, e);
    DeliverOutcome(lib, r.current, e);
    var step := EndpointPrepare(lib, r.current, e);
    if step.result.Ok? {
      AnswerKeepsInv(lib, r, step.current, Entry(e.context.endpointEpoch, e.ciphertext, step.result.value));
    } else {
      assert Next(lib, r, Deliver(e)) == r;
    }
  }

  lemma AnswerKeepsInv(lib: Library, r: Receiver, current: Snapshot, entry: Entry)
    requires Inv(lib, r) && Durable(lib, current) && Stored(lib, current, entry) && Follows(r.current, current, entry)
    ensures var after := Receiver(current, r.answered + [entry], r.applied);
      Inv(lib, after) && StoredWasAnswered(after)
  {
    var after := Receiver(current, r.answered + [entry], r.applied);
    forall i | 0 <= i < |r.answered| ensures Agrees(current, r.answered[i]) && Consistent(r.answered[i], entry) {
      EarlierEntryKept(lib, r.current, current, r.answered[i], entry);
    }
    forall a | a in r.applied ensures exists i :: 0 <= i < |after.answered| && PreparedAs(after.answered[i], a) {
      var i :| 0 <= i < |r.answered| && PreparedAs(r.answered[i], a);
      assert PreparedAs(after.answered[i], a);
    }
    assert PreparedAs(after.answered[|r.answered|], (EpochOf(current), current.ciphertextSha256.value));
  }

  lemma ApplyKeepsInv(lib: Library, r: Receiver, epoch: int, hash: Bytes)
    requires Inv(lib, r) && StoredWasAnswered(r)
    ensures Inv(lib, Next(lib, r, Apply(epoch, hash))) && StoredWasAnswered(Next(lib, r, Apply(epoch, hash)))
  {
    var after := Next(lib, r, Apply(epoch, hash));
    forall i | 0 <= i < |r.answered| ensures Agrees(after.current, r.answered[i]) {
      assert Agrees(r.current, r.answered[i]);
    }
    NextKeepsDurable(lib, r, Apply(epoch, hash));
  }

  lemma {:induction false} RunKeepsInv(lib: Library, r: Receiver, actions: seq<Action>)
    requires HashIs32(lib) && Inv(lib, r) && StoredWasAnswered(r)
    ensures Inv(lib, Run(lib, r, actions)) && StoredWasAnswered(Run(lib, r, actions))
    decreases |actions|
  {
    if actions != [] {
      match actions[0] {
        case Deliver(e) => DeliverKeepsInv(lib, r, e);
        case Apply(epoch, hash) => ApplyKeepsInv(lib, r, epoch, hash);
        case Restart => StepForward(lib, r, Restart);
      }
      RunKeepsInv(lib, Next(lib, r, actions[0]), actions[1..]);
    }
  }

  /**
   * From an empty receiver, over every run: received epochs start at 1 and never go back; an epoch is
   * only ever answered for one ciphertext (short of a SHA-256 collision) and with one value; only its
   * first answer prepares it anew.
   */
  lemma OneCiphertextPerEpoch(lib: Library, actions: seq<Action>, i: nat, j: nat)
    requires HashIs32(lib)
    requires i < j < |Run(lib, START, actions).answered|
    ensures var answered := Run(lib, START, actions).answered;
      && answered[0].epoch == 1
      && Consistent(answered[i], answered[j])
      && (answered[i].epoch == answered[j].epoch ==>
        answered[i].ciphertext == answered[j].ciphertext || Collide(lib, answered[i].ciphertext, answered[j].ciphertext))
  {
    RunKeepsInv(lib, START, actions);
  }

  /** Whatever was applied had been prepared, under that epoch and hash, before. */
  lemma AppliedWasPrepared(lib: Library, actions: seq<Action>, applied: (int, Bytes))
    requires HashIs32(lib)
    requires applied in Run(lib, START, actions).applied
    ensures exists i :: 0 <= i < |Run(lib, START, actions).answered| && PreparedAs(Run(lib, START, actions).answered[i], applied)
  {
    RunKeepsInv(lib, START, actions);
  }

  /** Only the record prepared now can be applied, and applying changes nothing but its phase. */
  lemma OnlyPreparedIsApplied(s: Snapshot, epoch: int, hash: Bytes)
    requires s == EMPTY || Holds(s)
    ensures EndpointApply(s, epoch, hash).result.Ok? <==>
      s.phase == Prepared && s.endpointEpoch == Some(epoch) && s.ciphertextSha256 == Some(hash) && |hash| == 32
    ensures EndpointApply(s, epoch, hash).current == if EndpointApply(s, epoch, hash).result.Ok? then s.(phase := Applied) else s
  {
  }

  /** Delivering again what is stored gives the stored value and changes nothing. */
  lemma RedeliveryIsIdempotent(lib: Library, s: Snapshot, e: Envelope)
    requires Durable(lib, s) && Holds(s) && Decrypt(lib, e).Ok?
    requires s.ciphertext == Some(e.ciphertext) && s.endpointEpoch == Some(e.context.endpointEpoch)
    ensures EndpointPrepare(lib, s, e).current == s
    ensures EndpointPrepare(lib, s, e).result ==
      Ok(Receipt(if s.phase == Prepared then ResumePrepared else AlreadyApplied, s.value.value, s.ciphertextSha256.value))
  {
    DecryptedIsAcceptable(lib, e);
    assert EndpointContexts.Valid(e.context);
  }
}
