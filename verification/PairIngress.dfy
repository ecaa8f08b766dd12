/** Pair control records and the rule that admits each of them at most once, per side and in order. */
module PairIngress {
  import opened Results
  import opened ByteStrings
  import opened ByteOrder
  import Base64Url

  const RECORD_MAX_BYTES := 2048
  const SKEW_SECONDS := 60

  datatype Refusal =
    | PayloadTooLarge | InvalidCanonicalPayload | InvalidRecord | InvalidPayloadHash | InvalidSignature
    | ProtocolMismatch | WrongPair | WrongSide | WrongTransport | TimestampOutOfWindow | TimestampInFuture
    | PresenceExpired | StaleGeneration | InvalidGenerationStart | StaleSequence | TupleConflict | NonceReused
    | InvalidRevocationMac

  datatype Transport = Websocket | HttpsPublish | HttpsRevoke | HttpsRevocationAck | HttpsPoll

  datatype TimestampMode = WorkerIngress | DurableDelivery

  /** The fields of a record the ingress rule looks at; type 5 carries the end of its presence. */
  datatype Record = Record(
    major: int, minor: int, pairId: string, kind: int, side: int,
    generation: int, sequence: int, timestamp: int, nonce: string, validUntil: int)

  predicate WithinSchema(record: Record) {
    && 1 <= record.kind <= 9
    && record.side in {1, 2}
    && 1 <= record.generation <= UINT64_MAX
    && 1 <= record.sequence <= UINT64_MAX
    && 0 <= record.timestamp <= UINT64_MAX
    && Base64Url.IsText(record.nonce, 16)
  }

  /** What a revocation's MAC is bound to beside the record. */
  datatype RevocationContext = RevocationContext(
    pairId: string, hostBundleHash: string, remoteBundleHash: string, hostTrustEpoch: int, remoteTrustEpoch: int)

  datatype Revocation = Revocation(key: Bytes, context: RevocationContext)

  /**
   * JSON and the record's shape; its canonical bytes; a type 3 record's ciphertext hash; Ed25519; SHA-256;
   * and the MAC a record of type 7 or 8 carries, under its type's domain.
   */
  datatype Parsed = NotJson | OtherShape | Shaped(record: Record)

  datatype Library = Library(
    json: Bytes -> Parsed,
    canonical: Record -> Bytes,
    ciphertextHashHolds: Record -> bool,
    signatureHolds: (Bytes, Record) -> bool,
    sha256: Bytes -> Bytes,
    revocationMacHolds: (Record, Revocation) -> bool)

  ghost predicate HashIs32(lib: Library) {
    forall bytes :: |lib.sha256(bytes)| == 32
  }

  function ParseCanonical(lib: Library, payload: Bytes): Result<Record, Refusal> {
    if |payload| > RECORD_MAX_BYTES then Err(PayloadTooLarge)
    else
      match lib.json(payload)
      case NotJson => Err(InvalidCanonicalPayload)
      case OtherShape => Err(InvalidRecord)
      case Shaped(record) =>
        if !WithinSchema(record) then Err(InvalidRecord)
        else if lib.canonical(record) != payload then Err(InvalidCanonicalPayload)
        else if record.kind == 3 && !lib.ciphertextHashHolds(record) then Err(InvalidPayloadHash)
        else Ok(record)
  }

  /** One record, one spelling: no two byte strings parse to the same record. */
  lemma CanonicalSpelling(lib: Library, a: Bytes, b: Bytes)
    requires ParseCanonical(lib, a).Ok? && ParseCanonical(lib, a) == ParseCanonical(lib, b)
    ensures a == b
  {
    assert lib.canonical(ParseCanonical(lib, a).value) == a;
  }

  predicate TransportAllows(transport: Transport, kind: int) {
    match transport
    case Websocket => 1 <= kind <= 9
    case HttpsPoll => 1 <= kind <= 9
    case HttpsPublish => 1 <= kind <= 6 || kind == 9
    case HttpsRevoke => kind == 7
    case HttpsRevocationAck => kind == 8
  }

  /** Every kind can be uploaded over exactly one HTTPS transport, revocations and their acknowledgements over their own. */
  lemma UploadsPartition(kind: int)
    requires 1 <= kind <= 9
    ensures TransportAllows(HttpsRevoke, kind) <==> kind == 7
    ensures TransportAllows(HttpsRevocationAck, kind) <==> kind == 8
    ensures TransportAllows(HttpsPublish, kind) <==>
      !TransportAllows(HttpsRevoke, kind) && !TransportAllows(HttpsRevocationAck, kind)
    ensures TransportAllows(Websocket, kind) && TransportAllows(HttpsPoll, kind)
  {
  }

  function TimestampRefusal(record: Record, now: int, mode: TimestampMode): Option<Refusal> {
    if mode == WorkerIngress && (record.timestamp > now + SKEW_SECONDS || record.timestamp + SKEW_SECONDS < now)
    then Some(TimestampOutOfWindow)
    else if mode == DurableDelivery && record.timestamp > now + SKEW_SECONDS then Some(TimestampInFuture)
    else if record.kind == 5 && record.validUntil < now then Some(PresenceExpired)
    else None
  }

  datatype Expectation = Expectation(key: Bytes, pairId: string, side: int, major: int, minor: int)

  /** Asked for only where the pair's revocation key is at hand, and only of revocations and their acknowledgements. */
  predicate RevocationHolds(lib: Library, record: Record, revocation: Option<Revocation>) {
    revocation.Some? && record.kind in {7, 8} ==>
      && record.pairId == revocation.value.context.pairId
      && revocation.value.context.hostBundleHash != revocation.value.context.remoteBundleHash
      && lib.revocationMacHolds(record, revocation.value)
  }

  function ParseAndVerify(lib: Library, payload: Bytes, expected: Expectation, transport: Transport, now: int,
                          mode: TimestampMode, revocation: Option<Revocation>): Result<Record, Refusal>
  {
    var record :- ParseCanonical(lib, payload);
    if !TransportAllows(transport, record.kind) then Err(WrongTransport)
    else if !lib.signatureHolds(expected.key, record) then Err(InvalidSignature)
    else if record.major != expected.major || record.minor != expected.minor then Err(ProtocolMismatch)
    else if record.pairId != expected.pairId then Err(WrongPair)
    else if record.side != expected.side then Err(WrongSide)
    else
      match TimestampRefusal(record, now, mode)
      case Some(refusal) => Err(refusal)
      case None => if RevocationHolds(lib, record, revocation) then Ok(record) else Err(InvalidRevocationMac)
  }

  /** Canonical, small enough, within the schema, and with the ciphertext hash it claims. */
  predicate WellSpelled(lib: Library, payload: Bytes, record: Record) {
    && |payload| <= RECORD_MAX_BYTES && lib.json(payload) == Shaped(record) && lib.canonical(record) == payload
    && WithinSchema(record) && (record.kind == 3 ==> lib.ciphertextHashHolds(record))
  }

  predicate Timely(record: Record, now: int, mode: TimestampMode) {
    && record.timestamp - now <= SKEW_SECONDS
    && (mode == WorkerIngress ==> -SKEW_SECONDS <= record.timestamp - now)
    && (record.kind == 5 ==> now <= record.validUntil)
  }

  /** The checks in their order pass a record exactly when all of this holds of it, in either timestamp mode. */
  lemma RecordVerifiesExactlyWhen(lib: Library, payload: Bytes, expected: Expectation, transport: Transport, now: int,
                                  mode: TimestampMode, revocation: Option<Revocation>, record: Record)
    ensures ParseAndVerify(lib, payload, expected, transport, now, mode, revocation) == Ok(record) <==>
      && WellSpelled(lib, payload, record)
      && TransportAllows(transport, record.kind)
      && lib.signatureHolds(expected.key, record)
      && record.major == expected.major && record.minor == expected.minor
      && record.pairId == expected.pairId && record.side == expected.side
      && Timely(record, now, mode)
      && (revocation.Some? && (record.kind == 7 || record.kind == 8) ==>
        && record.pairId == revocation.value.context.pairId
        && revocation.value.context.hostBundleHash != revocation.value.context.remoteBundleHash
        && lib.revocationMacHolds(record, revocation.value))
  {
  }

  /**
   * What ingress admitted stays deliverable: later, polled, it fails only when its presence has run out, or
   * when it revokes and the poller's own check of the revocation MAC fails.
   */
  lemma AdmittedStaysDeliverable(lib: Library, payload: Bytes, expected: Expectation, transport: Transport, now: int,
                                 later: int, revocation: Option<Revocation>)
    requires now <= later && ParseAndVerify(lib, payload, expected, transport, now, WorkerIngress, None).Ok?
    ensures var delivered := ParseAndVerify(lib, payload, expected, HttpsPoll, later, DurableDelivery, revocation);
      var record := ParseAndVerify(lib, payload, expected, transport, now, WorkerIngress, None).value;
      delivered ==
        if record.kind == 5 && record.validUntil < later then Err(PresenceExpired)
        else if !RevocationHolds(lib, record, revocation) then Err(InvalidRevocationMac)
        else Ok(record)
  {
  }

  // ---- the per-side high-water -------------------------------------------------------------------------

  datatype HighWater = HighWater(generation: int, sequence: int, hash: string)

  datatype Side = Side(current: Option<HighWater>, nonces: set<string>)

  datatype Outcome = Accepted | Idempotent | Refused(refusal: Refusal)

  datatype SideStep = SideStep(side: Side, outcome: Outcome)

  /** Lexicographic order on (generation, sequence). */
  predicate Below(generation: int, sequence: int, otherGeneration: int, otherSequence: int) {
    generation < otherGeneration || (generation == otherGeneration && sequence < otherSequence)
  }

  function TupleOutcome(current: Option<HighWater>, record: Record, hash: string): Outcome {
    match current
    case None =>
      if record.generation != 1 || record.sequence != 1 then Refused(InvalidGenerationStart) else Accepted
    case Some(high) =>
      if record.generation < high.generation then Refused(StaleGeneration)
      else if record.generation == high.generation then
        if record.sequence < high.sequence then Refused(StaleSequence)
        else if record.sequence == high.sequence then
          if hash == high.hash then Idempotent else Refused(TupleConflict)
        else Accepted
      else if record.sequence != 1 then Refused(InvalidGenerationStart)
      else Accepted
  }

  function AdmitToSide(side: Side, record: Record, hash: string): SideStep {
    var outcome := TupleOutcome(side.current, record, hash);
    if outcome != Accepted then SideStep(side, outcome)
    else if record.nonce in side.nonces then SideStep(side, Refused(NonceReused))
    else SideStep(Side(Some(HighWater(record.generation, record.sequence, hash)), side.nonces + {record.nonce}), Accepted)
  }

  datatype Setup = Setup(hostKey: Bytes, remoteKey: Bytes, pairId: string, major: int, minor: int)

  datatype State = State(host: Side, remote: Side) {
    function Of(side: int): Side {
      if side == 1 then host else remote
    }

    function With(side: int, value: Side): State {
      if side == 1 then this.(host := value) else this.(remote := value)
    }
  }

  const START: State := State(Side(None, {}), Side(None, {}))

  function HashText(lib: Library, payload: Bytes): string {
    Base64Url.Encode(lib.sha256(payload))
  }

  function Verified(lib: Library, setup: Setup, payload: Bytes, transport: Transport, now: int): Result<Record, Refusal> {
    if transport == HttpsPoll then Err(WrongTransport)
    else
      var candidate :- ParseCanonical(lib, payload);
      var key := if candidate.side == 1 then setup.hostKey else setup.remoteKey;
      ParseAndVerify(lib, payload, Expectation(key, setup.pairId, candidate.side, setup.major, setup.minor), transport, now,
                     WorkerIngress, None)
  }

  /** A payload passes verification exactly when all of this holds of it; the side's own installation key must have signed. */
  lemma VerifiedExactlyWhen(lib: Library, setup: Setup, payload: Bytes, transport: Transport, now: int, record: Record)
    ensures Verified(lib, setup, payload, transport, now) == Ok(record) <==>
      && WellSpelled(lib, payload, record)
      && transport != HttpsPoll && TransportAllows(transport, record.kind)
      && lib.signatureHolds(if record.side == 1 then setup.hostKey else setup.remoteKey, record)
      && record.major == setup.major && record.minor == setup.minor && record.pairId == setup.pairId
      && Timely(record, now, WorkerIngress)
  {
  }

  /** The tuple a side may accept next: (1, 1), a later sequence of its generation, or the start of a later generation. */
  predicate MayFollow(current: Option<HighWater>, record: Record) {
    match current
    case None => record.generation == 1 && record.sequence == 1
    case Some(high) =>
      && Below(high.generation, high.sequence, record.generation, record.sequence)
      && (record.generation > high.generation ==> record.sequence == 1)
  }

  datatype Step = Step(state: State, outcome: Outcome)

  function Ingress(lib: Library, setup: Setup, state: State, payload: Bytes, transport: Transport, now: int): Step {
    match Verified(lib, setup, payload, transport, now)
    case Err(refusal) => Step(state, Refused(refusal))
    case Ok(record) =>
      var step := AdmitToSide(state.Of(record.side), record, HashText(lib, payload));
      Step(state.With(record.side, step.side), step.outcome)
  }

  /**
   * A verified record is accepted exactly when its tuple may follow its side's and its nonce is not held: then that
   * tuple and hash are the side's high-water and that nonce is held too. It is idempotent exactly when it is the latest.
   */
  lemma AcceptedExactlyWhen(lib: Library, setup: Setup, state: State, payload: Bytes, transport: Transport, now: int, record: Record)
    requires Verified(lib, setup, payload, transport, now) == Ok(record)
    ensures var side, step := state.Of(record.side), Ingress(lib, setup, state, payload, transport, now);
      var tuple := HighWater(record.generation, record.sequence, HashText(lib, payload));
      && (step.outcome == Accepted <==> MayFollow(side.current, record) && record.nonce !in side.nonces)
      && (step.outcome == Accepted ==> step.state.Of(record.side) == Side(Some(tuple), side.nonces + {record.nonce}))
      && (step.outcome == Idempotent <==> side.current == Some(tuple))
      && (step.outcome == Refused(NonceReused) <==> MayFollow(side.current, record) && record.nonce in side.nonces)
      && (step.outcome != Accepted ==> step.state == state)
  {
  }

  /** A verified record that may not follow and is not the latest is refused for what its tuple is. */
  lemma RefusedByTuple(lib: Library, setup: Setup, state: State, payload: Bytes, transport: Transport, now: int, record: Record)
    requires Verified(lib, setup, payload, transport, now) == Ok(record)
    ensures var current, outcome := state.Of(record.side).current, Ingress(lib, setup, state, payload, transport, now).outcome;
      && (outcome == Refused(StaleGeneration) <==> current.Some? && record.generation < current.value.generation)
      && (outcome == Refused(StaleSequence) <==>
        current.Some? && record.generation == current.value.generation && record.sequence < current.value.sequence)
      && (outcome == Refused(TupleConflict) <==>
        && current.Some? && record.generation == current.value.generation && record.sequence == current.value.sequence
        && HashText(lib, payload) != current.value.hash)
      && (outcome == Refused(InvalidGenerationStart) <==>
        !MayFollow(current, record) && (current.None? || record.generation > current.value.generation))
  {
  }

  /** What a refusal at verification says is so. */
  predicate Justified(lib: Library, setup: Setup, payload: Bytes, transport: Transport, now: int, refusal: Refusal) {
    var shape := lib.json(payload);
    match refusal
    case PayloadTooLarge => |payload| > RECORD_MAX_BYTES
    case InvalidCanonicalPayload => shape.NotJson? || (shape.Shaped? && lib.canonical(shape.record) != payload)
    case InvalidRecord => shape.OtherShape? || (shape.Shaped? && !WithinSchema(shape.record))
    case WrongTransport => transport == HttpsPoll || (shape.Shaped? && !TransportAllows(transport, shape.record.kind))
    case _ => shape.Shaped? && JustifiedOf(lib, setup, shape.record, now, refusal)
  }

  predicate JustifiedOf(lib: Library, setup: Setup, record: Record, now: int, refusal: Refusal) {
    match refusal
    case InvalidPayloadHash => record.kind == 3 && !lib.ciphertextHashHolds(record)
    case InvalidSignature => !lib.signatureHolds(if record.side == 1 then setup.hostKey else setup.remoteKey, record)
    case ProtocolMismatch => record.major != setup.major || record.minor != setup.minor
    case WrongPair => record.pairId != setup.pairId
    case TimestampOutOfWindow => record.timestamp > now + SKEW_SECONDS || record.timestamp < now - SKEW_SECONDS
    case PresenceExpired => record.kind == 5 && record.validUntil < now
    case _ => false
  }

  /** No verification is refused for a reason that does not hold. */
  lemma RefusalsAreJustified(lib: Library, setup: Setup, payload: Bytes, transport: Transport, now: int)
    ensures var verified := Verified(lib, setup, payload, transport, now);
      verified.Err? ==> Justified(lib, setup, payload, transport, now, verified.error)
  {
  }

  /** Only an accepted record changes anything, and only its own side. */
  lemma IngressFrame(lib: Library, setup: Setup, state: State, payload: Bytes, transport: Transport, now: int, side: int)
    requires side in {1, 2}
    ensures var step := Ingress(lib, setup, state, payload, transport, now);
      step.state.Of(side) != state.Of(side) ==>
        && step.outcome == Accepted
        && ParseCanonical(lib, payload).Ok? && ParseCanonical(lib, payload).value.side == side
        && step.state.Of(3 - side) == state.Of(3 - side)
  {
  }

  // ---- the durable snapshot ----------------------------------------------------------------------------

  datatype Snapshot = Snapshot(
    version: int, host: Option<HighWater>, remote: Option<HighWater>, hostNonces: seq<string>, remoteNonces: seq<string>)

  function Codes(text: string): seq<int> {
    seq(|text|, i requires 0 <= i < |text| => text[i] as int)
  }

  predicate Before(a: string, b: string) {
    Compare(Codes(a), Codes(b)) < 0
  }

  lemma BeforeIsAnOrder(a: string, b: string, c: string)
    ensures !(Before(a, b) && Before(b, a))
    ensures a != b ==> Before(a, b) || Before(b, a)
    ensures Before(a, b) && Before(b, c) ==> Before(a, c)
  {
    CompareFlips(Codes(a), Codes(b));
    if Codes(a) == Codes(b) {
      assert |a| == |Codes(b)|;
      forall i | 0 <= i < |a| ensures a[i] == b[i] {
        assert Codes(a)[i] == Codes(b)[i];
      }
    }
    if Before(a, b) && Before(b, c) {
      CompareTransitive(Codes(a), Codes(b), Codes(c));
    }
  }

  predicate AllNonces(nonces: set<string>) {
    forall nonce | nonce in nonces :: Base64Url.IsText(nonce, 16)
  }

  predicate ValidHighWater(high: HighWater) {
    1 <= high.generation <= UINT64_MAX && 1 <= high.sequence <= UINT64_MAX && Base64Url.IsText(high.hash, 32)
  }

  /** What every reachable side is. */
  predicate SideWellFormed(side: Side) {
    && (side.current.Some? ==> ValidHighWater(side.current.value))
    && (side.current.None? ==> side.nonces == {})
    && AllNonces(side.nonces)
  }

  predicate WellFormed(state: State) {
    SideWellFormed(state.host) && SideWellFormed(state.remote)
  }

  /** The one snapshot of a state: its nonces sorted. */
  predicate IsSnapshot(snapshot: Snapshot, state: State) {
    && snapshot.version == 1
    && snapshot.host == state.host.current && snapshot.remote == state.remote.current
    && IsSorted(snapshot.hostNonces, state.host.nonces)
    && IsSorted(snapshot.remoteNonces, state.remote.nonces)
  }

  predicate IsSorted(list: seq<string>, nonces: set<string>) {
    StrictlySorted(Before, list) && Elements(list) == nonces
  }

  /** The state a snapshot restores; None where the source refuses it. */
  function Restored(snapshot: Snapshot): Option<State> {
    var host := Side(snapshot.host, Elements(snapshot.hostNonces));
    var remote := Side(snapshot.remote, Elements(snapshot.remoteNonces));
    if snapshot.version != 1 then None
    else if !SideWellFormed(host) || !SideWellFormed(remote) then None
    else if !StrictlySorted(Before, snapshot.hostNonces) || !StrictlySorted(Before, snapshot.remoteNonces) then None
    else Some(State(host, remote))
  }

  /** A stored side: nothing at all, or a tuple and hash in range, with sorted nonces of 16 bytes. */
  predicate IsStoredSide(high: Option<HighWater>, nonces: seq<string>) {
    && (high.None? ==> nonces == [])
    && (high.Some? ==>
      && 1 <= high.value.generation <= UINT64_MAX && 1 <= high.value.sequence <= UINT64_MAX
      && Base64Url.IsText(high.value.hash, 32))
    && StrictlySorted(Before, nonces) && forall i | 0 <= i < |nonces| :: Base64Url.IsText(nonces[i], 16)
  }

  lemma RestoresExactlyWhen(snapshot: Snapshot)
    ensures Restored(snapshot).Some? <==>
      && snapshot.version == 1
      && IsStoredSide(snapshot.host, snapshot.hostNonces) && IsStoredSide(snapshot.remote, snapshot.remoteNonces)
  {
    SideRestores(snapshot.host, snapshot.hostNonces);
    SideRestores(snapshot.remote, snapshot.remoteNonces);
  }

  lemma SideRestores(high: Option<HighWater>, nonces: seq<string>)
    ensures IsStoredSide(high, nonces) <==> StrictlySorted(Before, nonces) && SideWellFormed(Side(high, Elements(nonces)))
  {
    assert forall i | 0 <= i < |nonces| :: nonces[i] in Elements(nonces);
    if nonces != [] {
      assert nonces[0] in Elements(nonces);
    } else {
      assert Elements(nonces) == {};
    }
  }

  /** Snapshots and well-formed states correspond one to one. */
  lemma SnapshotIsExact(snapshot: Snapshot, other: Snapshot, state: State)
    ensures Restored(snapshot) == Some(state) <==> WellFormed(state) && IsSnapshot(snapshot, state)
    ensures IsSnapshot(snapshot, state) && IsSnapshot(other, state) ==> snapshot == other
  {
    if IsSnapshot(snapshot, state) && IsSnapshot(other, state) {
      forall x, y ensures Before(x, y) ==> !Before(y, x) {
        BeforeIsAnOrder(x, y, x);
      }
      SortedListingUnique(Before, snapshot.hostNonces, other.hostNonces);
      SortedListingUnique(Before, snapshot.remoteNonces, other.remoteNonces);
    }
  }

  function Insert(x: string, list: seq<string>): seq<string> {
    if list == [] then [x]
    else if Before(x, list[0]) then [x] + list
    else [list[0]] + Insert(x, list[1..])
  }

  lemma {:induction false} InsertElements(x: string, list: seq<string>)
    ensures Elements(Insert(x, list)) == Elements(list) + {x}
  {
    if list != [] && !Before(x, list[0]) {
      InsertElements(x, list[1..]);
      assert list == [list[0]] + list[1..];
      assert Elements(list) == {list[0]} + Elements(list[1..]);
      assert Elements(Insert(x, list)) == {list[0]} + Elements(Insert(x, list[1..]));
    }
  }

  lemma {:induction false} InsertSorts(x: string, list: seq<string>)
    requires StrictlySorted(Before, list) && x !in list
    ensures StrictlySorted(Before, Insert(x, list))
  {
    if list != [] {
      if Before(x, list[0]) {
        forall i | 0 <= i < |list| ensures Before(x, list[i]) {
          BeforeIsAnOrder(x, list[0], list[i]);
        }
      } else {
        InsertSorts(x, list[1..]);
        InsertElements(x, list[1..]);
        BeforeIsAnOrder(x, list[0], x);
        var rest := Insert(x, list[1..]);
        forall i | 0 <= i < |rest| ensures Before(list[0], rest[i]) {
          assert rest[i] in Elements(rest);
        }
      }
    }
  }

  lemma AppendSorts(list: seq<string>, x: string)
    requires StrictlySorted(Before, list) && (list != [] ==> Before(list[|list| - 1], x))
    ensures StrictlySorted(Before, list + [x]) && x !in list
  {
    forall i | 0 <= i < |list| ensures Before(list[i], x) && list[i] != x {
      BeforeIsAnOrder(list[i], list[|list| - 1], x);
      BeforeIsAnOrder(list[i], x, x);
    }
  }

  /** Neighbours are all that is compared; None where the source throws. */
  method RestoreNonces(values: seq<string>) returns (r: Option<set<string>>)
    ensures r.Some? <==> AllNonces(Elements(values)) && StrictlySorted(Before, values)
    ensures r.Some? ==> r.value == Elements(values)
  {
    var result := {};
    for i := 0 to |values|
      invariant result == Elements(values[..i])
      invariant AllNonces(result) && StrictlySorted(Before, values[..i])
    {
      assert values[i] in Elements(values);
      if !Base64Url.IsText(values[i], 16) {
        return None;
      }
      if i > 0 && !Before(values[i - 1], values[i]) {
        return None;
      }
      AppendSorts(values[..i], values[i]);
      assert values[..i + 1] == values[..i] + [values[i]];
      result := result + {values[i]};
    }
    assert values[..|values|] == values;
    return Some(result);
  }

  method SortedNonces(nonces: set<string>) returns (list: seq<string>)
    ensures IsSorted(list, nonces)
  {
    list := [];
    var todo := nonces;
    while todo != {}
      invariant todo <= nonces && IsSorted(list, nonces - todo)
      decreases todo
    {
      var x :| x in todo;
      assert x !in Elements(list);
      InsertSorts(x, list);
      InsertElements(x, list);
      list := Insert(x, list);
      todo := todo - {x};
    }
  }

  lemma AdmitKeepsWellFormed(side: Side, record: Record, hash: string)
    requires SideWellFormed(side) && WithinSchema(record) && Base64Url.IsText(hash, 32)
    ensures SideWellFormed(AdmitToSide(side, record, hash).side)
  {
  }

  lemma IngressKeepsWellFormed(lib: Library, setup: Setup, state: State, payload: Bytes, transport: Transport, now: int)
    requires HashIs32(lib) && WellFormed(state)
    ensures WellFormed(Ingress(lib, setup, state, payload, transport, now).state)
  {
    Base64Url.DecodeOfEncode(lib.sha256(payload));
    var verified := Verified(lib, setup, payload, transport, now);
    if verified.Ok? {
      AdmitKeepsWellFormed(state.Of(verified.value.side), verified.value, HashText(lib, payload));
    }
  }

  class PairControlIngress {
    const lib: Library
    const setup: Setup
    var host: Option<HighWater>
    var remote: Option<HighWater>
    var hostNonces: set<string>
    var remoteNonces: set<string>

    function Abstract(): State
      reads this
    {
      State(Side(host, hostNonces), Side(remote, remoteNonces))
    }

    ghost predicate Valid()
      reads this
    {
      HashIs32(lib) && WellFormed(Abstract())
    }

    constructor (lib: Library, setup: Setup)
      requires HashIs32(lib)
      ensures this.lib == lib && this.setup == setup
      ensures Valid() && Abstract() == START
    {
      this.lib, this.setup := lib, setup;
      host, remote, hostNonces, remoteNonces := None, None, {}, {};
    }

    /** A restart: takes over the snapshot's state, or refuses the snapshot. */
    static method Restore(lib: Library, setup: Setup, snapshot: Snapshot) returns (r: Option<PairControlIngress>)
      requires HashIs32(lib)
      ensures r.Some? <==> Restored(snapshot).Some?
      ensures r.Some? ==> fresh(r.value) && r.value.lib == lib && r.value.setup == setup
      ensures r.Some? ==> r.value.Valid() && Some(r.value.Abstract()) == Restored(snapshot)
    {
      if snapshot.version != 1 {
        return None;
      }
      if snapshot.host.Some? && !ValidHighWater(snapshot.host.value) {
        return None;
      }
      if snapshot.remote.Some? && !ValidHighWater(snapshot.remote.value) {
        return None;
      }
      var restoredHost := RestoreNonces(snapshot.hostNonces);
      var restoredRemote := RestoreNonces(snapshot.remoteNonces);
      if restoredHost.None? || restoredRemote.None? {
        return None;
      }
      if (snapshot.host.None? && restoredHost.value != {}) || (snapshot.remote.None? && restoredRemote.value != {}) {
        return None;
      }
      var state := new PairControlIngress(lib, setup);
      state.host, state.remote := snapshot.host, snapshot.remote;
      state.hostNonces, state.remoteNonces := restoredHost.value, restoredRemote.value;
      return Some(state);
    }

    method Accept(payload: Bytes, transport: Transport, now: int) returns (outcome: Outcome)
      requires Valid()
      modifies this
      ensures Valid()
      ensures var verified := Verified(lib, setup, payload, transport, now);
        outcome == Accepted <==>
          && verified.Ok? && MayFollow(old(Abstract()).Of(verified.value.side).current, verified.value)
          && verified.value.nonce !in old(Abstract()).Of(verified.value.side).nonces
      ensures Step(Abstract(), outcome) == Ingress(lib, setup, old(Abstract()), payload, transport, now)
    {
      IngressKeepsWellFormed(lib, setup, Abstract(), payload, transport, now);
      var verified := Verified(lib, setup, payload, transport, now);
      if verified.Err? {
        return Refused(verified.error);
      }
      var record := verified.value;
      var current := if record.side == 1 then host else remote;
      var nonces := if record.side == 1 then hostNonces else remoteNonces;
      var hash := HashText(lib, payload);
      if current.None? {
        if record.generation != 1 || record.sequence != 1 {
          return Refused(InvalidGenerationStart);
        }
      } else {
        var high := current.value;
        if record.generation < high.generation {
          return Refused(StaleGeneration);
        }
        if record.generation == high.generation {
          if record.sequence < high.sequence {
            return Refused(StaleSequence);
          }
          if record.sequence == high.sequence {
            if hash == high.hash {
              return Idempotent;
            }
            return Refused(TupleConflict);
          }
        } else if record.sequence != 1 {
          return Refused(InvalidGenerationStart);
        }
      }
      if record.nonce in nonces {
        return Refused(NonceReused);
      }
      var next := HighWater(record.generation, record.sequence, hash);
      if record.side == 1 {
        hostNonces := hostNonces + {record.nonce};
        host := Some(next);
      } else {
        remoteNonces := remoteNonces + {record.nonce};
        remote := Some(next);
      }
      return Accepted;
    }

    method TakeSnapshot() returns (snapshot: Snapshot)
      requires Valid()
      ensures IsSnapshot(snapshot, Abstract()) && Restored(snapshot) == Some(Abstract())
    {
      var sortedHost := SortedNonces(hostNonces);
      var sortedRemote := SortedNonces(remoteNonces);
      snapshot := Snapshot(1, host, remote, sortedHost, sortedRemote);
      SnapshotIsExact(snapshot, snapshot, Abstract());
    }
  }
}

/** Whole runs of one ingress state: payloads of any origin, and restarts from the snapshot. */
module IngressRuns {
  import opened Results
  import opened ByteStrings
  import opened PairIngress

  datatype Event = Receive(payload: Bytes, transport: Transport, now: int) | Restart(snapshot: Snapshot)

  /** A restart reads back the snapshot taken just before; any other snapshot is not this ingress's. */
  function Next(lib: Library, setup: Setup, state: State, event: Event): State {
    match event
    case Receive(payload, transport, now) => Ingress(lib, setup, state, payload, transport, now).state
    case Restart(snapshot) =>
      if IsSnapshot(snapshot, state) && Restored(snapshot).Some? then Restored(snapshot).value else state
  }

  /** The state before event `k` of a run that starts with neither side known. */
  function StateAt(lib: Library, setup: Setup, events: seq<Event>, k: nat): State
    requires k <= |events|
  {
    if k == 0 then START else Next(lib, setup, StateAt(lib, setup, events, k - 1), events[k - 1])
  }

  function OutcomeAt(lib: Library, setup: Setup, events: seq<Event>, k: nat): Option<Outcome>
    requires k < |events|
  {
    if events[k].Restart? then None
    else Some(Ingress(lib, setup, StateAt(lib, setup, events, k), events[k].payload, events[k].transport, events[k].now).outcome)
  }

  /** Event `k` had `record` accepted. */
  predicate AcceptedAt(lib: Library, setup: Setup, events: seq<Event>, k: nat, record: Record) {
    && k < |events| && OutcomeAt(lib, setup, events, k) == Some(Accepted)
    && ParseCanonical(lib, events[k].payload) == Ok(record)
  }

  /** A restart is invisible. */
  lemma RestartIsTransparent(lib: Library, setup: Setup, state: State, snapshot: Snapshot)
    ensures Next(lib, setup, state, Restart(snapshot)) == state
  {
    SnapshotIsExact(snapshot, snapshot, state);
    if Restored(snapshot).Some? {
      SnapshotIsExact(snapshot, snapshot, Restored(snapshot).value);
    }
  }

  /** Every reachable state can be written out and read back. */
  lemma {:induction false} ReachableIsWellFormed(lib: Library, setup: Setup, events: seq<Event>, k: nat)
    requires HashIs32(lib) && k <= |events|
    ensures WellFormed(StateAt(lib, setup, events, k))
  {
    if k > 0 {
      ReachableIsWellFormed(lib, setup, events, k - 1);
      var state := StateAt(lib, setup, events, k - 1);
      match events[k - 1] {
        case Receive(payload, transport, now) => IngressKeepsWellFormed(lib, setup, state, payload, transport, now);
        case Restart(snapshot) => RestartIsTransparent(lib, setup, state, snapshot);
      }
    }
  }

  /** The side's high-water is at `record` or above it, and its nonce is held. */
  predicate Covers(side: Side, record: Record) {
    && side.current.Some? && record.nonce in side.nonces
    && !Below(side.current.value.generation, side.current.value.sequence, record.generation, record.sequence)
  }

  lemma StepCovers(lib: Library, setup: Setup, state: State, event: Event, record: Record)
    requires Covers(state.Of(record.side), record)
    ensures Covers(Next(lib, setup, state, event).Of(record.side), record)
  {
    if event.Restart? {
      RestartIsTransparent(lib, setup, state, event.snapshot);
    }
  }

  lemma {:induction false} StaysCovered(lib: Library, setup: Setup, events: seq<Event>, i: nat, record: Record, k: nat)
    requires AcceptedAt(lib, setup, events, i, record) && i < k <= |events|
    ensures Covers(StateAt(lib, setup, events, k).Of(record.side), record)
    decreases k
  {
    if k > i + 1 {
      StaysCovered(lib, setup, events, i, record, k - 1);
      StepCovers(lib, setup, StateAt(lib, setup, events, k - 1), events[k - 1], record);
    }
  }

  /** Per side, accepted (generation, sequence) pairs strictly increase and no nonce comes twice. */
  lemma AcceptedAscend(lib: Library, setup: Setup, events: seq<Event>, i: nat, a: Record, j: nat, b: Record)
    requires i < j && a.side == b.side
    requires AcceptedAt(lib, setup, events, i, a) && AcceptedAt(lib, setup, events, j, b)
    ensures Below(a.generation, a.sequence, b.generation, b.sequence)
    ensures a.nonce != b.nonce
  {
    StaysCovered(lib, setup, events, i, a, j);
  }

  /** Some event before `k` had a record of this side and tuple accepted. */
  ghost predicate TupleAcceptedBefore(lib: Library, setup: Setup, events: seq<Event>, k: nat, side: int, generation: int, sequence: int) {
    exists i: nat, record ::
      && i < k && AcceptedAt(lib, setup, events, i, record)
      && record.side == side && record.generation == generation && record.sequence == sequence
  }

  lemma {:induction false} HighWaterWasAccepted(lib: Library, setup: Setup, events: seq<Event>, k: nat, side: int)
    requires k <= |events| && side in {1, 2}
    ensures var current := StateAt(lib, setup, events, k).Of(side).current;
      current.Some? ==> TupleAcceptedBefore(lib, setup, events, k, side, current.value.generation, current.value.sequence)
  {
    if k > 0 {
      HighWaterWasAccepted(lib, setup, events, k - 1, side);
      var before := StateAt(lib, setup, events, k - 1);
      match events[k - 1] {
        case Receive(payload, transport, now) =>
          IngressFrame(lib, setup, before, payload, transport, now, side);
          if Next(lib, setup, before, events[k - 1]).Of(side) != before.Of(side) {
            assert AcceptedAt(lib, setup, events, k - 1, ParseCanonical(lib, payload).value);
          }
        case Restart(snapshot) => RestartIsTransparent(lib, setup, before, snapshot);
      }
    }
  }

  /** A side begins at (1, 1), and every generation at sequence 1: anything else has a predecessor. */
  lemma EveryGenerationStartsAtOne(lib: Library, setup: Setup, events: seq<Event>, j: nat, record: Record)
    requires AcceptedAt(lib, setup, events, j, record)
    ensures record.sequence != 1 ==>
      exists sequence :: TupleAcceptedBefore(lib, setup, events, j, record.side, record.generation, sequence)
    ensures record.generation != 1 ==>
      exists generation, sequence :: TupleAcceptedBefore(lib, setup, events, j, record.side, generation, sequence)
  {
    HighWaterWasAccepted(lib, setup, events, j, record.side);
  }

  /** A record of `side` was accepted strictly between events `i` and `j`. */
  ghost predicate AcceptedBetween(lib: Library, setup: Setup, events: seq<Event>, i: nat, j: nat, side: int) {
    exists k: nat, record :: i < k < j && AcceptedAt(lib, setup, events, k, record) && record.side == side
  }

  lemma {:induction false} SideUntouched(lib: Library, setup: Setup, events: seq<Event>, i: nat, k: nat, side: int)
    requires i < k <= |events| && side in {1, 2} && !AcceptedBetween(lib, setup, events, i, k, side)
    ensures StateAt(lib, setup, events, k).Of(side) == StateAt(lib, setup, events, i + 1).Of(side)
    decreases k
  {
    if k > i + 1 {
      SideUntouched(lib, setup, events, i, k - 1, side);
      var before := StateAt(lib, setup, events, k - 1);
      match events[k - 1] {
        case Receive(payload, transport, now) =>
          IngressFrame(lib, setup, before, payload, transport, now, side);
          if Next(lib, setup, before, events[k - 1]).Of(side) != before.Of(side) {
            assert AcceptedAt(lib, setup, events, k - 1, ParseCanonical(lib, payload).value);
          }
        case Restart(snapshot) => RestartIsTransparent(lib, setup, before, snapshot);
      }
    }
  }

  /**
   * Sending an accepted payload again: never accepted, and answered as idempotent exactly when it still
   * verifies and its side has accepted nothing since.
   */
  lemma ResendIsNeverAccepted(lib: Library, setup: Setup, events: seq<Event>, i: nat, record: Record, j: nat)
    requires AcceptedAt(lib, setup, events, i, record) && i < j < |events|
    requires events[j].Receive? && events[j].payload == events[i].payload
    ensures OutcomeAt(lib, setup, events, j) != Some(Accepted)
    ensures OutcomeAt(lib, setup, events, j) == Some(Idempotent) <==>
      && Verified(lib, setup, events[j].payload, events[j].transport, events[j].now).Ok?
      && !AcceptedBetween(lib, setup, events, i, j, record.side)
    ensures StateAt(lib, setup, events, j + 1) == StateAt(lib, setup, events, j)
  {
    StaysCovered(lib, setup, events, i, record, j);
    if AcceptedBetween(lib, setup, events, i, j, record.side) {
      var k: nat, other :| i < k < j && AcceptedAt(lib, setup, events, k, other) && other.side == record.side;
      AcceptedAscend(lib, setup, events, i, record, k, other);
      StaysCovered(lib, setup, events, k, other, j);
    } else {
      SideUntouched(lib, setup, events, i, j, record.side);
    }
  }
}
