/** One side's confirmation session: approve, publish, verify the peer, consume; or cancel or expire. */
module PairConfirmations {
  import opened Results
  import opened ByteStrings
  import opened SigningInputs

  const PAYLOAD_MAX_BYTES := 1024

  datatype ErrorCode =
    | PayloadTooLarge | InvalidCanonicalPayload | InvalidRecord | InvalidMac | InvalidPhase | WrongSide
    | ContextMismatch | LocalNotPublished | PeerNotVerified | WrongRecordType | DuplicateConfirmation

  datatype Phase = PreApproval | Approved | Consumed | Cancelled | Expired

  /** The eight fields both sides must have approved. */
  datatype Context = Context(
    invitationId: Bytes, invitationGeneration: int, pairId: Bytes, transcriptHash: Bytes, channelBinding: Bytes,
    hostBundleHash: Bytes, remoteBundleHash: Bytes, approvalContextHash: Bytes)

  datatype Signed = Signed(unsigned: Confirmation, mac: Bytes)

  /** The operations underneath: a MAC and its input, and the canonical serialisation with its parser. */
  datatype Library = Library(
    mac: (Bytes, Bytes) -> Bytes,
    macInput: Confirmation -> Option<Bytes>,
    serialize: Signed -> Bytes,
    parse: Bytes -> Result<Signed, ErrorCode>)

  function ContextOf(c: Confirmation): Context {
    Context(c.invitationId, c.invitationGeneration, c.pairId, c.transcriptHash, c.channelBinding,
            c.hostBundleHash, c.remoteBundleHash, c.approvalContextHash)
  }

  function Unsigned(context: Context, side: int, nonce: Bytes): Confirmation {
    Confirmation(context.invitationId, context.invitationGeneration, context.pairId, side, context.transcriptHash,
                 context.channelBinding, context.hostBundleHash, context.remoteBundleHash,
                 context.approvalContextHash, nonce)
  }

  /** The MAC input is the length-prefixed tuple behind the confirmation domain. */
  ghost predicate UsesWireEncoding(lib: Library) {
    forall c :: lib.macInput(c) == Encode(ConfirmationInput(c))
  }

  ghost predicate InputsInjective(lib: Library) {
    forall c, d :: lib.macInput(c).Some? && lib.macInput(c) == lib.macInput(d) ==> c == d
  }

  lemma WireInputsInjective(lib: Library)
    requires UsesWireEncoding(lib)
    ensures InputsInjective(lib)
  {
    forall c, d | lib.macInput(c).Some? && lib.macInput(c) == lib.macInput(d) ensures c == d {
      EncodeInjective(ConfirmationInput(c), ConfirmationInput(d));
    }
  }

  /** What an honest side makes of its context: None where creation throws on invalid fields. */
  function Create(lib: Library, key: Bytes, unsigned: Confirmation): Option<Signed> {
    var input :- lib.macInput(unsigned);
    Some(Signed(unsigned, lib.mac(key, input)))
  }

  function Verify(lib: Library, key: Bytes, value: Signed): Result<Signed, ErrorCode> {
    match lib.macInput(value.unsigned)
    case None => Err(InvalidRecord)
    case Some(input) =>
      if |value.mac| != 32 then Err(InvalidRecord)
      else if lib.mac(key, input) != value.mac then Err(InvalidMac)
      else Ok(value)
  }

  function ParseAndVerify(lib: Library, key: Bytes, payload: Bytes): Result<Signed, ErrorCode> {
    if |payload| > PAYLOAD_MAX_BYTES then Err(PayloadTooLarge)
    else
      var parsed :- lib.parse(payload);
      if lib.serialize(parsed) != payload then Err(InvalidCanonicalPayload)
      else Verify(lib, key, parsed)
  }

  /** A payload verifies exactly when it is within 1,024 bytes, canonical, and carries the 32-byte MAC of its own fields. */
  lemma VerifiesExactlyWhen(lib: Library, key: Bytes, payload: Bytes, value: Signed)
    ensures ParseAndVerify(lib, key, payload) == Ok(value) <==>
      && |payload| <= PAYLOAD_MAX_BYTES && lib.parse(payload) == Ok(value) && lib.serialize(value) == payload
      && lib.macInput(value.unsigned).Some? && |value.mac| == 32
      && lib.mac(key, lib.macInput(value.unsigned).value) == value.mac
  {
  }

  datatype Session = Session(
    side: int, key: Bytes, context: Context, phase: Phase,
    localPayload: Option<Bytes>, peerPayload: Option<Bytes>, consumeAcknowledged: bool)

  datatype Step = Step(session: Session, result: Result<bool, ErrorCode>)

  function Refuse(s: Session, code: ErrorCode): Step {
    Step(s, Err(code))
  }

  function ApproveStep(s: Session): Step {
    match s.phase
    case Approved => Step(s, Ok(false))
    case PreApproval => Step(s.(phase := Approved), Ok(true))
    case _ => Refuse(s, InvalidPhase)
  }

  function PublishStep(lib: Library, s: Session, value: Signed): Step {
    if s.phase != Approved then Refuse(s, InvalidPhase)
    else
      match Verify(lib, s.key, value)
      case Err(code) => Refuse(s, code)
      case Ok(parsed) =>
        if parsed.unsigned.side != s.side then Refuse(s, WrongSide)
        else if ContextOf(parsed.unsigned) != s.context then Refuse(s, ContextMismatch)
        else
          var payload := lib.serialize(parsed);
          if s.localPayload.None? then Step(s.(localPayload := Some(payload)), Ok(true))
          else if s.localPayload.value == payload then Step(s, Ok(false))
          else Refuse(s, DuplicateConfirmation)
  }

  function ReceiveStep(lib: Library, s: Session, isConfirmationRecord: bool, payload: Bytes): Step {
    if s.phase != Approved then Refuse(s, InvalidPhase)
    else if s.localPayload.None? then Refuse(s, LocalNotPublished)
    else if !isConfirmationRecord then Refuse(s, WrongRecordType)
    else
      match ParseAndVerify(lib, s.key, payload)
      case Err(code) => Refuse(s, code)
      case Ok(parsed) =>
        if parsed.unsigned.side != PeerOf(s.side) then Refuse(s, WrongSide)
        else if ContextOf(parsed.unsigned) != s.context then Refuse(s, ContextMismatch)
        else if s.peerPayload.None? then Step(s.(peerPayload := Some(payload)), Ok(true))
        else if s.peerPayload.value == payload then Step(s, Ok(false))
        else Refuse(s, DuplicateConfirmation)
  }

  function PeerOf(side: int): int {
    if side == 1 then 2 else 1
  }

  function ConsumeStep(s: Session): Step {
    if s.phase == Consumed then Step(s, Ok(false))
    else if s.phase != Approved then Refuse(s, InvalidPhase)
    else if s.peerPayload.None? then Refuse(s, PeerNotVerified)
    else Step(s.(consumeAcknowledged := true, phase := Consumed), Ok(true))
  }

  function CancelStep(s: Session): Step {
    match s.phase
    case Cancelled => Step(s, Ok(false))
    case Consumed => Refuse(s, InvalidPhase)
    case Expired => Refuse(s, InvalidPhase)
    case _ => Step(s.(phase := Cancelled), Ok(true))
  }

  function ExpireStep(s: Session): Step {
    match s.phase
    case Expired => Step(s, Ok(false))
    case Consumed => Refuse(s, InvalidPhase)
    case Cancelled => Refuse(s, InvalidPhase)
    case _ => Step(s.(phase := Expired), Ok(true))
  }

  /** A record of this side's own: its MAC verifies, and it carries the session's context. */
  predicate OwnRecord(lib: Library, s: Session, value: Signed) {
    Verify(lib, s.key, value).Ok? && value.unsigned.side == s.side && ContextOf(value.unsigned) == s.context
  }

  /** A payload of the peer: canonical, its MAC verifies, and it carries the opposite side and the same context. */
  predicate PeerRecord(lib: Library, s: Session, payload: Bytes) {
    var parsed := ParseAndVerify(lib, s.key, payload);
    && parsed.Ok?
    && lib.serialize(parsed.value) == payload
    && parsed.value.unsigned.side == PeerOf(s.side)
    && ContextOf(parsed.value.unsigned) == s.context
  }

  /** Handing in a record, one's own or the peer's. */
  datatype Handing = Own(value: Signed) | Peer(isConfirmationRecord: bool, payload: Bytes)

  function HandIn(lib: Library, s: Session, handing: Handing): Step {
    match handing
    case Own(value) => PublishStep(lib, s, value)
    case Peer(isConfirmationRecord, payload) => ReceiveStep(lib, s, isConfirmationRecord, payload)
  }

  function Verification(lib: Library, s: Session, handing: Handing): Result<Signed, ErrorCode> {
    match handing
    case Own(value) => Verify(lib, s.key, value)
    case Peer(_, payload) => ParseAndVerify(lib, s.key, payload)
  }

  /** What a refusal says is so: the phase, the record's own failing, its side or context, or another one before it. */
  predicate Justified(lib: Library, s: Session, handing: Handing, code: ErrorCode) {
    var verified := Verification(lib, s, handing);
    var side := if handing.Own? then s.side else PeerOf(s.side);
    || (verified.Err? && code == verified.error)
    || (
      match code
      case InvalidPhase => s.phase != Approved
      case LocalNotPublished => handing.Peer? && s.localPayload.None?
      case WrongRecordType => handing.Peer? && !handing.isConfirmationRecord
      case WrongSide => verified.Ok? && verified.value.unsigned.side != side
      case ContextMismatch => verified.Ok? && ContextOf(verified.value.unsigned) != s.context
      case DuplicateConfirmation =>
        if handing.Own? then s.localPayload.Some? && s.localPayload.value != lib.serialize(handing.value)
        else s.peerPayload.Some? && s.peerPayload.value != handing.payload
      case _ => false)
  }

  /** No record is refused for a reason that does not hold. */
  lemma RefusalsAreJustified(lib: Library, s: Session, handing: Handing)
    ensures HandIn(lib, s, handing).result.Err? ==> Justified(lib, s, handing, HandIn(lib, s, handing).result.error)
  {
  }

  /** What a session vouches for: everything it holds was verified, in the order approve, publish, verify, consume. */
  ghost predicate Vouches(lib: Library, s: Session) {
    && (s.localPayload.Some? ==>
      s.phase != PreApproval && exists value :: OwnRecord(lib, s, value) && s.localPayload.value == lib.serialize(value))
    && (s.peerPayload.Some? ==> s.localPayload.Some? && PeerRecord(lib, s, s.peerPayload.value))
    && (s.phase == Consumed <==> s.consumeAcknowledged)
    && (s.phase == Consumed ==> s.peerPayload.Some?)
  }

  class PairConfirmationSession {
    const lib: Library
    const side: int
    const key: Bytes
    const expected: Context
    var phase: Phase
    var localPayload: Option<Bytes>
    var peerPayload: Option<Bytes>
    var consumeAcknowledged: bool

    function State(): Session
      reads this
    {
      Session(side, key, expected, phase, localPayload, peerPayload, consumeAcknowledged)
    }

    ghost predicate Valid()
      reads this
    {
      Vouches(lib, State())
    }

    constructor (lib: Library, side: int, key: Bytes, expected: Context)
      requires side == 1 || side == 2
      requires |key| == 32
      ensures this.lib == lib && State() == Session(side, key, expected, PreApproval, None, None, false)
      ensures Valid()
    {
      this.lib, this.side, this.key, this.expected := lib, side, key, expected;
      phase, localPayload, peerPayload, consumeAcknowledged := PreApproval, None, None, false;
    }

    method Approve() returns (r: Result<bool, ErrorCode>)
      requires Valid()
      modifies this
      ensures Valid() && Step(State(), r) == ApproveStep(old(State()))
      ensures r.Ok? <==> old(phase) == PreApproval || old(phase) == Approved
      ensures r == Ok(true) <==> old(phase) == PreApproval
      ensures State() == old(State()).(phase := if r.Ok? then Approved else old(phase))
    {
      if phase == Approved {
        return Ok(false);
      }
      if phase != PreApproval {
        return Err(InvalidPhase);
      }
      phase := Approved;
      return Ok(true);
    }

    method PublishLocal(value: Signed) returns (r: Result<bool, ErrorCode>)
      requires Valid()
      modifies this
      ensures Valid()
      ensures r.Ok? <==>
        old(phase) == Approved && OwnRecord(lib, old(State()), value)
        && (old(localPayload).None? || old(localPayload.value) == lib.serialize(value))
      ensures r == Ok(true) <==> r.Ok? && old(localPayload).None?
      ensures State() == old(State()).(localPayload := if r.Ok? then Some(lib.serialize(value)) else old(localPayload))
      ensures Step(State(), r) == PublishStep(lib, old(State()), value)
    {
      if phase != Approved {
        return Err(InvalidPhase);
      }
      var parsed :- Verify(lib, key, value);
      if parsed.unsigned.side != side {
        return Err(WrongSide);
      }
      if ContextOf(parsed.unsigned) != expected {
        return Err(ContextMismatch);
      }
      var payload := lib.serialize(parsed);
      if localPayload.Some? {
        return if localPayload.value == payload then Ok(false) else Err(DuplicateConfirmation);
      }
      localPayload := Some(payload);
      return Ok(true);
    }

    method ReceivePeer(isConfirmationRecord: bool, payload: Bytes) returns (r: Result<bool, ErrorCode>)
      requires Valid()
      modifies this
      ensures Valid()
      ensures r.Ok? <==>
        old(phase) == Approved && old(localPayload).Some? && isConfirmationRecord && PeerRecord(lib, old(State()), payload)
        && (old(peerPayload).None? || old(peerPayload.value) == payload)
      ensures r == Ok(true) <==> r.Ok? && old(peerPayload).None?
      ensures State() == old(State()).(peerPayload := if r.Ok? then Some(payload) else old(peerPayload))
      ensures Step(State(), r) == ReceiveStep(lib, old(State()), isConfirmationRecord, payload)
    {
      if phase != Approved {
        return Err(InvalidPhase);
      }
      if localPayload.None? {
        return Err(LocalNotPublished);
      }
      if !isConfirmationRecord {
        return Err(WrongRecordType);
      }
      var parsed :- ParseAndVerify(lib, key, payload);
      if parsed.unsigned.side != PeerOf(side) {
        return Err(WrongSide);
      }
      if ContextOf(parsed.unsigned) != expected {
        return Err(ContextMismatch);
      }
      if peerPayload.Some? {
        return if peerPayload.value == payload then Ok(false) else Err(DuplicateConfirmation);
      }
      peerPayload := Some(payload);
      return Ok(true);
    }

    method Consume() returns (r: Result<bool, ErrorCode>)
      requires Valid()
      modifies this
      ensures Valid()
      ensures r.Ok? <==> old(phase) == Consumed || (old(phase) == Approved && old(peerPayload).Some?)
      ensures r == Ok(true) <==> old(phase) == Approved && old(peerPayload).Some?
      ensures r.Ok? ==>
        consumeAcknowledged && localPayload.Some? && peerPayload.Some? && PeerRecord(lib, State(), peerPayload.value)
      ensures State() == if r.Ok? then old(State()).(phase := Consumed, consumeAcknowledged := true) else old(State())
      ensures Step(State(), r) == ConsumeStep(old(State()))
    {
      if phase == Consumed {
        return Ok(false);
      }
      if phase != Approved {
        return Err(InvalidPhase);
      }
      if peerPayload.None? {
        return Err(PeerNotVerified);
      }
      consumeAcknowledged := true;
      phase := Consumed;
      return Ok(true);
    }

    method Cancel() returns (r: Result<bool, ErrorCode>)
      requires Valid()
      modifies this
      ensures Valid()
      ensures r.Ok? <==> old(phase) != Consumed && old(phase) != Expired
      ensures r == Ok(true) <==> old(phase) == PreApproval || old(phase) == Approved
      ensures State() == old(State()).(phase := if r.Ok? then Cancelled else old(phase))
      ensures Step(State(), r) == CancelStep(old(State()))
    {
      if phase == Cancelled {
        return Ok(false);
      }
      if phase == Consumed || phase == Expired {
        return Err(InvalidPhase);
      }
      phase := Cancelled;
      return Ok(true);
    }

    method Expire() returns (r: Result<bool, ErrorCode>)
      requires Valid()
      modifies this
      ensures Valid()
      ensures r.Ok? <==> old(phase) != Consumed && old(phase) != Cancelled
      ensures r == Ok(true) <==> old(phase) == PreApproval || old(phase) == Approved
      ensures State() == old(State()).(phase := if r.Ok? then Expired else old(phase))
      ensures Step(State(), r) == ExpireStep(old(State()))
    {
      if phase == Expired {
        return Ok(false);
      }
      if phase == Consumed || phase == Cancelled {
        return Err(InvalidPhase);
      }
      phase := Expired;
      return Ok(true);
    }
  }
}

/**
 * A host and a remote session joined by a mailbox the adversary controls: it delivers any bytes it
 * likes, any number of times, to either side. It cannot make a MAC it has not seen.
 */
module ConfirmationExchange {
  import opened Results
  import opened ByteStrings
  import opened SigningInputs
  import opened PairConfirmations

  /** At which step of the run each thing first happened to a side, and what it published. */
  datatype History = History(
    approvedAt: Option<nat>, publishedAt: Option<nat>, verifiedAt: Option<nat>, consumedAt: Option<nat>,
    published: Option<Confirmation>)

  datatype Party = Party(session: Session, history: History)

  datatype Exchange = Exchange(host: Party, remote: Party, now: nat)

  datatype Action =
    | DoApprove
    | DoPublish(nonce: Bytes)
    | DoReceive(isConfirmationRecord: bool, payload: Bytes)
    | DoConsume
    | DoCancel
    | DoExpire

  /** One action of the party on `side` (1 host, 2 remote). */
  datatype Move = Move(side: int, action: Action)

  function At(x: Exchange, side: int): Party {
    if side == 1 then x.host else x.remote
  }

  /** Publishing is creating the record from one's own side and context and handing it to `publishLocal`. */
  function PublishOwn(lib: Library, p: Party, nonce: Bytes, now: nat): Party {
    var unsigned := Unsigned(p.session.context, p.session.side, nonce);
    match Create(lib, p.session.key, unsigned)
    case None => p
    case Some(signed) =>
      var step := PublishStep(lib, p.session, signed);
      if step.result != Ok(true) then Party(step.session, p.history)
      else Party(step.session, p.history.(publishedAt := Some(now), published := Some(unsigned)))
  }

  function Act(lib: Library, p: Party, action: Action, now: nat): Party {
    match action
    case DoApprove =>
      var step := ApproveStep(p.session);
      Party(step.session, if step.result == Ok(true) then p.history.(approvedAt := Some(now)) else p.history)
    case DoPublish(nonce) => PublishOwn(lib, p, nonce, now)
    case DoReceive(isRecord, payload) =>
      var step := ReceiveStep(lib, p.session, isRecord, payload);
      Party(step.session, if step.result == Ok(true) then p.history.(verifiedAt := Some(now)) else p.history)
    case DoConsume =>
      var step := ConsumeStep(p.session);
      Party(step.session, if step.result == Ok(true) then p.history.(consumedAt := Some(now)) else p.history)
    case DoCancel => Party(CancelStep(p.session).session, p.history)
    case DoExpire => Party(ExpireStep(p.session).session, p.history)
  }

  function Next(lib: Library, x: Exchange, move: Move): Exchange {
    var moved := Act(lib, At(x, move.side), move.action, x.now);
    if move.side == 1 then Exchange(moved, x.remote, x.now + 1) else Exchange(x.host, moved, x.now + 1)
  }

  /** The MAC on `input` under `key` was made and published by the party on `side`. */
  ghost predicate MadeBy(lib: Library, x: Exchange, side: int, key: Bytes, input: Option<Bytes>) {
    var p := At(x, side);
    p.session.key == key && p.history.published.Some? && lib.macInput(p.history.published.value) == input
  }

  /** A record whose MAC verifies under the receiver's key carries a MAC that one of the sides published. */
  ghost predicate Unforged(lib: Library, x: Exchange, move: Move) {
    move.action.DoReceive? && lib.parse(move.action.payload).Ok? ==>
      var key := At(x, move.side).session.key;
      var received := lib.parse(move.action.payload).value;
      var input := lib.macInput(received.unsigned);
      input.Some? && lib.mac(key, input.value) == received.mac ==> MadeBy(lib, x, 1, key, input) || MadeBy(lib, x, 2, key, input)
  }

  /** A run against which MACs are unforgeable. */
  ghost predicate HonestRun(lib: Library, x: Exchange, moves: seq<Move>)
    decreases |moves|
  {
    moves == [] || (
      && 1 <= moves[0].side <= 2
      && Unforged(lib, x, moves[0])
      && HonestRun(lib, Next(lib, x, moves[0]), moves[1..]))
  }

  function Run(lib: Library, x: Exchange, moves: seq<Move>): Exchange
    decreases |moves|
  {
    if moves == [] then x else Run(lib, Next(lib, x, moves[0]), moves[1..])
  }

  function NewParty(side: int, key: Bytes, context: Context): Party {
    Party(Session(side, key, context, PreApproval, None, None, false), History(None, None, None, None, None))
  }

  predicate Fresh(x: Exchange) {
    && x.host == NewParty(1, x.host.session.key, x.host.session.context)
    && x.remote == NewParty(2, x.remote.session.key, x.remote.session.context)
  }

  predicate Earlier(first: Option<nat>, second: Option<nat>) {
    first.Some? && second.Some? && first.value < second.value
  }

  /** What a party did by itself is consistent with its session, and lies in the past. */
  ghost predicate PartyInv(lib: Library, p: Party, side: int, now: nat) {
    var s, h := p.session, p.history;
    && s.side == side
    && (s.phase == PreApproval ==> h.approvedAt == None && h.published == None)
    && (s.phase == Approved ==> h.approvedAt.Some?)
    && (h.approvedAt.Some? ==> h.approvedAt.value < now)
    && (h.published.Some? <==> h.publishedAt.Some?)
    && (h.published.Some? <==> s.localPayload.Some?)
    && (h.published.Some? ==>
      && Earlier(h.approvedAt, h.publishedAt) && h.publishedAt.value < now
      && h.published.value.side == side && ContextOf(h.published.value) == s.context
      && Create(lib, s.key, h.published.value).Some?
      && s.localPayload.value == lib.serialize(Create(lib, s.key, h.published.value).value))
    && (s.peerPayload.Some? ==> h.verifiedAt.Some? && h.verifiedAt.value < now)
    && (s.phase == Consumed ==> s.peerPayload.Some? && s.consumeAcknowledged && Earlier(h.verifiedAt, h.consumedAt))
  }

  /**
   * The two sides are in agreement as `p` sees it: both approved, both published, then `p` verified;
   * key and all eight context fields are the same; what `p` accepted is what the peer published.
   */
  predicate Agreement(p: Party, peer: Party) {
    && Earlier(p.history.approvedAt, p.history.publishedAt)
    && Earlier(p.history.publishedAt, p.history.verifiedAt)
    && Earlier(peer.history.approvedAt, peer.history.publishedAt)
    && Earlier(peer.history.publishedAt, p.history.verifiedAt)
    && p.session.key == peer.session.key
    && p.session.context == peer.session.context
    && p.session.peerPayload == peer.session.localPayload
    && peer.history.published.Some? && peer.history.published.value.side == PeerOf(p.session.side)
  }

  ghost predicate Inv(lib: Library, x: Exchange) {
    && PartyInv(lib, x.host, 1, x.now) && PartyInv(lib, x.remote, 2, x.now)
    && (x.host.session.peerPayload.Some? ==> Agreement(x.host, x.remote))
    && (x.remote.session.peerPayload.Some? ==> Agreement(x.remote, x.host))
  }

  /** An accepted peer record is, byte for byte, the one the peer published. */
  lemma AcceptedIsPublished(lib: Library, x: Exchange, side: int, isRecord: bool, payload: Bytes)
    requires 1 <= side <= 2 && Inv(lib, x) && Unforged(lib, x, Move(side, DoReceive(isRecord, payload)))
    requires InputsInjective(lib)
    requires ReceiveStep(lib, At(x, side).session, isRecord, payload).result.Ok?
    ensures At(x, side).session.key == At(x, PeerOf(side)).session.key
    ensures At(x, side).session.context == At(x, PeerOf(side)).session.context
    ensures At(x, PeerOf(side)).session.localPayload == Some(payload)
  {
    var key := At(x, side).session.key;
    var received := lib.parse(payload).value;
    var input := lib.macInput(received.unsigned);
    var publisher := if MadeBy(lib, x, 1, key, input) then 1 else 2;
    var published := At(x, publisher).history.published.value;
    assert lib.macInput(published) == lib.macInput(received.unsigned);
    assert publisher == PeerOf(side);
  }

  lemma PublishKeepsParty(lib: Library, p: Party, side: int, nonce: Bytes, now: nat)
    requires PartyInv(lib, p, side, now)
    ensures PartyInv(lib, PublishOwn(lib, p, nonce, now), side, now + 1)
    ensures Settled(p, PublishOwn(lib, p, nonce, now))
  {
    var unsigned := Unsigned(p.session.context, p.session.side, nonce);
    assert ContextOf(unsigned) == p.session.context;
  }

  /** Nothing a party has published or verified changes afterwards, nor does who it is. */
  predicate Settled(p: Party, q: Party) {
    && q.session.side == p.session.side && q.session.key == p.session.key && q.session.context == p.session.context
    && (p.history.published.Some? ==>
      && q.history.published == p.history.published && q.history.publishedAt == p.history.publishedAt
      && q.history.approvedAt == p.history.approvedAt && q.session.localPayload == p.session.localPayload)
    && (p.session.peerPayload.Some? ==>
      && q.session.peerPayload == p.session.peerPayload && q.history.verifiedAt == p.history.verifiedAt)
  }

  lemma PartyStep(lib: Library, p: Party, side: int, action: Action, now: nat)
    requires PartyInv(lib, p, side, now)
    ensures PartyInv(lib, Act(lib, p, action, now), side, now + 1)
    ensures Settled(p, Act(lib, p, action, now))
  {
    match action
    case DoApprove =>
    case DoPublish(nonce) => PublishKeepsParty(lib, p, side, nonce, now);
    case DoReceive(isRecord, payload) => ReceiveKeepsParty(lib, p, side, isRecord, payload, now);
    case DoConsume =>
    case DoCancel =>
    case DoExpire =>
  }

  lemma ReceiveKeepsParty(lib: Library, p: Party, side: int, isRecord: bool, payload: Bytes, now: nat)
    requires PartyInv(lib, p, side, now)
    ensures PartyInv(lib, Act(lib, p, DoReceive(isRecord, payload), now), side, now + 1)
    ensures Settled(p, Act(lib, p, DoReceive(isRecord, payload), now))
  {
  }

  lemma AgreementKept(p: Party, peer: Party, p': Party, peer': Party)
    requires Agreement(p, peer) && p.session.peerPayload.Some? && p.history.published.Some?
    requires Settled(p, p') && Settled(peer, peer')
    ensures Agreement(p', peer')
  {
  }

  /** The move of a party that verifies its peer now, and had not before. */
  lemma VerifyingAgrees(lib: Library, x: Exchange, side: int, isRecord: bool, payload: Bytes)
    requires Inv(lib, x) && 1 <= side <= 2 && Unforged(lib, x, Move(side, DoReceive(isRecord, payload)))
    requires InputsInjective(lib)
    requires At(x, side).session.peerPayload.None?
    requires ReceiveStep(lib, At(x, side).session, isRecord, payload).result == Ok(true)
    ensures Agreement(Act(lib, At(x, side), DoReceive(isRecord, payload), x.now), At(x, PeerOf(side)))
  {
    AcceptedIsPublished(lib, x, side, isRecord, payload);
  }

  /** Only receiving can make `peerPayload` appear. */
  lemma OnlyReceiveVerifies(lib: Library, p: Party, action: Action, now: nat)
    requires p.session.peerPayload.None? && Act(lib, p, action, now).session.peerPayload.Some?
    ensures action.DoReceive?
    ensures ReceiveStep(lib, p.session, action.isConfirmationRecord, action.payload).result == Ok(true)
  {
  }

  lemma ViewsKept(lib: Library, x: Exchange, move: Move)
    requires Inv(lib, x) && 1 <= move.side <= 2 && Unforged(lib, x, move) && InputsInjective(lib)
    ensures var q, peer := Act(lib, At(x, move.side), move.action, x.now), At(x, PeerOf(move.side));
      && (q.session.peerPayload.Some? ==> Agreement(q, peer))
      && (peer.session.peerPayload.Some? ==> Agreement(peer, q))
  {
    var p, peer := At(x, move.side), At(x, PeerOf(move.side));
    var q := Act(lib, p, move.action, x.now);
    PartyStep(lib, p, move.side, move.action, x.now);
    if p.session.peerPayload.Some? {
      AgreementKept(p, peer, q, peer);
    } else if q.session.peerPayload.Some? {
      OnlyReceiveVerifies(lib, p, move.action, x.now);
      VerifyingAgrees(lib, x, move.side, move.action.isConfirmationRecord, move.action.payload);
    }
    if peer.session.peerPayload.Some? {
      AgreementKept(peer, p, peer, q);
    }
  }

  lemma WaitingKeepsParty(lib: Library, p: Party, side: int, now: nat)
    requires PartyInv(lib, p, side, now)
    ensures PartyInv(lib, p, side, now + 1)
  {
  }

  lemma BothParties(lib: Library, x: Exchange, side: int)
    requires 1 <= side <= 2 && Inv(lib, x)
    ensures PartyInv(lib, At(x, side), side, x.now) && PartyInv(lib, At(x, PeerOf(side)), PeerOf(side), x.now)
  {
  }

  lemma NextParties(lib: Library, x: Exchange, move: Move)
    requires 1 <= move.side <= 2
    ensures var y := Next(lib, x, move);
      && At(y, move.side) == Act(lib, At(x, move.side), move.action, x.now)
      && At(y, PeerOf(move.side)) == At(x, PeerOf(move.side)) && y.now == x.now + 1
  {
  }

  lemma StepKeepsParties(lib: Library, x: Exchange, move: Move)
    requires Inv(lib, x) && 1 <= move.side <= 2
    ensures var y, peer := Next(lib, x, move), PeerOf(move.side);
      PartyInv(lib, At(y, move.side), move.side, y.now) && PartyInv(lib, At(y, peer), peer, y.now)
  {
    BothParties(lib, x, move.side);
    NextParties(lib, x, move);
    PartyStep(lib, At(x, move.side), move.side, move.action, x.now);
    WaitingKeepsParty(lib, At(x, PeerOf(move.side)), PeerOf(move.side), x.now);
  }

  lemma StepKeepsInv(lib: Library, x: Exchange, move: Move)
    requires Inv(lib, x) && 1 <= move.side <= 2 && Unforged(lib, x, move) && InputsInjective(lib)
    ensures Inv(lib, Next(lib, x, move))
  {
    ViewsKept(lib, x, move);
    StepKeepsParties(lib, x, move);
    NextParties(lib, x, move);
    Assembled(lib, Next(lib, x, move), move.side);
  }

  /** The invariant, told from one side. */
  lemma Assembled(lib: Library, y: Exchange, side: int)
    requires 1 <= side <= 2
    requires PartyInv(lib, At(y, side), side, y.now) && PartyInv(lib, At(y, PeerOf(side)), PeerOf(side), y.now)
    requires At(y, side).session.peerPayload.Some? ==> Agreement(At(y, side), At(y, PeerOf(side)))
    requires At(y, PeerOf(side)).session.peerPayload.Some? ==> Agreement(At(y, PeerOf(side)), At(y, side))
    ensures Inv(lib, y)
  {
  }

  lemma {:induction false} RunKeepsInv(lib: Library, x: Exchange, moves: seq<Move>)
    requires Inv(lib, x) && HonestRun(lib, x, moves) && InputsInjective(lib)
    ensures Inv(lib, Run(lib, x, moves))
    decreases |moves|
  {
    if moves != [] {
      StepKeepsInv(lib, x, moves[0]);
      RunKeepsInv(lib, Next(lib, x, moves[0]), moves[1..]);
    }
  }

  /**
   * Whatever the mailbox does: a side that reached `consumed` had approved, published, and only then
   * verified its peer; the peer had approved and published a record for the opposite side; key and all
   * eight context fields agree; and the accepted bytes are exactly the bytes the peer published.
   */
  lemma ConsumedMeansAgreement(lib: Library, x: Exchange, moves: seq<Move>, side: int)
    requires UsesWireEncoding(lib)
    requires Fresh(x) && HonestRun(lib, x, moves) && 1 <= side <= 2
    requires At(Run(lib, x, moves), side).session.phase == Consumed
    ensures Agreement(At(Run(lib, x, moves), side), At(Run(lib, x, moves), PeerOf(side)))
    ensures Earlier(At(Run(lib, x, moves), side).history.verifiedAt, At(Run(lib, x, moves), side).history.consumedAt)
  {
    WireInputsInjective(lib);
    RunKeepsInv(lib, x, moves);
  }

  predicate Terminal(phase: Phase) {
    phase == Consumed || phase == Cancelled || phase == Expired
  }

  /** Terminal phases are never left, whatever follows and whoever forges what. */
  lemma {:induction false} TerminalIsFinal(lib: Library, x: Exchange, moves: seq<Move>, side: int)
    requires 1 <= side <= 2 && Terminal(At(x, side).session.phase)
    ensures At(Run(lib, x, moves), side).session == At(x, side).session
    decreases |moves|
  {
    if moves != [] {
      TerminalIsFinal(lib, Next(lib, x, moves[0]), moves[1..], side);
    }
  }

  predicate RoundTrips(lib: Library, value: Option<Signed>) {
    && value.Some? && |value.value.mac| == 32
    && lib.parse(lib.serialize(value.value)) == Ok(value.value)
    && |lib.serialize(value.value)| <= PAYLOAD_MAX_BYTES
  }

  /**
   * Two honest sides with the same key and context both reach `consumed` when the mailbox delivers each
   * published record to the other side; and that run is one in which no MAC is forged.
   */
  lemma HonestDeliveryCompletes(lib: Library, key: Bytes, context: Context, hostNonce: Bytes, remoteNonce: Bytes)
    returns (moves: seq<Move>)
    requires RoundTrips(lib, Create(lib, key, Unsigned(context, 1, hostNonce)))
    requires RoundTrips(lib, Create(lib, key, Unsigned(context, 2, remoteNonce)))
    ensures var start := Exchange(NewParty(1, key, context), NewParty(2, key, context), 0);
      && HonestRun(lib, start, moves)
      && Run(lib, start, moves).host.session.phase == Consumed
      && Run(lib, start, moves).remote.session.phase == Consumed
  {
    var fromHost := lib.serialize(Create(lib, key, Unsigned(context, 1, hostNonce)).value);
    var fromRemote := lib.serialize(Create(lib, key, Unsigned(context, 2, remoteNonce)).value);
    var m0, m1, m2, m3 := Move(1, DoApprove), Move(2, DoApprove), Move(1, DoPublish(hostNonce)), Move(2, DoPublish(remoteNonce));
    var m4, m5, m6, m7 :=
      Move(1, DoReceive(true, fromRemote)), Move(2, DoReceive(true, fromHost)), Move(1, DoConsume), Move(2, DoConsume);
    var x0 := Exchange(NewParty(1, key, context), NewParty(2, key, context), 0);
    var x1 := Next(lib, x0, m0);
    var x2 := Next(lib, x1, m1);
    var x3 := Next(lib, x2, m2);
    var x4 := Next(lib, x3, m3);
    assert x4.host.session.localPayload == Some(fromHost) && x4.remote.session.localPayload == Some(fromRemote);
    assert x4.host.history.published == Some(Unsigned(context, 1, hostNonce));
    assert x4.remote.history.published == Some(Unsigned(context, 2, remoteNonce));
    var x5 := Next(lib, x4, m4);
    assert MadeBy(lib, x4, 2, key, lib.macInput(Unsigned(context, 2, remoteNonce)));
    var x6 := Next(lib, x5, m5);
    assert MadeBy(lib, x5, 1, key, lib.macInput(Unsigned(context, 1, hostNonce)));
    var x7 := Next(lib, x6, m6);
    var x8 := Next(lib, x7, m7);
    assert x8.host.session.phase == Consumed && x8.remote.session.phase == Consumed;
    moves := [];
    moves := Prepend(lib, x7, m7, moves);
    moves := Prepend(lib, x6, m6, moves);
    moves := Prepend(lib, x5, m5, moves);
    moves := Prepend(lib, x4, m4, moves);
    moves := Prepend(lib, x3, m3, moves);
    moves := Prepend(lib, x2, m2, moves);
    moves := Prepend(lib, x1, m1, moves);
    moves := Prepend(lib, x0, m0, moves);
  }

  lemma Prepend(lib: Library, x: Exchange, move: Move, moves: seq<Move>) returns (all: seq<Move>)
    requires 1 <= move.side <= 2 && Unforged(lib, x, move) && HonestRun(lib, Next(lib, x, move), moves)
    ensures HonestRun(lib, x, all) && Run(lib, x, all) == Run(lib, Next(lib, x, move), moves)
  {
    all := [move] + moves;
    assert all[0] == move && all[1..] == moves;
  }
}
