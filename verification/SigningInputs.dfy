/**
 * Everything the remote contracts sign or MAC: control requests and responses, activation requests and
 * certificates, pair records, revocations, and pair confirmations. Each input is one length-prefixed
 * tuple behind its own domain string. Digests (SHA-256, canonical CBOR) enter as the bytes they are.
 */
module SigningInputs {
  import opened Results
  import opened ByteStrings
  import opened LengthPrefixed

  datatype ControlRequest = ControlRequest(
    httpMethod: string, pathname: string, bodyHash: Bytes, major: int, minor: int, certificateHash: Bytes,
    serial: Bytes, credentialEpoch: int, installationKey: Bytes, workerKeyId: string, timestamp: int, nonce: Bytes)

  /** Begin or poll: the method and the pathname are fixed by the class. */
  datatype Activation = Activation(bodyHash: Bytes, installationKey: Bytes, timestamp: int, nonce: Bytes)

  datatype ControlResponse = ControlResponse(
    pathname: string, status: int, bodyHash: Bytes, workerKeyId: string, timestamp: int, nonce: Bytes,
    requestBinding: Bytes)

  datatype PairRecord = PairRecord(
    major: int, minor: int, pairId: Bytes, recordType: int, side: int, generation: int, sequence: int,
    timestamp: int, nonce: Bytes, payloadHash: Bytes)

  /** The trust both sides put in each other when a revocation is authenticated. */
  datatype Trust = Trust(hostBundleHash: Bytes, remoteBundleHash: Bytes, hostTrustEpoch: int, remoteTrustEpoch: int)

  datatype Revocation = Revocation(pairId: Bytes, side: int, epoch: int, reason: string, trust: Trust, nonce: Bytes)

  datatype RevocationAck = RevocationAck(pairId: Bytes, side: int, epoch: int, trust: Trust, nonce: Bytes)

  datatype Confirmation = Confirmation(
    invitationId: Bytes, invitationGeneration: int, pairId: Bytes, side: int, transcriptHash: Bytes,
    channelBinding: Bytes, hostBundleHash: Bytes, remoteBundleHash: Bytes, approvalContextHash: Bytes, nonce: Bytes)

  datatype Input =
    | RequestInput(request: ControlRequest)
    | BeginInput(begin: Activation)
    | PollInput(poll: Activation)
    | ResponseInput(response: ControlResponse)
    | CertificateInput(unsignedCbor: Bytes)
    | RecordInput(record: PairRecord)
    | RevocationInput(revocation: Revocation)
    | RevocationAckInput(ack: RevocationAck)
    | ConfirmationInput(confirmation: Confirmation)

  // ---- what each encoder demands -------------------------------------------------------------------

  predicate IsUInt16(value: int) { 0 <= value <= UINT16_MAX }

  predicate IsUInt64(value: int) { 0 <= value <= UINT64_MAX }

  predicate ValidMethod(text: string) {
    1 <= |text| <= 16 && IsAscii(text) && forall i | 0 <= i < |text| :: 'A' <= text[i] <= 'Z'
  }

  predicate IsPathCharacter(c: char) {
    '!' <= c <= '~' && c != '?' && c != '#' && c != '%' && c != '\\'
  }

  predicate ValidPathname(text: string) {
    1 <= |text| <= 512 && IsAscii(text) && text[0] == '/' && forall i | 0 <= i < |text| :: IsPathCharacter(text[i])
  }

  predicate IsAlphanumeric(c: char) {
    'A' <= c <= 'Z' || 'a' <= c <= 'z' || '0' <= c <= '9'
  }

  predicate IsKeyIdCharacter(c: char) {
    IsAlphanumeric(c) || c == '.' || c == '_' || c == '-'
  }

  predicate ValidWorkerKeyId(text: string) {
    && 1 <= |text| <= 64 && IsAscii(text)
    && IsAlphanumeric(text[0]) && forall i | 0 <= i < |text| :: IsKeyIdCharacter(text[i])
  }

  predicate ValidRequest(r: ControlRequest) {
    && ValidMethod(r.httpMethod) && ValidPathname(r.pathname) && ValidWorkerKeyId(r.workerKeyId)
    && |r.bodyHash| == 32 && |r.certificateHash| == 32 && |r.installationKey| == 32
    && |r.serial| == 16 && |r.nonce| == 16
    && IsUInt16(r.major) && IsUInt16(r.minor) && IsUInt64(r.credentialEpoch) && IsUInt64(r.timestamp)
  }

  predicate ValidActivation(a: Activation) {
    |a.bodyHash| == 32 && |a.installationKey| == 32 && IsUInt64(a.timestamp) && |a.nonce| == 16
  }

  predicate ValidResponse(r: ControlResponse) {
    && ValidPathname(r.pathname) && 100 <= r.status <= 599 && ValidWorkerKeyId(r.workerKeyId)
    && |r.bodyHash| == 32 && IsUInt64(r.timestamp) && |r.nonce| == 16 && |r.requestBinding| == 32
  }

  predicate ValidRecord(r: PairRecord) {
    && IsUInt16(r.major) && IsUInt16(r.minor) && |r.pairId| == 16 && 1 <= r.recordType <= 9 && 1 <= r.side <= 2
    && IsUInt64(r.generation) && IsUInt64(r.sequence) && IsUInt64(r.timestamp)
    && |r.nonce| == 16 && |r.payloadHash| == 32
  }

  predicate ValidTrust(t: Trust) {
    && |t.hostBundleHash| == 32 && |t.remoteBundleHash| == 32
    && IsUInt64(t.hostTrustEpoch) && IsUInt64(t.remoteTrustEpoch)
  }

  predicate ValidRevocation(r: Revocation) {
    && |r.pairId| == 16 && 1 <= r.side <= 2 && IsUInt64(r.epoch) && IsAscii(r.reason) && |r.reason| <= UINT32_MAX
    && ValidTrust(r.trust) && |r.nonce| == 16
  }

  predicate ValidRevocationAck(r: RevocationAck) {
    |r.pairId| == 16 && 1 <= r.side <= 2 && IsUInt64(r.epoch) && ValidTrust(r.trust) && |r.nonce| == 16
  }

  predicate ValidConfirmation(c: Confirmation) {
    && |c.invitationId| == 16 && IsUInt64(c.invitationGeneration) && |c.pairId| == 16 && 1 <= c.side <= 2
    && |c.transcriptHash| == 32 && |c.channelBinding| == 32 && |c.hostBundleHash| == 32
    && |c.remoteBundleHash| == 32 && |c.approvalContextHash| == 32 && |c.nonce| == 16
  }

  predicate Valid(input: Input) {
    match input
    case RequestInput(request) => ValidRequest(request)
    case BeginInput(begin) => ValidActivation(begin)
    case PollInput(poll) => ValidActivation(poll)
    case ResponseInput(response) => ValidResponse(response)
    case CertificateInput(unsignedCbor) => |unsignedCbor| <= UINT32_MAX
    case RecordInput(record) => ValidRecord(record)
    case RevocationInput(revocation) => ValidRevocation(revocation)
    case RevocationAckInput(ack) => ValidRevocationAck(ack)
    case ConfirmationInput(confirmation) => ValidConfirmation(confirmation)
  }

  // ---- the fields behind the domain ----------------------------------------------------------------

  function ProtocolBytes(major: int, minor: int): (bytes: Bytes)
    requires IsUInt16(major) && IsUInt16(minor)
    ensures |bytes| == 4 && ReadUInt16(bytes, 0) == major && ReadUInt16(bytes, 2) == minor
  {
    UInt16(major) + UInt16(minor)
  }

  function RequestFields(r: ControlRequest): (fields: seq<Bytes>)
    requires ValidRequest(r)
    ensures Encodable(fields)
  {
    [AsciiBytes(r.httpMethod), AsciiBytes(r.pathname), r.bodyHash, ProtocolBytes(r.major, r.minor), r.certificateHash,
     r.serial, UInt64(r.credentialEpoch), r.installationKey, AsciiBytes(r.workerKeyId), UInt64(r.timestamp), r.nonce]
  }

  function ActivationFields(pathname: string, a: Activation): (fields: seq<Bytes>)
    requires ValidActivation(a) && |pathname| <= 512
    ensures Encodable(fields)
  {
    [AsciiBytes("POST"), AsciiBytes(pathname), a.bodyHash, ProtocolBytes(1, 0), a.installationKey,
     UInt64(a.timestamp), a.nonce]
  }

  function ResponseFields(r: ControlResponse): (fields: seq<Bytes>)
    requires ValidResponse(r)
    ensures Encodable(fields)
  {
    [AsciiBytes(r.pathname), UInt16(r.status), r.bodyHash, ProtocolBytes(1, 0), AsciiBytes(r.workerKeyId),
     UInt64(r.timestamp), r.nonce, r.requestBinding]
  }

  function RecordFields(r: PairRecord): (fields: seq<Bytes>)
    requires ValidRecord(r)
    ensures Encodable(fields)
  {
    [ProtocolBytes(r.major, r.minor), r.pairId, [r.recordType], [r.side], UInt64(r.generation), UInt64(r.sequence),
     UInt64(r.timestamp), r.nonce, r.payloadHash]
  }

  function RevocationFields(r: Revocation): (fields: seq<Bytes>)
    requires ValidRevocation(r)
    ensures Encodable(fields)
  {
    [r.pairId, [r.side], UInt64(r.epoch), AsciiBytes(r.reason), r.trust.hostBundleHash, r.trust.remoteBundleHash,
     UInt64(r.trust.hostTrustEpoch), UInt64(r.trust.remoteTrustEpoch), r.nonce]
  }

  function RevocationAckFields(r: RevocationAck): (fields: seq<Bytes>)
    requires ValidRevocationAck(r)
    ensures Encodable(fields)
  {
    [r.pairId, [r.side], UInt64(r.epoch), r.trust.hostBundleHash, r.trust.remoteBundleHash,
     UInt64(r.trust.hostTrustEpoch), UInt64(r.trust.remoteTrustEpoch), r.nonce]
  }

  function ConfirmationFields(c: Confirmation): (fields: seq<Bytes>)
    requires ValidConfirmation(c)
    ensures Encodable(fields)
  {
    [c.invitationId, UInt64(c.invitationGeneration), c.pairId, [c.side], c.transcriptHash, c.channelBinding,
     c.hostBundleHash, c.remoteBundleHash, c.approvalContextHash, c.nonce]
  }

  function Fields(input: Input): (fields: seq<Bytes>)
    requires Valid(input)
    ensures Encodable(fields)
  {
    match input
    case RequestInput(request) => RequestFields(request)
    case BeginInput(begin) => ActivationFields("/v1/activation/challenges", begin)
    case PollInput(poll) => ActivationFields("/v1/activation/poll", poll)
    case ResponseInput(response) => ResponseFields(response)
    case CertificateInput(unsignedCbor) => [unsignedCbor]
    case RecordInput(record) => RecordFields(record)
    case RevocationInput(revocation) => RevocationFields(revocation)
    case RevocationAckInput(ack) => RevocationAckFields(ack)
    case ConfirmationInput(confirmation) => ConfirmationFields(confirmation)
  }

  function DomainText(input: Input): (text: string)
    ensures 25 <= |text| <= 32
  {
    match input
    case RequestInput(_) => "waifus/control-request/v1"
    case BeginInput(_) => "waifus/activation-begin/v1"
    case PollInput(_) => "waifus/activation-poll/v1"
    case ResponseInput(_) => "waifus/control-response/v1"
    case CertificateInput(_) => "waifus/activation-certificate/v1"
    case RecordInput(_) => "waifus/pair-control-record/v1"
    case RevocationInput(_) => "waifus/pair-revocation/v1"
    case RevocationAckInput(_) => "waifus/pair-revocation-ack/v1"
    case ConfirmationInput(_) => "waifus/pair-confirmation/v1"
  }

  /** None where the source throws on invalid fields. */
  function Encode(input: Input): Option<Bytes> {
    if Valid(input) then Some(LengthPrefix(AsciiBytes(DomainText(input))) + Concat(Fields(input))) else None
  }

  // ---- injectivity ---------------------------------------------------------------------------------

  predicate SameKind(a: Input, b: Input) {
    && a.RequestInput? == b.RequestInput? && a.BeginInput? == b.BeginInput? && a.PollInput? == b.PollInput?
    && a.ResponseInput? == b.ResponseInput? && a.CertificateInput? == b.CertificateInput?
    && a.RecordInput? == b.RecordInput? && a.RevocationInput? == b.RevocationInput?
    && a.RevocationAckInput? == b.RevocationAckInput? && a.ConfirmationInput? == b.ConfirmationInput?
  }

  /** The domains differ in their length or in one of two letters. */
  lemma DomainSeparation(a: Input, b: Input)
    requires AsciiBytes(DomainText(a)) == AsciiBytes(DomainText(b))
    ensures SameKind(a, b)
  {
    var s, t := AsciiBytes(DomainText(a)), AsciiBytes(DomainText(b));
    assert |s| == |t| && s[7] == t[7] && s[12] == t[12];
  }

  lemma RequestInjective(a: ControlRequest, b: ControlRequest)
    requires ValidRequest(a) && ValidRequest(b) && RequestFields(a) == RequestFields(b)
    ensures a == b
  {
    var f, g := RequestFields(a), RequestFields(b);
    assert f[0] == g[0] && f[1] == g[1] && f[2] == g[2] && f[3] == g[3] && f[4] == g[4] && f[5] == g[5];
    assert f[6] == g[6] && f[7] == g[7] && f[8] == g[8] && f[9] == g[9] && f[10] == g[10];
    AsciiBytesInjective(a.httpMethod, b.httpMethod);
    AsciiBytesInjective(a.pathname, b.pathname);
    AsciiBytesInjective(a.workerKeyId, b.workerKeyId);
  }

  lemma ActivationInjective(pathname: string, a: Activation, b: Activation)
    requires ValidActivation(a) && ValidActivation(b) && |pathname| <= 512
    requires ActivationFields(pathname, a) == ActivationFields(pathname, b)
    ensures a == b
  {
    var f, g := ActivationFields(pathname, a), ActivationFields(pathname, b);
    assert f[2] == g[2] && f[4] == g[4] && f[5] == g[5] && f[6] == g[6];
  }

  lemma ResponseInjective(a: ControlResponse, b: ControlResponse)
    requires ValidResponse(a) && ValidResponse(b) && ResponseFields(a) == ResponseFields(b)
    ensures a == b
  {
    var f, g := ResponseFields(a), ResponseFields(b);
    assert f[0] == g[0] && f[1] == g[1] && f[2] == g[2] && f[4] == g[4] && f[5] == g[5] && f[6] == g[6] && f[7] == g[7];
    assert f[1][0] == g[1][0] && f[1][1] == g[1][1];
    AsciiBytesInjective(a.pathname, b.pathname);
    AsciiBytesInjective(a.workerKeyId, b.workerKeyId);
  }

  lemma RecordInjective(a: PairRecord, b: PairRecord)
    requires ValidRecord(a) && ValidRecord(b) && RecordFields(a) == RecordFields(b)
    ensures a == b
  {
    var f, g := RecordFields(a), RecordFields(b);
    assert f[0] == g[0] && f[1] == g[1] && f[2] == g[2] && f[3] == g[3] && f[4] == g[4];
    assert f[5] == g[5] && f[6] == g[6] && f[7] == g[7] && f[8] == g[8];
    assert f[2][0] == g[2][0] && f[3][0] == g[3][0];
  }

  lemma RevocationInjective(a: Revocation, b: Revocation)
    requires ValidRevocation(a) && ValidRevocation(b) && RevocationFields(a) == RevocationFields(b)
    ensures a == b
  {
    var f, g := RevocationFields(a), RevocationFields(b);
    assert f[0] == g[0] && f[1] == g[1] && f[2] == g[2] && f[3] == g[3] && f[4] == g[4];
    assert f[5] == g[5] && f[6] == g[6] && f[7] == g[7] && f[8] == g[8];
    assert f[1][0] == g[1][0];
    AsciiBytesInjective(a.reason, b.reason);
  }

  lemma RevocationAckInjective(a: RevocationAck, b: RevocationAck)
    requires ValidRevocationAck(a) && ValidRevocationAck(b) && RevocationAckFields(a) == RevocationAckFields(b)
    ensures a == b
  {
    var f, g := RevocationAckFields(a), RevocationAckFields(b);
    assert f[0] == g[0] && f[1] == g[1] && f[2] == g[2] && f[3] == g[3] && f[4] == g[4];
    assert f[5] == g[5] && f[6] == g[6] && f[7] == g[7];
    assert f[1][0] == g[1][0];
  }

  lemma ConfirmationInjective(a: Confirmation, b: Confirmation)
    requires ValidConfirmation(a) && ValidConfirmation(b) && ConfirmationFields(a) == ConfirmationFields(b)
    ensures a == b
  {
    var f, g := ConfirmationFields(a), ConfirmationFields(b);
    assert f[0] == g[0] && f[1] == g[1] && f[2] == g[2] && f[3] == g[3] && f[4] == g[4];
    assert f[5] == g[5] && f[6] == g[6] && f[7] == g[7] && f[8] == g[8] && f[9] == g[9];
    assert f[3][0] == g[3][0];
  }

  lemma FieldsInjective(a: Input, b: Input)
    requires Valid(a) && Valid(b) && SameKind(a, b) && Fields(a) == Fields(b)
    ensures a == b
  {
    if a.RequestInput? || a.BeginInput? || a.PollInput? {
      RequestFieldsInjective(a, b);
    } else if a.ResponseInput? || a.CertificateInput? {
      ResponseFieldsInjective(a, b);
    } else {
      PairFieldsInjective(a, b);
    }
  }

  lemma RequestFieldsInjective(a: Input, b: Input)
    requires Valid(a) && Valid(b) && SameKind(a, b) && Fields(a) == Fields(b)
    requires a.RequestInput? || a.BeginInput? || a.PollInput?
    ensures a == b
  {
    match a
    case RequestInput(request) => RequestInjective(request, b.request);
    case BeginInput(begin) => ActivationInjective("/v1/activation/challenges", begin, b.begin);
    case PollInput(poll) => ActivationInjective("/v1/activation/poll", poll, b.poll);
  }

  lemma ResponseFieldsInjective(a: Input, b: Input)
    requires Valid(a) && Valid(b) && SameKind(a, b) && Fields(a) == Fields(b)
    requires a.ResponseInput? || a.CertificateInput?
    ensures a == b
  {
    match a
    case ResponseInput(response) => ResponseInjective(response, b.response);
    case CertificateInput(unsignedCbor) => assert Fields(a)[0] == Fields(b)[0];
  }

  lemma PairFieldsInjective(a: Input, b: Input)
    requires Valid(a) && Valid(b) && SameKind(a, b) && Fields(a) == Fields(b)
    requires a.RecordInput? || a.RevocationInput? || a.RevocationAckInput? || a.ConfirmationInput?
    ensures a == b
  {
    match a
    case RecordInput(record) => RecordInjective(record, b.record);
    case RevocationInput(revocation) => RevocationInjective(revocation, b.revocation);
    case RevocationAckInput(ack) => RevocationAckInjective(ack, b.ack);
    case ConfirmationInput(confirmation) => ConfirmationInjective(confirmation, b.confirmation);
  }

  /** Exactly the valid inputs are encoded. */
  lemma EncodesExactlyTheValid(input: Input)
    ensures Encode(input).Some? <==> Valid(input)
    ensures Valid(input) ==> Encode(input).value == Concat([AsciiBytes(DomainText(input))] + Fields(input))
  {
    if Valid(input) {
      assert ([AsciiBytes(DomainText(input))] + Fields(input))[1..] == Fields(input);
    }
  }

  /**
   * No two different things are ever signed or authenticated under the same bytes: equal encodings mean
   * the same kind of input and the same value in every field.
   */
  lemma EncodeInjective(a: Input, b: Input)
    requires Encode(a).Some? && Encode(a) == Encode(b)
    ensures a == b
  {
    PrefixSelfDelimiting(AsciiBytes(DomainText(a)), AsciiBytes(DomainText(b)), Concat(Fields(a)), Concat(Fields(b)));
    DomainSeparation(a, b);
    ConcatInjective(Fields(a), Fields(b));
    FieldsInjective(a, b);
  }
}
