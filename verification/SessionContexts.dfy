/**
 * The two binding contexts that are written as length-prefixed tuples and read back by a strict
 * decoder: an endpoint envelope's associated data and an application session's signed bytes.
 */
module EndpointContexts {
  import opened Results
  import opened ByteStrings
  import opened LengthPrefixed

  const ENDPOINT_DOMAIN := "waifus-endpoint-envelope/v1"
  const PROTOCOL_MAJOR := 1

  datatype Context = Context(
    negotiatedMinor: int,
    pairId: Bytes,
    senderRole: int,
    receiverRole: int,
    hostBundleHash: Bytes,
    remoteBundleHash: Bytes,
    hostTrustEpoch: int,
    remoteTrustEpoch: int,
    endpointEpoch: int)

  predicate Valid(context: Context) {
    && 0 <= context.negotiatedMinor <= UINT16_MAX
    && context.senderRole in {1, 2}
    && context.receiverRole in {1, 2}
    && context.senderRole != context.receiverRole
    && |context.pairId| == 16
    && |context.hostBundleHash| == 32
    && |context.remoteBundleHash| == 32
    && context.hostBundleHash != context.remoteBundleHash
    && 1 <= context.endpointEpoch <= UINT64_MAX
    && 0 <= context.hostTrustEpoch <= UINT64_MAX
    && 0 <= context.remoteTrustEpoch <= UINT64_MAX
  }

  function Widths(domain: Bytes): (widths: seq<nat>)
    ensures |widths| == 10
  {
    [|domain|, 4, 16, 1, 1, 32, 32, 8, 8, 8]
  }

  function Fields(domain: Bytes, context: Context): (fields: seq<Bytes>)
    requires Valid(context) && |domain| <= UINT32_MAX
    ensures IsTuple(fields, domain, Widths(domain))
  {
    [ domain,
      UInt16(PROTOCOL_MAJOR) + UInt16(context.negotiatedMinor),
      context.pairId,
      [context.senderRole],
      [context.receiverRole],
      context.hostBundleHash,
      context.remoteBundleHash,
      UInt64(context.hostTrustEpoch),
      UInt64(context.remoteTrustEpoch),
      UInt64(context.endpointEpoch) ]
  }

  /** The context ten fields spell. */
  function Interpret(domain: Bytes, fields: seq<Bytes>): Context
    requires IsTuple(fields, domain, Widths(domain))
  {
    Context(ReadUInt16(fields[1], 2), fields[2], fields[3][0], fields[4][0], fields[5], fields[6],
            FromBigEndian(fields[7]), FromBigEndian(fields[8]), FromBigEndian(fields[9]))
  }

  lemma InterpretOfFields(domain: Bytes, context: Context)
    requires Valid(context) && |domain| <= UINT32_MAX
    ensures Interpret(domain, Fields(domain, context)) == context
    ensures ReadUInt16(Fields(domain, context)[1], 0) == PROTOCOL_MAJOR
  {
  }

  lemma FieldsOfInterpret(domain: Bytes, fields: seq<Bytes>)
    requires |domain| <= UINT32_MAX && IsTuple(fields, domain, Widths(domain))
    requires ReadUInt16(fields[1], 0) == PROTOCOL_MAJOR && Valid(Interpret(domain, fields))
    ensures Fields(domain, Interpret(domain, fields)) == fields
  {
    var again := Fields(domain, Interpret(domain, fields));
    assert again[1] == fields[1];
    BigEndianOfFromBigEndian(fields[7]);
    BigEndianOfFromBigEndian(fields[8]);
    BigEndianOfFromBigEndian(fields[9]);
    assert forall i | 0 <= i < 10 :: again[i] == fields[i];
  }

  function DomainBytes(): (domain: Bytes)
    ensures |domain| == 27
  {
    AsciiBytes(ENDPOINT_DOMAIN)
  }

  /** None where the source throws on an invalid context. */
  function Encode(context: Context): Option<Bytes> {
    if Valid(context) then Some(Concat(Fields(DomainBytes(), context))) else None
  }

  lemma EncodeInjective(a: Context, b: Context)
    requires Encode(a).Some? && Encode(a) == Encode(b)
    ensures a == b
  {
    var domain := DomainBytes();
    ConcatInjective(Fields(domain, a), Fields(domain, b));
    InterpretOfFields(domain, a);
    InterpretOfFields(domain, b);
  }

  /**
   * Accepts exactly the encodings of valid contexts with an accepted minor: what comes back
   * re-encodes to the very bytes that were read, and any context that encodes to them comes back.
   */
  method Decode(payload: Bytes, expectedMinor: Option<int>) returns (r: Option<Context>)
    ensures r.Some? ==> Encode(r.value) == Some(payload) && MinorAccepted(r.value.negotiatedMinor, expectedMinor)
    ensures forall context | Encode(context) == Some(payload) && MinorAccepted(context.negotiatedMinor, expectedMinor) ::
      r == Some(context)
  {
    r := DecodeIn(DomainBytes(), payload, expectedMinor);
  }

  method DecodeIn(domain: Bytes, payload: Bytes, expectedMinor: Option<int>) returns (r: Option<Context>)
    requires |domain| <= UINT32_MAX
    ensures r.Some? ==> Valid(r.value) && Concat(Fields(domain, r.value)) == payload
    ensures r.Some? ==> MinorAccepted(r.value.negotiatedMinor, expectedMinor)
    ensures forall context | Valid(context) && Concat(Fields(domain, context)) == payload ::
      MinorAccepted(context.negotiatedMinor, expectedMinor) ==> r == Some(context)
  {
    var fields :- DecodeTuple(payload, domain, Widths(domain));
    OnlyContext(domain, fields, payload);
    var context := Interpret(domain, fields);
    if ReadUInt16(fields[1], 0) != PROTOCOL_MAJOR
      || !MinorAccepted(context.negotiatedMinor, expectedMinor)
      || !Valid(context)
    {
      return None;
    }
    FieldsOfInterpret(domain, fields);
    return Some(context);
  }

  lemma OnlyContext(domain: Bytes, fields: seq<Bytes>, payload: Bytes)
    requires |domain| <= UINT32_MAX && IsTuple(fields, domain, Widths(domain)) && Concat(fields) == payload
    ensures forall context | Valid(context) && Concat(Fields(domain, context)) == payload ::
      context == Interpret(domain, fields) && ReadUInt16(fields[1], 0) == PROTOCOL_MAJOR
  {
    forall context | Valid(context) && Concat(Fields(domain, context)) == payload
      ensures context == Interpret(domain, fields) && ReadUInt16(fields[1], 0) == PROTOCOL_MAJOR
    {
      ConcatInjective(Fields(domain, context), fields);
      InterpretOfFields(domain, context);
    }
  }
}

module ApplicationSessions {
  import opened Results
  import opened ByteStrings
  import opened LengthPrefixed

  const APPLICATION_SESSION_DOMAIN := "waifus-app-session-v1"
  const PROTOCOL_MAJOR := 1

  datatype Context = Context(
    negotiatedMinor: int,
    pairId: Bytes,
    serviceId: Bytes,
    hostNonce: Bytes,
    remoteNonce: Bytes,
    hostBundleHash: Bytes,
    remoteBundleHash: Bytes,
    hostTrustEpoch: int,
    remoteTrustEpoch: int,
    hostTransportSessionId: Bytes,
    remoteTransportSessionId: Bytes)

  predicate Valid(context: Context) {
    && 0 <= context.negotiatedMinor <= UINT16_MAX
    && |context.pairId| == 16
    && |context.serviceId| == 16
    && |context.hostNonce| == 32
    && |context.remoteNonce| == 32
    && |context.hostBundleHash| == 32
    && |context.remoteBundleHash| == 32
    && 0 <= context.hostTrustEpoch <= UINT64_MAX
    && 0 <= context.remoteTrustEpoch <= UINT64_MAX
    && |context.hostTransportSessionId| == 16
    && |context.remoteTransportSessionId| == 16
    && context.hostBundleHash != context.remoteBundleHash
    && context.hostNonce != context.remoteNonce
    && context.hostTransportSessionId != context.remoteTransportSessionId
  }

  function Widths(domain: Bytes): (widths: seq<nat>)
    ensures |widths| == 12
  {
    [|domain|, 4, 16, 16, 32, 32, 32, 32, 8, 8, 16, 16]
  }

  function Fields(domain: Bytes, context: Context): (fields: seq<Bytes>)
    requires Valid(context) && |domain| <= UINT32_MAX
    ensures IsTuple(fields, domain, Widths(domain))
  {
    [ domain,
      UInt16(PROTOCOL_MAJOR) + UInt16(context.negotiatedMinor),
      context.pairId,
      context.serviceId,
      context.hostNonce,
      context.remoteNonce,
      context.hostBundleHash,
      context.remoteBundleHash,
      UInt64(context.hostTrustEpoch),
      UInt64(context.remoteTrustEpoch),
      context.hostTransportSessionId,
      context.remoteTransportSessionId ]
  }

  /** The context twelve fields spell. */
  function Interpret(domain: Bytes, fields: seq<Bytes>): Context
    requires IsTuple(fields, domain, Widths(domain))
  {
    Context(ReadUInt16(fields[1], 2), fields[2], fields[3], fields[4], fields[5], fields[6], fields[7],
            FromBigEndian(fields[8]), FromBigEndian(fields[9]), fields[10], fields[11])
  }

  lemma InterpretOfFields(domain: Bytes, context: Context)
    requires Valid(context) && |domain| <= UINT32_MAX
    ensures Interpret(domain, Fields(domain, context)) == context
    ensures ReadUInt16(Fields(domain, context)[1], 0) == PROTOCOL_MAJOR
  {
  }

  lemma FieldsOfInterpret(domain: Bytes, fields: seq<Bytes>)
    requires |domain| <= UINT32_MAX && IsTuple(fields, domain, Widths(domain))
    requires ReadUInt16(fields[1], 0) == PROTOCOL_MAJOR && Valid(Interpret(domain, fields))
    ensures Fields(domain, Interpret(domain, fields)) == fields
  {
    var again := Fields(domain, Interpret(domain, fields));
    assert again[1] == fields[1];
    BigEndianOfFromBigEndian(fields[8]);
    BigEndianOfFromBigEndian(fields[9]);
    assert forall i | 0 <= i < 12 :: again[i] == fields[i];
  }

  function DomainBytes(): (domain: Bytes)
    ensures |domain| == 21
  {
    AsciiBytes(APPLICATION_SESSION_DOMAIN)
  }

  /** None where the source throws on an invalid context. */
  function Encode(context: Context): Option<Bytes> {
    if Valid(context) then Some(Concat(Fields(DomainBytes(), context))) else None
  }

  lemma EncodeInjective(a: Context, b: Context)
    requires Encode(a).Some? && Encode(a) == Encode(b)
    ensures a == b
  {
    var domain := DomainBytes();
    ConcatInjective(Fields(domain, a), Fields(domain, b));
    InterpretOfFields(domain, a);
    InterpretOfFields(domain, b);
  }

  /** As `EndpointContexts.Decode`: the strict inverse of `Encode`, in both directions. */
  method Decode(payload: Bytes, expectedMinor: Option<int>) returns (r: Option<Context>)
    ensures r.Some? ==> Encode(r.value) == Some(payload) && MinorAccepted(r.value.negotiatedMinor, expectedMinor)
    ensures forall context | Encode(context) == Some(payload) && MinorAccepted(context.negotiatedMinor, expectedMinor) ::
      r == Some(context)
  {
    r := DecodeIn(DomainBytes(), payload, expectedMinor);
  }

  method DecodeIn(domain: Bytes, payload: Bytes, expectedMinor: Option<int>) returns (r: Option<Context>)
    requires |domain| <= UINT32_MAX
    ensures r.Some? ==> Valid(r.value) && Concat(Fields(domain, r.value)) == payload
    ensures r.Some? ==> MinorAccepted(r.value.negotiatedMinor, expectedMinor)
    ensures forall context | Valid(context) && Concat(Fields(domain, context)) == payload ::
      MinorAccepted(context.negotiatedMinor, expectedMinor) ==> r == Some(context)
  {
    var fields :- DecodeTuple(payload, domain, Widths(domain));
    OnlyContext(domain, fields, payload);
    var context := Interpret(domain, fields);
    if ReadUInt16(fields[1], 0) != PROTOCOL_MAJOR
      || !MinorAccepted(context.negotiatedMinor, expectedMinor)
      || !Valid(context)
    {
      return None;
    }
    FieldsOfInterpret(domain, fields);
    return Some(context);
  }

  lemma OnlyContext(domain: Bytes, fields: seq<Bytes>, payload: Bytes)
    requires |domain| <= UINT32_MAX && IsTuple(fields, domain, Widths(domain)) && Concat(fields) == payload
    ensures forall context | Valid(context) && Concat(Fields(domain, context)) == payload ::
      context == Interpret(domain, fields) && ReadUInt16(fields[1], 0) == PROTOCOL_MAJOR
  {
    forall context | Valid(context) && Concat(Fields(domain, context)) == payload
      ensures context == Interpret(domain, fields) && ReadUInt16(fields[1], 0) == PROTOCOL_MAJOR
    {
      ConcatInjective(Fields(domain, context), fields);
      InterpretOfFields(domain, context);
    }
  }
}
