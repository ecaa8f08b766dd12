/** Endpoint candidates: what is safe to probe, their one deterministic order, and the record they form. */
module EndpointCandidates {
  import opened Results
  import opened ByteStrings
  import opened ByteOrder

  const CANDIDATE_MAX_COUNT := 12

  datatype ErrorCode =
    | PlaintextTooLarge | CiphertextTooLarge | InvalidCanonicalCbor | InvalidEndpointRecord | UnsafeCandidate
    | DuplicateCandidate | CandidatesUnsorted | InvalidContext | UnapprovedSender | AeadAuthenticationFailed
    | EpochMismatch | EpochConflict | EpochRollback | InvalidInitialEpoch | NoPreparedEndpoint
    | OutOfRange | InvalidSnapshot

  datatype Candidate = Candidate(kind: int, family: int, address: Bytes, port: int, priority: int)

  datatype Generation = Generation(version: int, endpointEpoch: int, connectionGeneration: int, candidates: seq<Candidate>)

  predicate AllBytes(bytes: Bytes, value: int) {
    forall i | 0 <= i < |bytes| :: bytes[i] == value
  }

  /** Unspecified, loopback, link-local, multicast, broadcast and IPv4-mapped addresses. */
  predicate UnsafeAddress(family: int, address: Bytes)
    requires |address| == if family == 4 then 4 else 16
  {
    if family == 4 then
      || AllBytes(address, 0)
      || address[0] == 127
      || (address[0] == 169 && address[1] == 254)
      || 224 <= address[0] <= 239
      || AllBytes(address, 255)
    else
      || AllBytes(address, 0)
      || (AllBytes(address[..15], 0) && address[15] == 1)
      || (address[0] == 0xfe && 0x80 <= address[1] <= 0xbf)
      || address[0] == 0xff
      || (AllBytes(address[..10], 0) && address[10] == 0xff && address[11] == 0xff)
  }

  function Zeros(n: nat): (bytes: Bytes)
    ensures |bytes| == n
  {
    seq(n, _ => 0)
  }

  /** What is not a probe-safe unicast address, by prefix: for IPv4 the unspecified, loopback, link-local, multicast and broadcast ones. */
  lemma UnsafeFour(address: Bytes)
    requires |address| == 4
    ensures UnsafeAddress(4, address) <==>
      || address == Zeros(4) || [127] <= address || [169, 254] <= address
      || (exists first: Byte | 224 <= first <= 239 :: [first] <= address) || address == [255, 255, 255, 255]
  {
    assert 224 <= address[0] <= 239 ==> [address[0]] <= address;
    assert address == [address[0], address[1], address[2], address[3]];
  }

  /** For IPv6 the unspecified, loopback, link-local, multicast and IPv4-mapped ones. */
  lemma UnsafeSix(address: Bytes)
    requires |address| == 16
    ensures UnsafeAddress(6, address) <==>
      || address == Zeros(16) || address == Zeros(15) + [1]
      || (exists second: Byte | 0x80 <= second <= 0xbf :: [0xfe, second] <= address)
      || [0xff] <= address || Zeros(10) + [0xff, 0xff] <= address
  {
    assert address[0] == 0xfe && 0x80 <= address[1] <= 0xbf ==> [0xfe, address[1]] <= address;
    assert AllBytes(address[..15], 0) <==> address[..15] == Zeros(15);
    assert AllBytes(address[..10], 0) <==> address[..10] == Zeros(10);
    assert AllBytes(address, 0) <==> address == Zeros(16);
    assert address == address[..15] + [address[15]];
    assert address[..12] == address[..10] + [address[10], address[11]];
    assert Zeros(10) + [0xff, 0xff] <= address <==> address[..12] == Zeros(10) + [0xff, 0xff];
  }

  function CandidateError(c: Candidate): Option<ErrorCode> {
    if !(1 <= c.kind <= 3) then Some(InvalidEndpointRecord)
    else if c.family != 4 && c.family != 6 then Some(InvalidEndpointRecord)
    else if |c.address| != (if c.family == 4 then 4 else 16) then Some(InvalidEndpointRecord)
    else if !(1 <= c.port <= 65535) then Some(InvalidEndpointRecord)
    else if !(0 <= c.priority <= UINT32_MAX) then Some(InvalidEndpointRecord)
    else if UnsafeAddress(c.family, c.address) then Some(UnsafeCandidate)
    else None
  }

  /** Higher priority first, then kind, family, address bytes and port; zero only on a tie. */
  function CompareCandidates(left: Candidate, right: Candidate): int {
    if left.priority != right.priority then right.priority - left.priority
    else if left.kind != right.kind then left.kind - right.kind
    else if left.family != right.family then left.family - right.family
    else
      var addressOrder := Compare(left.address, right.address);
      if addressOrder != 0 then addressOrder else left.port - right.port
  }

  predicate Precedes(left: Candidate, right: Candidate) {
    CompareCandidates(left, right) < 0
  }

  lemma TiesOnlyWhenEqual(a: Candidate, b: Candidate)
    ensures CompareCandidates(a, b) == 0 <==> a == b
  {
  }

  lemma OrderFlips(a: Candidate, b: Candidate)
    ensures CompareCandidates(a, b) < 0 <==> CompareCandidates(b, a) > 0
  {
    CompareFlips(a.address, b.address);
  }

  lemma OrderTransitive(a: Candidate, b: Candidate, c: Candidate)
    requires Precedes(a, b) && Precedes(b, c)
    ensures Precedes(a, c)
  {
    if Compare(a.address, b.address) < 0 && Compare(b.address, c.address) < 0 {
      CompareTransitive(a.address, b.address, c.address);
    }
  }

  /** What a candidate is sorted by, most significant first. */
  function SortKey(c: Candidate): seq<int> {
    [-c.priority] + ([c.kind] + ([c.family] + (c.address + [c.port])))
  }

  /** The order is the lexicographic one of priority, highest first, kind, family, address and port. */
  lemma OrderIsLexicographic(a: Candidate, b: Candidate)
    requires a.family == b.family ==> |a.address| == |b.address|
    ensures Precedes(a, b) <==> Compare(SortKey(a), SortKey(b)) < 0
  {
    CompareHeads(-a.priority, [a.kind] + ([a.family] + (a.address + [a.port])),
                 -b.priority, [b.kind] + ([b.family] + (b.address + [b.port])));
    CompareHeads(a.kind, [a.family] + (a.address + [a.port]), b.kind, [b.family] + (b.address + [b.port]));
    CompareHeads(a.family, a.address + [a.port], b.family, b.address + [b.port]);
    if a.family == b.family {
      CompareEnds(a.address, a.port, b.address, b.port);
    }
  }

  /** A candidate passes exactly with a known kind, a family and an address of its length, a port, a uint32 priority, safe. */
  lemma CandidatePassesExactlyWhen(c: Candidate)
    ensures var shaped :=
        && c.kind in {1, 2, 3} && (c.family == 4 || c.family == 6)
        && |c.address| == (if c.family == 4 then 4 else 16)
        && 1 <= c.port <= 65535 && 0 <= c.priority <= UINT32_MAX;
      && (CandidateError(c) == None <==> shaped && !UnsafeAddress(c.family, c.address))
      && (CandidateError(c) == Some(UnsafeCandidate) <==> shaped && UnsafeAddress(c.family, c.address))
  {
  }

  /** What two candidates of one record may not share, whatever their priorities. */
  function Identity(c: Candidate): (int, int, Bytes, int) {
    (c.kind, c.family, c.address, c.port)
  }

  predicate DistinctIdentities(candidates: seq<Candidate>) {
    forall i, j | 0 <= i < j < |candidates| :: Identity(candidates[i]) != Identity(candidates[j])
  }

  predicate AllValid(candidates: seq<Candidate>) {
    forall i | 0 <= i < |candidates| :: CandidateError(candidates[i]) == None
  }

  /** The records the source accepts, said without its loop. */
  predicate Acceptable(value: Generation) {
    && value.version == 1
    && 1 <= value.endpointEpoch <= UINT64_MAX
    && 1 <= value.connectionGeneration <= UINT64_MAX
    && |value.candidates| <= CANDIDATE_MAX_COUNT
    && AllValid(value.candidates)
    && DistinctIdentities(value.candidates)
    && StrictlySorted(Precedes, value.candidates)
  }

  /** The first problem at or after `index`, in the order the source looks for them. */
  function OrderError(candidates: seq<Candidate>, index: nat): Option<ErrorCode>
    decreases |candidates| - index
  {
    if index >= |candidates| then None
    else if exists i | 0 <= i < index :: Identity(candidates[i]) == Identity(candidates[index]) then Some(DuplicateCandidate)
    else if index > 0 && CompareCandidates(candidates[index - 1], candidates[index]) > 0 then Some(CandidatesUnsorted)
    else OrderError(candidates, index + 1)
  }

  function FirstCandidateError(candidates: seq<Candidate>): Option<ErrorCode> {
    if candidates == [] then None
    else if CandidateError(candidates[0]).Some? then CandidateError(candidates[0])
    else FirstCandidateError(candidates[1..])
  }

  function Validate(value: Generation): Result<Generation, ErrorCode> {
    if value.version != 1 then Err(InvalidEndpointRecord)
    else if !(0 <= value.endpointEpoch <= UINT64_MAX) || !(0 <= value.connectionGeneration <= UINT64_MAX) then Err(OutOfRange)
    else if value.endpointEpoch < 1 || value.connectionGeneration < 1 then Err(InvalidEndpointRecord)
    else if |value.candidates| > CANDIDATE_MAX_COUNT then Err(InvalidEndpointRecord)
    else if FirstCandidateError(value.candidates).Some? then Err(FirstCandidateError(value.candidates).value)
    else if OrderError(value.candidates, 0).Some? then Err(OrderError(value.candidates, 0).value)
    else Ok(value)
  }

  lemma {:induction false} FirstCandidateErrorNone(candidates: seq<Candidate>)
    ensures FirstCandidateError(candidates) == None <==> AllValid(candidates)
  {
    if candidates != [] {
      FirstCandidateErrorNone(candidates[1..]);
      assert candidates == [candidates[0]] + candidates[1..];
    }
  }

  /** Comparing neighbours only, with the identities told apart, sorts the whole list strictly. */
  lemma {:induction false} OrderErrorNone(candidates: seq<Candidate>, index: nat)
    requires index <= |candidates|
    requires StrictlySorted(Precedes, candidates[..index]) && DistinctIdentities(candidates[..index])
    ensures OrderError(candidates, index) == None <==>
      StrictlySorted(Precedes, candidates) && DistinctIdentities(candidates)
    decreases |candidates| - index
  {
    if index == |candidates| {
      assert candidates[..index] == candidates;
    } else if exists i | 0 <= i < index :: Identity(candidates[i]) == Identity(candidates[index]) {
    } else if index > 0 && CompareCandidates(candidates[index - 1], candidates[index]) > 0 {
      OrderFlips(candidates[index - 1], candidates[index]);
    } else {
      PrefixExtends(candidates, index);
      OrderErrorNone(candidates, index + 1);
    }
  }

  lemma PrefixExtends(candidates: seq<Candidate>, index: nat)
    requires index < |candidates|
    requires StrictlySorted(Precedes, candidates[..index]) && DistinctIdentities(candidates[..index])
    requires forall i | 0 <= i < index :: Identity(candidates[i]) != Identity(candidates[index])
    requires index > 0 ==> CompareCandidates(candidates[index - 1], candidates[index]) <= 0
    ensures StrictlySorted(Precedes, candidates[..index + 1]) && DistinctIdentities(candidates[..index + 1])
  {
    var longer, prefix := candidates[..index + 1], candidates[..index];
    forall i | 0 <= i < index ensures Precedes(candidates[i], candidates[index]) {
      TiesOnlyWhenEqual(candidates[index - 1], candidates[index]);
      if i < index - 1 {
        assert Precedes(prefix[i], prefix[index - 1]);
        OrderTransitive(candidates[i], candidates[index - 1], candidates[index]);
      }
    }
    forall i, j | 0 <= i < j < |longer| ensures Precedes(longer[i], longer[j]) {
      if j < index { assert Precedes(prefix[i], prefix[j]); }
    }
    forall i, j | 0 <= i < j < |longer| ensures Identity(longer[i]) != Identity(longer[j]) {
      if j < index { assert Identity(prefix[i]) != Identity(prefix[j]); }
    }
  }

  lemma ValidateAccepts(value: Generation)
    ensures Validate(value).Ok? <==> Acceptable(value)
    ensures Validate(value).Ok? ==> Validate(value).value == value
  {
    FirstCandidateErrorNone(value.candidates);
    OrderErrorNone(value.candidates, 0);
  }

  /** One set of candidates has at most one accepted listing. */
  lemma AcceptedOrderUnique(a: Generation, b: Generation)
    requires Validate(a).Ok? && Validate(b).Ok?
    requires Elements(a.candidates) == Elements(b.candidates)
    ensures a.candidates == b.candidates
  {
    ValidateAccepts(a);
    ValidateAccepts(b);
    forall x, y | Precedes(x, y) ensures !Precedes(y, x) {
      OrderFlips(x, y);
    }
    SortedListingUnique(Precedes, a.candidates, b.candidates);
  }

  method ValidateGeneration(value: Generation) returns (r: Result<Generation, ErrorCode>)
    ensures r == Validate(value)
    ensures r.Ok? <==> Acceptable(value)
  {
    ValidateAccepts(value);
    if value.version != 1 {
      return Err(InvalidEndpointRecord);
    }
    if !(0 <= value.endpointEpoch <= UINT64_MAX) || !(0 <= value.connectionGeneration <= UINT64_MAX) {
      return Err(OutOfRange);
    }
    if value.endpointEpoch < 1 || value.connectionGeneration < 1 {
      return Err(InvalidEndpointRecord);
    }
    var candidates := value.candidates;
    if |candidates| > CANDIDATE_MAX_COUNT {
      return Err(InvalidEndpointRecord);
    }
    var problem := FirstCandidateError(candidates);
    if problem.Some? {
      return Err(problem.value);
    }
    var identities: set<(int, int, Bytes, int)> := {};
    var index := 0;
    while index < |candidates|
      invariant index <= |candidates|
      invariant identities == set i | 0 <= i < index :: Identity(candidates[i])
      invariant OrderError(candidates, 0) == OrderError(candidates, index)
    {
      var identity := Identity(candidates[index]);
      if identity in identities {
        return Err(DuplicateCandidate);
      }
      identities := identities + {identity};
      if index > 0 && CompareCandidates(candidates[index - 1], candidates[index]) > 0 {
        return Err(CandidatesUnsorted);
      }
      index := index + 1;
    }
    return Ok(value);
  }
}
