/** One application session's authentication, as each of its two roles sees it. */
module SessionAuthentication {
  import opened Results

  datatype Role = Host | Remote

  datatype Phase =
    | Idle | HelloSent | HelloReceived | HostAuthenticated | HelloAckSent | PeerAuthSent | RemoteAuthenticated | Authenticated

  datatype Event =
    | SendHello | ReceiveHello | SendHelloAck | ReceiveVerifiedHelloAck | SendAuthenticatePeer
    | ReceiveVerifiedAuthenticatePeer | SendSuccessResult | ReceiveSuccessResult

  /** The one event a role may go on with, and where it leads. */
  function Transition(role: Role, phase: Phase): Option<(Event, Phase)> {
    match role
    case Remote => (
      match phase
      case Idle => Some((SendHello, HelloSent))
      case HelloSent => Some((ReceiveVerifiedHelloAck, HostAuthenticated))
      case HostAuthenticated => Some((SendAuthenticatePeer, PeerAuthSent))
      case PeerAuthSent => Some((ReceiveSuccessResult, Authenticated))
      case _ => None)
    case Host => (
      match phase
      case Idle => Some((ReceiveHello, HelloReceived))
      case HelloReceived => Some((SendHelloAck, HelloAckSent))
      case HelloAckSent => Some((ReceiveVerifiedAuthenticatePeer, RemoteAuthenticated))
      case RemoteAuthenticated => Some((SendSuccessResult, Authenticated))
      case _ => None)
  }

  function Next(role: Role, phase: Phase, event: Event): (after: Phase) {
    var allowed := Transition(role, phase);
    if allowed.Some? && allowed.value.0 == event then allowed.value.1 else phase
  }

  class ApplicationSessionAuthentication {
    const role: Role
    var phase: Phase

    constructor (role: Role)
      ensures this.role == role && phase == Idle
    {
      this.role, phase := role, Idle;
    }

    /** False where the source throws. */
    method MakeTransition(event: Event) returns (ok: bool)
      modifies this
      ensures phase == Next(role, old(phase), event)
      ensures ok <==> phase != old(phase)
    {
      var allowed := Transition(role, phase);
      if allowed.None? || allowed.value.0 != event {
        return false;
      }
      phase := allowed.value.1;
      return true;
    }
  }

  /** What a role has to do, in order. */
  function Script(role: Role): seq<Event> {
    match role
    case Remote => [SendHello, ReceiveVerifiedHelloAck, SendAuthenticatePeer, ReceiveSuccessResult]
    case Host => [ReceiveHello, SendHelloAck, ReceiveVerifiedAuthenticatePeer, SendSuccessResult]
  }

  datatype Progress = Progress(phase: Phase, done: seq<Event>)

  /** A run of attempted events: where it ends, and the ones that were let through. */
  function Run(role: Role, events: seq<Event>): Progress
    decreases |events|
  {
    if events == [] then Progress(Idle, [])
    else
      var before, event := Run(role, events[..|events| - 1]), events[|events| - 1];
      var phase := Next(role, before.phase, event);
      if phase == before.phase then before else Progress(phase, before.done + [event])
  }

  function PhaseAfter(role: Role, n: nat): Phase
    requires n <= 4
  {
    match role
    case Remote => [Idle, HelloSent, HostAuthenticated, PeerAuthSent, Authenticated][n]
    case Host => [Idle, HelloReceived, HelloAckSent, RemoteAuthenticated, Authenticated][n]
  }

  /**
   * Whatever is attempted, the events let through are a first part of the role's script, and requests may
   * start exactly when the whole script is done.
   */
  lemma {:induction false} AuthenticatedMeansWholeScript(role: Role, events: seq<Event>)
    ensures var p := Run(role, events);
      && |p.done| <= 4 && p.done == Script(role)[..|p.done|] && p.phase == PhaseAfter(role, |p.done|)
      && (p.phase == Authenticated <==> p.done == Script(role))
    decreases |events|
  {
    if events != [] {
      AuthenticatedMeansWholeScript(role, events[..|events| - 1]);
      var before := Run(role, events[..|events| - 1]);
      assert |before.done| < 4 ==> Script(role)[..|before.done| + 1] == before.done + [Script(role)[|before.done|]];
    }
  }

  /** What is left of the script, and it alone, goes through: the next event is always let through, any other never. */
  lemma ScriptGoesThrough(role: Role, n: nat, event: Event)
    requires n <= 4
    ensures Next(role, PhaseAfter(role, n), event) ==
      if n < 4 && event == Script(role)[n] then PhaseAfter(role, n + 1) else PhaseAfter(role, n)
  {
  }

  lemma RunMore(role: Role, events: seq<Event>, event: Event)
    ensures var before := Run(role, events);
      var phase := Next(role, before.phase, event);
      Run(role, events + [event]) == if phase == before.phase then before else Progress(phase, before.done + [event])
  {
    assert (events + [event])[..|events|] == events;
  }

  lemma ScriptSlice(role: Role, n: nat)
    requires 0 < n <= 4
    ensures Script(role)[..n] == Script(role)[..n - 1] + [Script(role)[n - 1]]
  {
  }

  /** So the script itself authenticates. */
  lemma {:induction false} ScriptAuthenticates(role: Role, n: nat)
    requires n <= 4
    ensures Run(role, Script(role)[..n]) == Progress(PhaseAfter(role, n), Script(role)[..n])
  {
    if n > 0 {
      ScriptAuthenticates(role, n - 1);
      ScriptSlice(role, n);
      RunMore(role, Script(role)[..n - 1], Script(role)[n - 1]);
      ScriptGoesThrough(role, n - 1, Script(role)[n - 1]);
    }
  }
}

/** The guard that lets each proof of a remote browser's request through once. */
module ReplayGuards {
  import opened Results
  import opened ByteStrings

  datatype Refusal =
    | InvalidBrowserContext | InvalidMac | WrongPair | WrongRemoteDevice | WrongRemoteBundle | WrongTrustEpoch
    | WrongApplicationSession | StaleGatewayLaunch | StaleBrowserSession | InvalidTime | GatewayLaunchExpired
    | RequestBindingMismatch | ReplayedRequestNonce | ReplayedDirectRequestId | ApplicationSessionConsumed

  datatype BrowserContext = BrowserContext(
    gatewayLaunchId: string, browserSessionId: string, verb: string, target: string, requestNonce: string)

  /** What the envelope and the guard's configuration must agree on. */
  datatype Trust = Trust(pairId: string, remoteDeviceId: string, bundleHash: string, hostTrustEpoch: int, remoteTrustEpoch: int)

  datatype Envelope = Envelope(trust: Trust, sessionHash: string, directRequestId: string, context: BrowserContext, mac: Bytes)

  datatype Expected = Expected(trust: Trust, gatewayLaunchId: string, browserSessionId: string, gatewayExpiresAt: int)

  datatype Library = Library(macHolds: (Bytes, Envelope) -> bool)

  datatype Session = Session(hash: string, consumed: bool)

  datatype State = State(nonces: set<string>, directIds: set<string>, sessions: map<nat, Session>)

  const START: State := State({}, {}, map[])

  /** A request to verify: the envelope when it has the strict shape, the key, and what REQUEST_START says. */
  datatype Request = Request(envelope: Option<Envelope>, key: Bytes, session: nat, now: int, verb: string, target: string)

  function TrustRefusal(actual: Trust, expected: Trust): Option<Refusal> {
    if actual.pairId != expected.pairId then Some(WrongPair)
    else if actual.remoteDeviceId != expected.remoteDeviceId then Some(WrongRemoteDevice)
    else if actual.bundleHash != expected.bundleHash then Some(WrongRemoteBundle)
    else if actual.hostTrustEpoch != expected.hostTrustEpoch || actual.remoteTrustEpoch != expected.remoteTrustEpoch
    then Some(WrongTrustEpoch)
    else None
  }

  function BindingRefusal(s: State, expected: Expected, r: Request, e: Envelope): Option<Refusal> {
    if r.session !in s.sessions || e.sessionHash != s.sessions[r.session].hash then Some(WrongApplicationSession)
    else if e.context.gatewayLaunchId != expected.gatewayLaunchId then Some(StaleGatewayLaunch)
    else if e.context.browserSessionId != expected.browserSessionId then Some(StaleBrowserSession)
    else if !(0 <= r.now <= UINT64_MAX) then Some(InvalidTime)
    else if r.now > expected.gatewayExpiresAt then Some(GatewayLaunchExpired)
    else if e.context.verb != r.verb || e.context.target != r.target then Some(RequestBindingMismatch)
    else if e.context.requestNonce in s.nonces then Some(ReplayedRequestNonce)
    else if e.directRequestId in s.directIds then Some(ReplayedDirectRequestId)
    else if s.sessions[r.session].consumed then Some(ApplicationSessionConsumed)
    else None
  }

  function Check(lib: Library, expected: Expected, s: State, r: Request): Result<Envelope, Refusal> {
    if r.envelope.None? then Err(InvalidBrowserContext)
    else if !lib.macHolds(r.key, r.envelope.value) then Err(InvalidMac)
    else if TrustRefusal(r.envelope.value.trust, expected.trust).Some?
    then Err(TrustRefusal(r.envelope.value.trust, expected.trust).value)
    else
      match BindingRefusal(s, expected, r, r.envelope.value)
      case Some(refusal) => Err(refusal)
      case None => Ok(r.envelope.value)
  }

  /** A genuine proof, bound to this trust, launch, session, method and target, in time, and unused. */
  predicate Admissible(lib: Library, expected: Expected, s: State, r: Request, e: Envelope) {
    && r.envelope == Some(e) && lib.macHolds(r.key, e) && e.trust == expected.trust
    && r.session in s.sessions && s.sessions[r.session] == Session(e.sessionHash, false)
    && e.context == BrowserContext(expected.gatewayLaunchId, expected.browserSessionId, r.verb, r.target, e.context.requestNonce)
    && 0 <= r.now <= UINT64_MAX && r.now <= expected.gatewayExpiresAt
    && e.context.requestNonce !in s.nonces && e.directRequestId !in s.directIds
  }

  /** The checks in their order let a request through exactly when its proof is admissible. */
  lemma PassesExactlyWhen(lib: Library, expected: Expected, s: State, r: Request, e: Envelope)
    ensures Check(lib, expected, s, r) == Ok(e) <==> Admissible(lib, expected, s, r, e)
  {
  }

  /** What a refusal says is so. */
  predicate Justified(lib: Library, expected: Expected, s: State, r: Request, refusal: Refusal) {
    if r.envelope.None? then refusal == InvalidBrowserContext
    else
      var e := r.envelope.value;
      match refusal
      case InvalidBrowserContext => false
      case InvalidMac => !lib.macHolds(r.key, e)
      case WrongPair => e.trust.pairId != expected.trust.pairId
      case WrongRemoteDevice => e.trust.remoteDeviceId != expected.trust.remoteDeviceId
      case WrongRemoteBundle => e.trust.bundleHash != expected.trust.bundleHash
      case WrongTrustEpoch =>
        e.trust.hostTrustEpoch != expected.trust.hostTrustEpoch || e.trust.remoteTrustEpoch != expected.trust.remoteTrustEpoch
      case WrongApplicationSession => r.session in s.sessions ==> e.sessionHash != s.sessions[r.session].hash
      case StaleGatewayLaunch => e.context.gatewayLaunchId != expected.gatewayLaunchId
      case StaleBrowserSession => e.context.browserSessionId != expected.browserSessionId
      case InvalidTime => r.now < 0 || r.now > UINT64_MAX
      case GatewayLaunchExpired => r.now > expected.gatewayExpiresAt
      case RequestBindingMismatch => e.context.verb != r.verb || e.context.target != r.target
      case ReplayedRequestNonce => e.context.requestNonce in s.nonces
      case ReplayedDirectRequestId => e.directRequestId in s.directIds
      case ApplicationSessionConsumed => r.session in s.sessions && s.sessions[r.session].consumed
  }

  /** No request is refused for a reason that does not hold. */
  lemma RefusalsAreJustified(lib: Library, expected: Expected, s: State, r: Request)
    ensures Check(lib, expected, s, r).Err? ==> Justified(lib, expected, s, r, Check(lib, expected, s, r).error)
  {
  }

  datatype Step = Step(state: State, result: Result<BrowserContext, Refusal>)

  function Consume(lib: Library, expected: Expected, s: State, r: Request): Step {
    match Check(lib, expected, s, r)
    case Err(refusal) => Step(s, Err(refusal))
    case Ok(e) =>
      Step(State(s.nonces + {e.context.requestNonce}, s.directIds + {e.directRequestId},
                 if r.session in s.sessions then s.sessions[r.session := s.sessions[r.session].(consumed := true)] else s.sessions),
           Ok(e.context))
  }

  class ReplayGuard {
    const lib: Library
    const expected: Expected
    var nonces: set<string>
    var directIds: set<string>
    var sessions: map<nat, Session>

    function Abstract(): State
      reads this
    {
      State(nonces, directIds, sessions)
    }

    constructor (lib: Library, expected: Expected)
      ensures this.lib == lib && this.expected == expected && Abstract() == START
    {
      this.lib, this.expected := lib, expected;
      nonces, directIds, sessions := {}, {}, map[];
    }

    /** A session object of its own for each authenticated direct connection. */
    method CreateApplicationSession(handle: nat, hash: string)
      requires handle !in sessions
      modifies this
      ensures Abstract() == old(Abstract()).(sessions := old(sessions)[handle := Session(hash, false)])
    {
      sessions := sessions[handle := Session(hash, false)];
    }

    method VerifyAndConsume(r: Request) returns (result: Result<BrowserContext, Refusal>)
      modifies this
      ensures result.Ok? <==> r.envelope.Some? && Admissible(lib, expected, old(Abstract()), r, r.envelope.value)
      ensures result.Ok? ==>
        && result.value == r.envelope.value.context
        && Spent(Abstract(), r.session, r.envelope.value)
        && OnlySpends(old(Abstract()), Abstract(), r.session, r.envelope.value)
      ensures result.Err? ==> Abstract() == old(Abstract())
      ensures Step(Abstract(), result) == Consume(lib, expected, old(Abstract()), r)
    {
      if r.envelope.None? {
        return Err(InvalidBrowserContext);
      }
      var e := r.envelope.value;
      if !lib.macHolds(r.key, e) {
        return Err(InvalidMac);
      }
      var untrusted := TrustRefusal(e.trust, expected.trust);
      if untrusted.Some? {
        return Err(untrusted.value);
      }
      var unbound := BindingRefusal(Abstract(), expected, r, e);
      if unbound.Some? {
        return Err(unbound.value);
      }
      nonces := nonces + {e.context.requestNonce};
      directIds := directIds + {e.directRequestId};
      sessions := sessions[r.session := sessions[r.session].(consumed := true)];
      return Ok(e.context);
    }
  }

  // ---- whole runs --------------------------------------------------------------------------------------

  datatype Event = Create(handle: nat, hash: string) | Verify(request: Request)

  function Next(lib: Library, expected: Expected, s: State, event: Event): State {
    match event
    case Create(handle, hash) =>
      if handle in s.sessions then s else s.(sessions := s.sessions[handle := Session(hash, false)])
    case Verify(request) => Consume(lib, expected, s, request).state
  }

  /** A new handle gets a session that has let nothing through yet; a known one keeps its own. */
  lemma CreatesUnused(lib: Library, expected: Expected, s: State, handle: nat, hash: string)
    ensures var after := Next(lib, expected, s, Create(handle, hash));
      && handle in after.sessions
      && after.sessions[handle] == (if handle in s.sessions then s.sessions[handle] else Session(hash, false))
      && after.nonces == s.nonces && after.directIds == s.directIds
      && forall other | other in s.sessions :: other in after.sessions && after.sessions[other] == s.sessions[other]
  {
  }

  function StateAt(lib: Library, expected: Expected, events: seq<Event>, k: nat): State
    requires k <= |events|
  {
    if k == 0 then START else Next(lib, expected, StateAt(lib, expected, events, k - 1), events[k - 1])
  }

  /** Event `k` let the envelope's request through on its session. */
  predicate PassedAt(lib: Library, expected: Expected, events: seq<Event>, k: nat, session: nat, e: Envelope) {
    && k < |events| && events[k].Verify? && events[k].request.session == session
    && Check(lib, expected, StateAt(lib, expected, events, k), events[k].request) == Ok(e)
  }

  /** Nothing but what this request spends has changed. */
  predicate OnlySpends(before: State, after: State, session: nat, e: Envelope) {
    && after.nonces - before.nonces <= {e.context.requestNonce} && before.nonces <= after.nonces
    && after.directIds - before.directIds <= {e.directRequestId} && before.directIds <= after.directIds
    && after.sessions.Keys == before.sessions.Keys
    && forall other | other in before.sessions ::
      && after.sessions[other].hash == before.sessions[other].hash
      && (other != session ==> after.sessions[other] == before.sessions[other])
  }

  /** What a passed request used up stays used up. */
  predicate Spent(s: State, session: nat, e: Envelope) {
    && e.context.requestNonce in s.nonces && e.directRequestId in s.directIds
    && session in s.sessions && s.sessions[session].consumed
  }

  lemma {:induction false} StaysSpent(
    lib: Library, expected: Expected, events: seq<Event>, i: nat, k: nat, session: nat, e: Envelope)
    requires PassedAt(lib, expected, events, i, session, e) && i < k <= |events|
    ensures Spent(StateAt(lib, expected, events, k), session, e)
    decreases k
  {
    if k > i + 1 {
      StaysSpent(lib, expected, events, i, k - 1, session, e);
    }
  }

  /** In every run each request nonce, each direct request and each application session gets one request through, at most. */
  lemma EachIsConsumedOnce(
    lib: Library, expected: Expected, events: seq<Event>, i: nat, a: nat, e: Envelope, j: nat, b: nat, f: Envelope)
    requires i < j && PassedAt(lib, expected, events, i, a, e) && PassedAt(lib, expected, events, j, b, f)
    ensures e.context.requestNonce != f.context.requestNonce
    ensures e.directRequestId != f.directRequestId
    ensures a != b
  {
    StaysSpent(lib, expected, events, i, j, a, e);
  }
}
