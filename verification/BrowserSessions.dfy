/** The table of local browser sessions, with its idle and absolute limits. */
module BrowserSessions {
  import opened Results
  import opened ByteStrings
  import opened Sets
  import Base64Url

  const IDLE_MS := 1_800_000
  const ABSOLUTE_MS := 28_800_000
  const MAX_SESSIONS := 1024

  datatype Session = Session(csrf: string, createdAt: int, idleExpiresAt: int, absoluteExpiresAt: int)

  type Table = map<string, Session>

  datatype Refusal =
    | BrowserContextMismatch | CsrfInvalid | BrowserContextRequired | BrowserSessionRequired | BadBrowserHeaders
    | SessionCapacity | BadToken

  /** A context verified upstream: whether it is about this very request, and whether its CSRF token was checked. */
  datatype Context = Context(matchesRequest: bool, csrfValidated: bool)

  /** A request: its session cookies, its CSRF header, and what its other headers amount to. */
  datatype Request = Request(
    safe: bool, local: bool, forwarded: bool, context: Option<Context>, browserSignal: bool, headersOk: bool,
    cookies: seq<string>, csrf: Option<string>)

  /** Passed on as it came, or bound to a browser session. */
  datatype Principal = AsItCame | OfSession(id: string, csrfValidated: bool)

  predicate IsToken(text: string) {
    Base64Url.IsText(text, 32)
  }

  predicate TokenMatches(expected: string, supplied: Option<string>) {
    supplied.Some? && IsToken(supplied.value) && Base64Url.Decode(expected) == Base64Url.Decode(supplied.value)
  }

  /** Comparing the decoded bytes is comparing the tokens themselves. */
  lemma TokenMatchIsExact(expected: string, supplied: string)
    requires IsToken(expected)
    ensures TokenMatches(expected, Some(supplied)) <==> supplied == expected
  {
    if TokenMatches(expected, Some(supplied)) {
      Base64Url.EncodeOfDecode(expected);
      Base64Url.EncodeOfDecode(supplied);
    }
  }

  predicate Expired(session: Session, now: int) {
    now >= session.idleExpiresAt || now >= session.absoluteExpiresAt
  }

  function Min(a: int, b: int): int {
    if a < b then a else b
  }

  function Refreshed(session: Session, now: int): Session {
    session.(idleExpiresAt := Min(now + IDLE_MS, session.absoluteExpiresAt))
  }

  function NewSession(csrf: string, now: int): Session {
    Session(csrf, now, now + IDLE_MS, now + ABSOLUTE_MS)
  }

  function Prune(table: Table, now: int): Table {
    map id | id in table && !Expired(table[id], now) :: table[id]
  }

  /** The request's session, if its one session cookie names a live one; an expired one is removed on sight. */
  datatype Found = Found(table: Table, id: Option<string>)

  function Current(table: Table, cookies: seq<string>, now: int): Found {
    if |cookies| != 1 || !IsToken(cookies[0]) || cookies[0] !in table then Found(table, None)
    else if Expired(table[cookies[0]], now) then Found(table - {cookies[0]}, None)
    else Found(table, Some(cookies[0]))
  }

  datatype Step = Step(table: Table, result: Result<Principal, Refusal>)

  function Refresh(table: Table, id: string, now: int, csrfValidated: bool): Step
    requires id in table
  {
    Step(table[id := Refreshed(table[id], now)], Ok(OfSession(id, csrfValidated)))
  }

  /** The clock is read once for the check and once more for the refresh. */
  function AuthenticateBrowser(table: Table, r: Request, checkedAt: int, refreshedAt: int): Step {
    if !r.headersOk then Step(table, Err(BadBrowserHeaders))
    else
      var found := Current(table, r.cookies, checkedAt);
      if !r.safe then
        if found.id.None? then Step(found.table, Err(BrowserSessionRequired))
        else if !TokenMatches(found.table[found.id.value].csrf, r.csrf) then Step(found.table, Err(CsrfInvalid))
        else Refresh(found.table, found.id.value, refreshedAt, true)
      else if found.id.None? then Step(found.table, Ok(AsItCame))
      else Refresh(found.table, found.id.value, refreshedAt, false)
  }

  function AuthenticateStep(table: Table, r: Request, checkedAt: int, refreshedAt: int): Step {
    if r.context.Some? then
      if !r.context.value.matchesRequest then Step(table, Err(BrowserContextMismatch))
      else if !r.safe && !r.context.value.csrfValidated then Step(table, Err(CsrfInvalid))
      else Step(table, Ok(AsItCame))
    else if r.forwarded then
      if r.browserSignal then Step(table, Err(BrowserContextRequired)) else Step(table, Ok(AsItCame))
    else if !r.local || !r.browserSignal then Step(table, Ok(AsItCame))
    else AuthenticateBrowser(table, r, checkedAt, refreshedAt)
  }

  function CreateStep(table: Table, prunedAt: int, createdAt: int, id: string, csrf: string): Result<Table, Refusal> {
    var kept := Prune(table, prunedAt);
    if |kept| >= MAX_SESSIONS then Err(SessionCapacity)
    else if !IsToken(id) || !IsToken(csrf) then Err(BadToken)
    else Ok(kept[id := NewSession(csrf, createdAt)])
  }

  /** The four times an establishment reads the clock. */
  datatype Readings = Readings(checkedAt: int, prunedAt: int, createdAt: int, refreshedAt: int)

  function EstablishStep(table: Table, r: Request, at: Readings, id: string, csrf: string): Step {
    if r.browserSignal && !r.headersOk then Step(table, Err(BadBrowserHeaders))
    else
      var found := Current(table, r.cookies, at.checkedAt);
      if found.id.Some? then Refresh(found.table, found.id.value, at.refreshedAt, false)
      else
        match CreateStep(found.table, at.prunedAt, at.createdAt, id, csrf)
        case Err(refusal) => Step(Prune(found.table, at.prunedAt), Err(refusal))
        case Ok(larger) => Refresh(larger, id, at.refreshedAt, false)
  }

  /** What a local browser's principal carries: the server launch and the session it was made under. */
  datatype Claim = Claim(launchId: string, sessionId: string)

  /** Whether a principal still holds; None for one that is not a local browser's. An expired session is removed on sight. */
  function AskStep(table: Table, launchId: string, claim: Option<Claim>, now: int): (Table, bool) {
    if claim.None? then (table, true)
    else if claim.value.launchId != launchId then (table, false)
    else if claim.value.sessionId !in table then (table, false)
    else if Expired(table[claim.value.sessionId], now) then (table - {claim.value.sessionId}, false)
    else (table, true)
  }

  /** Tokens throughout; idle expiry never exceeds absolute expiry, eight hours after creation. */
  predicate Entry(id: string, session: Session) {
    && IsToken(id) && IsToken(session.csrf)
    && session.absoluteExpiresAt == session.createdAt + ABSOLUTE_MS
    && session.idleExpiresAt <= session.absoluteExpiresAt
  }

  ghost predicate WellFormed(table: Table) {
    |table| <= MAX_SESSIONS && forall id | id in table :: Entry(id, table[id])
  }

  lemma FewerStaysWellFormed(table: Table, fewer: Table)
    requires WellFormed(table) && fewer.Keys <= table.Keys && forall id | id in fewer :: fewer[id] == table[id]
    ensures WellFormed(fewer)
  {
    SubsetSize(fewer.Keys, table.Keys);
  }

  lemma CurrentKeepsWellFormed(table: Table, cookies: seq<string>, now: int)
    requires WellFormed(table)
    ensures WellFormed(Current(table, cookies, now).table)
  {
    FewerStaysWellFormed(table, Current(table, cookies, now).table);
  }

  lemma RefreshKeepsWellFormed(table: Table, id: string, now: int)
    requires WellFormed(table) && id in table
    ensures WellFormed(table[id := Refreshed(table[id], now)])
  {
    assert table[id := Refreshed(table[id], now)].Keys == table.Keys;
  }

  /** An authentication leaves the table but for an expired session removed or a live one refreshed. */
  lemma AuthenticateTable(table: Table, r: Request, checkedAt: int, refreshedAt: int)
    ensures var found, after := Current(table, r.cookies, checkedAt), AuthenticateStep(table, r, checkedAt, refreshedAt).table;
      || after == table
      || after == found.table
      || (found.id.Some? && after == found.table[found.id.value := Refreshed(found.table[found.id.value], refreshedAt)])
  {
  }

  lemma AuthenticateKeepsWellFormed(table: Table, r: Request, checkedAt: int, refreshedAt: int)
    requires WellFormed(table)
    ensures WellFormed(AuthenticateStep(table, r, checkedAt, refreshedAt).table)
  {
    AuthenticateTable(table, r, checkedAt, refreshedAt);
    CurrentKeepsWellFormed(table, r.cookies, checkedAt);
    var found := Current(table, r.cookies, checkedAt);
    if found.id.Some? {
      RefreshKeepsWellFormed(found.table, found.id.value, refreshedAt);
    }
  }

  lemma CreateKeepsWellFormed(table: Table, prunedAt: int, createdAt: int, id: string, csrf: string)
    requires WellFormed(table)
    ensures WellFormed(Prune(table, prunedAt))
    ensures CreateStep(table, prunedAt, createdAt, id, csrf).Ok? ==>
      WellFormed(CreateStep(table, prunedAt, createdAt, id, csrf).value)
  {
    FewerStaysWellFormed(table, Prune(table, prunedAt));
  }

  lemma EstablishKeepsWellFormed(table: Table, r: Request, at: Readings, id: string, csrf: string)
    requires WellFormed(table)
    ensures WellFormed(EstablishStep(table, r, at, id, csrf).table)
  {
    CurrentKeepsWellFormed(table, r.cookies, at.checkedAt);
    var found := Current(table, r.cookies, at.checkedAt);
    if found.id.Some? {
      RefreshKeepsWellFormed(found.table, found.id.value, at.refreshedAt);
    } else {
      CreateKeepsWellFormed(found.table, at.prunedAt, at.createdAt, id, csrf);
      var created := CreateStep(found.table, at.prunedAt, at.createdAt, id, csrf);
      if created.Ok? {
        RefreshKeepsWellFormed(created.value, id, at.refreshedAt);
      }
    }
  }

  /**
   * A browser's request is bound to a session exactly when it comes from this machine with good headers and
   * the one cookie of a session live at the check; an unsafe one also needs that session's own CSRF token.
   */
  lemma BoundExactlyWhen(table: Table, r: Request, checkedAt: int, refreshedAt: int, id: string, csrfValidated: bool)
    requires WellFormed(table)
    ensures AuthenticateStep(table, r, checkedAt, refreshedAt).result == Ok(OfSession(id, csrfValidated)) <==>
      && r.context.None? && !r.forwarded && r.local && r.browserSignal && r.headersOk
      && r.cookies == [id] && IsToken(id) && id in table && !Expired(table[id], checkedAt)
      && csrfValidated == !r.safe && (!r.safe ==> r.csrf == Some(table[id].csrf))
  {
    if id in table && r.csrf.Some? {
      TokenMatchIsExact(table[id].csrf, r.csrf.value);
    }
  }

  /** A browser on this machine, neither forwarded nor with a context made upstream. */
  predicate FromLocalBrowser(r: Request) {
    r.context.None? && !r.forwarded && r.local && r.browserSignal
  }

  /** The one cookie names a session live at that time. */
  predicate NamesLive(table: Table, cookies: seq<string>, now: int) {
    |cookies| == 1 && IsToken(cookies[0]) && cookies[0] in table && !Expired(table[cookies[0]], now)
  }

  /**
   * A request passes as it came exactly when its upstream context is about it and safe or validated; when it is
   * forwarded, or not local, or no browser's; or when it is a local browser's safe one without a live session.
   */
  lemma PassesAsItCameExactlyWhen(table: Table, r: Request, checkedAt: int, refreshedAt: int)
    ensures AuthenticateStep(table, r, checkedAt, refreshedAt).result == Ok(AsItCame) <==>
      || (r.context.Some? && r.context.value.matchesRequest && (r.safe || r.context.value.csrfValidated))
      || (r.context.None? && r.forwarded && !r.browserSignal)
      || (r.context.None? && !r.forwarded && !(r.local && r.browserSignal))
      || (FromLocalBrowser(r) && r.safe && r.headersOk && !NamesLive(table, r.cookies, checkedAt))
  {
  }

  /** Any other request that is not bound to a session is refused, each for its own reason. */
  lemma RefusedExactlyWhen(table: Table, r: Request, checkedAt: int, refreshedAt: int)
    requires WellFormed(table)
    ensures var result := AuthenticateStep(table, r, checkedAt, refreshedAt).result;
      && (result == Err(BrowserContextMismatch) <==> r.context.Some? && !r.context.value.matchesRequest)
      && (result == Err(BrowserContextRequired) <==> r.context.None? && r.forwarded && r.browserSignal)
      && (result == Err(BadBrowserHeaders) <==> FromLocalBrowser(r) && !r.headersOk)
      && (result == Err(BrowserSessionRequired) <==>
        FromLocalBrowser(r) && r.headersOk && !r.safe && !NamesLive(table, r.cookies, checkedAt))
      && (result == Err(CsrfInvalid) <==>
        || (!r.safe && r.context.Some? && r.context.value.matchesRequest && !r.context.value.csrfValidated)
        || (!r.safe && FromLocalBrowser(r) && r.headersOk && NamesLive(table, r.cookies, checkedAt)
            && r.csrf != Some(table[r.cookies[0]].csrf)))
      && result != Err(SessionCapacity) && result != Err(BadToken)
  {
    if NamesLive(table, r.cookies, checkedAt) && r.csrf.Some? {
      TokenMatchIsExact(table[r.cookies[0]].csrf, r.csrf.value);
    }
  }

  /** Nothing but the session a request is bound to is refreshed, and nothing but an expired one it names is removed. */
  lemma TableAfterAuthentication(table: Table, r: Request, checkedAt: int, refreshedAt: int)
    ensures var step := AuthenticateStep(table, r, checkedAt, refreshedAt);
      var looks := FromLocalBrowser(r) && r.headersOk && |r.cookies| == 1 && IsToken(r.cookies[0]) && r.cookies[0] in table;
      step.table ==
        if step.result.Ok? && step.result.value.OfSession? && looks
        then table[r.cookies[0] := Refreshed(table[r.cookies[0]], refreshedAt)]
        else if looks && Expired(table[r.cookies[0]], checkedAt) then table - {r.cookies[0]}
        else table
  {
  }

  /** The sessions left when one establishes: without the expired one its cookie names, and without all expired ones. */
  function LeftToEstablish(table: Table, cookies: seq<string>, at: Readings): Table {
    map id | id in table && !(cookies == [id] && IsToken(id) && Expired(table[id], at.checkedAt)) && !Expired(table[id], at.prunedAt)
      :: table[id]
  }

  /**
   * Establishing answers with the live session the cookie names, refreshed; otherwise, exactly when there is room
   * after pruning and the drawn values are tokens, with a new one; and with bad headers, not at all.
   */
  lemma EstablishesExactlyWhen(table: Table, r: Request, at: Readings, id: string, csrf: string)
    ensures var step := EstablishStep(table, r, at, id, csrf);
      if r.browserSignal && !r.headersOk then step == Step(table, Err(BadBrowserHeaders))
      else if NamesLive(table, r.cookies, at.checkedAt) then
        step == Step(table[r.cookies[0] := Refreshed(table[r.cookies[0]], at.refreshedAt)], Ok(OfSession(r.cookies[0], false)))
      else step == NewlyEstablished(LeftToEstablish(table, r.cookies, at), at, id, csrf)
  {
    if !(r.browserSignal && !r.headersOk) {
      if NamesLive(table, r.cookies, at.checkedAt) {
        EstablishesLive(table, r, at, id, csrf);
      } else {
        EstablishesNew(table, r, at, id, csrf);
      }
    }
  }

  lemma EstablishesLive(table: Table, r: Request, at: Readings, id: string, csrf: string)
    requires (r.browserSignal ==> r.headersOk) && NamesLive(table, r.cookies, at.checkedAt)
    ensures EstablishStep(table, r, at, id, csrf) ==
      Step(table[r.cookies[0] := Refreshed(table[r.cookies[0]], at.refreshedAt)], Ok(OfSession(r.cookies[0], false)))
  {
  }

  lemma EstablishesNew(table: Table, r: Request, at: Readings, id: string, csrf: string)
    requires (r.browserSignal ==> r.headersOk) && !NamesLive(table, r.cookies, at.checkedAt)
    ensures EstablishStep(table, r, at, id, csrf) == NewlyEstablished(LeftToEstablish(table, r.cookies, at), at, id, csrf)
  {
    LeftIsPruned(table, r.cookies, at);
    NewFromLeft(Current(table, r.cookies, at.checkedAt).table, LeftToEstablish(table, r.cookies, at), at, id, csrf);
  }

  lemma NewFromLeft(found: Table, left: Table, at: Readings, id: string, csrf: string)
    requires Prune(found, at.prunedAt) == left
    ensures var created := CreateStep(found, at.prunedAt, at.createdAt, id, csrf);
      && (created.Err? ==> NewlyEstablished(left, at, id, csrf) == Step(left, Err(created.error)))
      && (created.Ok? ==>
        && id in created.value
        && NewlyEstablished(left, at, id, csrf) == Refresh(created.value, id, at.refreshedAt, false))
  {
    CreatesThenRefreshes(left, at, id, csrf);
  }

  lemma CreatesThenRefreshes(left: Table, at: Readings, id: string, csrf: string)
    ensures var created := left[id := NewSession(csrf, at.createdAt)];
      var absolute := at.createdAt + ABSOLUTE_MS;
      created[id := Refreshed(created[id], at.refreshedAt)]
        == left[id := Session(csrf, at.createdAt, Min(at.refreshedAt + IDLE_MS, absolute), absolute)]
  {
  }

  function NewlyEstablished(left: Table, at: Readings, id: string, csrf: string): Step {
    if |left| >= MAX_SESSIONS then Step(left, Err(SessionCapacity))
    else if !IsToken(id) || !IsToken(csrf) then Step(left, Err(BadToken))
    else
      var absolute := at.createdAt + ABSOLUTE_MS;
      Step(left[id := Session(csrf, at.createdAt, Min(at.refreshedAt + IDLE_MS, absolute), absolute)], Ok(OfSession(id, false)))
  }

  lemma LeftIsPruned(table: Table, cookies: seq<string>, at: Readings)
    ensures Prune(Current(table, cookies, at.checkedAt).table, at.prunedAt) == LeftToEstablish(table, cookies, at)
  {
  }

  /** A principal is current exactly when it is no local browser's, or of this launch with a live session; an expired one goes. */
  lemma CurrentExactlyWhen(table: Table, launchId: string, claim: Option<Claim>, now: int)
    ensures var asked := AskStep(table, launchId, claim, now);
      var known := claim.Some? && claim.value.launchId == launchId && claim.value.sessionId in table;
      && (asked.1 <==> claim.None? || (known && !Expired(table[claim.value.sessionId], now)))
      && asked.0 == if known && Expired(table[claim.value.sessionId], now) then table - {claim.value.sessionId} else table
  {
  }

  class BrowserSecurity {
    const hostServerLaunchId: string
    var sessions: Table

    ghost predicate Valid()
      reads this
    {
      WellFormed(sessions)
    }

    constructor (hostServerLaunchId: string)
      ensures this.hostServerLaunchId == hostServerLaunchId && sessions == map[] && Valid()
    {
      this.hostServerLaunchId := hostServerLaunchId;
      sessions := map[];
    }

    method CurrentSession(cookies: seq<string>, now: int) returns (id: Option<string>)
      requires Valid()
      modifies this
      ensures Valid()
      ensures forall x | cookies == [x] :: id == Some(x) <==> x in old(sessions) && !Expired(old(sessions)[x], now)
      ensures id.Some? ==> cookies == [id.value] && sessions == old(sessions)
      ensures forall x | x in old(sessions) :: x !in sessions <==> cookies == [x] && Expired(old(sessions)[x], now)
      ensures forall x | x in sessions :: x in old(sessions) && sessions[x] == old(sessions)[x]
      ensures Found(sessions, id) == Current(old(sessions), cookies, now)
    {
      CurrentKeepsWellFormed(sessions, cookies, now);
      if |cookies| != 1 || !IsToken(cookies[0]) {
        return None;
      }
      if cookies[0] !in sessions {
        return None;
      }
      if Expired(sessions[cookies[0]], now) {
        sessions := sessions - {cookies[0]};
        return None;
      }
      return Some(cookies[0]);
    }

    method RefreshSession(id: string, now: int)
      requires id in sessions
      modifies this
      ensures sessions == old(sessions)[id := Refreshed(old(sessions)[id], now)]
    {
      var session := sessions[id];
      sessions := sessions[id := session.(idleExpiresAt := Min(now + IDLE_MS, session.absoluteExpiresAt))];
    }

    method PruneExpired(now: int)
      modifies this
      ensures sessions == Prune(old(sessions), now)
    {
      var todo := sessions.Keys;
      while todo != {}
        invariant todo <= old(sessions).Keys
        invariant sessions == map id | id in old(sessions) && (id in todo || !Expired(old(sessions)[id], now)) :: old(sessions)[id]
        decreases todo
      {
        var id :| id in todo;
        if Expired(sessions[id], now) {
          sessions := sessions - {id};
        }
        todo := todo - {id};
      }
    }

    method CreateSession(prunedAt: int, createdAt: int, id: string, csrf: string) returns (r: Result<(), Refusal>)
      modifies this
      ensures r.Ok? <==> CreateStep(old(sessions), prunedAt, createdAt, id, csrf).Ok?
      ensures r.Ok? ==> Ok(sessions) == CreateStep(old(sessions), prunedAt, createdAt, id, csrf)
      ensures r.Err? ==> sessions == Prune(old(sessions), prunedAt)
      ensures r.Err? ==> CreateStep(old(sessions), prunedAt, createdAt, id, csrf) == Err(r.error)
      ensures r == Err(SessionCapacity) <==> |Prune(old(sessions), prunedAt)| >= MAX_SESSIONS
    {
      PruneExpired(prunedAt);
      if |sessions| >= MAX_SESSIONS {
        return Err(SessionCapacity);
      }
      if !IsToken(id) || !IsToken(csrf) {
        return Err(BadToken);
      }
      sessions := sessions[id := Session(csrf, createdAt, createdAt + IDLE_MS, createdAt + ABSOLUTE_MS)];
      return Ok(());
    }

    method Authenticate(r: Request, checkedAt: int, refreshedAt: int) returns (result: Result<Principal, Refusal>)
      requires Valid()
      modifies this
      ensures Valid()
      ensures !r.safe && FromLocalBrowser(r) && result.Ok? ==>
        NamesLive(old(sessions), r.cookies, checkedAt) && r.csrf == Some(old(sessions)[r.cookies[0]].csrf)
      ensures Step(sessions, result) == AuthenticateStep(old(sessions), r, checkedAt, refreshedAt)
    {
      RefusedExactlyWhen(sessions, r, checkedAt, refreshedAt);
      PassesAsItCameExactlyWhen(sessions, r, checkedAt, refreshedAt);
      AuthenticateKeepsWellFormed(sessions, r, checkedAt, refreshedAt);
      if r.context.Some? {
        if !r.context.value.matchesRequest {
          return Err(BrowserContextMismatch);
        }
        if !r.safe && !r.context.value.csrfValidated {
          return Err(CsrfInvalid);
        }
        return Ok(AsItCame);
      }
      if r.forwarded {
        if r.browserSignal {
          return Err(BrowserContextRequired);
        }
        return Ok(AsItCame);
      }
      if !r.local || !r.browserSignal {
        return Ok(AsItCame);
      }
      if !r.headersOk {
        return Err(BadBrowserHeaders);
      }
      var id := CurrentSession(r.cookies, checkedAt);
      if !r.safe {
        if id.None? {
          return Err(BrowserSessionRequired);
        }
        if !TokenMatches(sessions[id.value].csrf, r.csrf) {
          return Err(CsrfInvalid);
        }
        RefreshSession(id.value, refreshedAt);
        return Ok(OfSession(id.value, true));
      }
      if id.None? {
        return Ok(AsItCame);
      }
      RefreshSession(id.value, refreshedAt);
      return Ok(OfSession(id.value, false));
    }

    method Establish(r: Request, at: Readings, id: string, csrf: string) returns (result: Result<Principal, Refusal>)
      requires Valid()
      modifies this
      ensures Valid()
      ensures Step(sessions, result) == EstablishStep(old(sessions), r, at, id, csrf)
    {
      EstablishKeepsWellFormed(sessions, r, at, id, csrf);
      if r.browserSignal && !r.headersOk {
        return Err(BadBrowserHeaders);
      }
      var current := CurrentSession(r.cookies, at.checkedAt);
      var established := id;
      if current.Some? {
        established := current.value;
      } else {
        var created := CreateSession(at.prunedAt, at.createdAt, id, csrf);
        if created.Err? {
          return Err(created.error);
        }
      }
      RefreshSession(established, at.refreshedAt);
      return Ok(OfSession(established, false));
    }

    method IsPrincipalCurrent(claim: Option<Claim>, now: int) returns (current: bool)
      requires Valid()
      modifies this
      ensures Valid()
      ensures current <==> claim.Some? ==>
        claim.value.launchId == hostServerLaunchId
        && claim.value.sessionId in old(sessions) && !Expired(old(sessions)[claim.value.sessionId], now)
      ensures (sessions, current) == AskStep(old(sessions), hostServerLaunchId, claim, now)
    {
      FewerStaysWellFormed(sessions, AskStep(sessions, hostServerLaunchId, claim, now).0);
      if claim.None? {
        return true;
      }
      if claim.value.launchId != hostServerLaunchId {
        return false;
      }
      if claim.value.sessionId !in sessions {
        return false;
      }
      if Expired(sessions[claim.value.sessionId], now) {
        sessions := sessions - {claim.value.sessionId};
        return false;
      }
      return true;
    }
  }

  /**
   * A session found live at the check and refreshed at a later reading is revived, that is expired at that
   * reading and live again after it, exactly when its idle limit passed in between and its absolute one did not.
   */
  lemma RevivedExactlyWhenIdleRunsOutInBetween(session: Session, checkedAt: int, refreshedAt: int)
    requires !Expired(session, checkedAt) && checkedAt <= refreshedAt
    requires session.idleExpiresAt <= session.absoluteExpiresAt
    ensures Expired(session, refreshedAt) && !Expired(Refreshed(session, refreshedAt), refreshedAt)
      <==> session.idleExpiresAt <= refreshedAt < session.absoluteExpiresAt
  {
  }

  /** It happens: the check one millisecond before the idle limit, the refresh at it. */
  lemma RevivalWitness(id: string, csrf: string)
    requires IsToken(id)
    ensures var table := map[id := NewSession(csrf, 0)];
      var r := Request(true, true, false, None, true, true, [id], None);
      var step := AuthenticateStep(table, r, IDLE_MS - 1, IDLE_MS);
      && Expired(table[id], IDLE_MS)
      && step.result == Ok(OfSession(id, false)) && !Expired(step.table[id], IDLE_MS)
  {
  }
}

/** Whole runs of the session table under one clock. */
module BrowserSessionRuns {
  import opened Results
  import opened BrowserSessions

  datatype Event =
    | Authenticate(request: Request, checkedAt: int, refreshedAt: int)
    | Establish(request: Request, at: Readings, id: string, csrf: string)
    | Ask(launchId: string, claim: Option<Claim>, now: int)

  function First(event: Event): int {
    match event
    case Authenticate(_, checkedAt, _) => checkedAt
    case Establish(_, at, _, _) => at.checkedAt
    case Ask(_, _, now) => now
  }

  function Last(event: Event): int {
    match event
    case Authenticate(_, _, refreshedAt) => refreshedAt
    case Establish(_, at, _, _) => at.refreshedAt
    case Ask(_, _, now) => now
  }

  predicate ReadsForward(event: Event) {
    match event
    case Authenticate(_, checkedAt, refreshedAt) => checkedAt <= refreshedAt
    case Establish(_, at, _, _) => at.checkedAt <= at.prunedAt <= at.createdAt <= at.refreshedAt
    case Ask(_, _, _) => true
  }

  /** The clock never goes back, within an event or from one to the next. */
  predicate ClockNeverGoesBack(events: seq<Event>) {
    && (forall k | 0 <= k < |events| :: ReadsForward(events[k]))
    && forall i, j | 0 <= i < j < |events| :: Last(events[i]) <= First(events[j])
  }

  /** Every establishment draws an identifier of its own. */
  predicate IdsAreFresh(events: seq<Event>) {
    forall i, j | 0 <= i < j < |events| && events[i].Establish? && events[j].Establish? :: events[i].id != events[j].id
  }

  function Next(table: Table, event: Event): Table {
    match event
    case Authenticate(r, checkedAt, refreshedAt) => AuthenticateStep(table, r, checkedAt, refreshedAt).table
    case Establish(r, at, id, csrf) => EstablishStep(table, r, at, id, csrf).table
    case Ask(launchId, claim, now) => AskStep(table, launchId, claim, now).0
  }

  /** The session an event bound its request to. */
  function Bound(table: Table, event: Event): Option<string> {
    match event
    case Authenticate(r, checkedAt, refreshedAt) =>
      var result := AuthenticateStep(table, r, checkedAt, refreshedAt).result;
      if result.Ok? && result.value.OfSession? then Some(result.value.id) else None
    case Establish(r, at, id, csrf) =>
      var result := EstablishStep(table, r, at, id, csrf).result;
      if result.Ok? && result.value.OfSession? then Some(result.value.id) else None
    case Ask(_, _, _) => None
  }

  /** The table before event `k`, from an empty one. */
  function TableAt(events: seq<Event>, k: nat): Table
    requires k <= |events|
  {
    if k == 0 then map[] else Next(TableAt(events, k - 1), events[k - 1])
  }

  /** Event `k` used session `id`. */
  predicate UsedAt(events: seq<Event>, k: nat, id: string) {
    k < |events| && Bound(TableAt(events, k), events[k]) == Some(id)
  }

  /** Event `k` made session `id`. */
  predicate MadeAt(events: seq<Event>, k: nat, id: string) {
    k < |events| && events[k].Establish? && events[k].id == id && UsedAt(events, k, id) && id !in TableAt(events, k)
  }

  lemma NextKeepsWellFormed(table: Table, event: Event)
    requires WellFormed(table)
    ensures WellFormed(Next(table, event))
  {
    match event
    case Authenticate(r, checkedAt, refreshedAt) => AuthenticateKeepsWellFormed(table, r, checkedAt, refreshedAt);
    case Establish(r, at, id, csrf) => EstablishKeepsWellFormed(table, r, at, id, csrf);
    case Ask(launchId, claim, now) => FewerStaysWellFormed(table, AskStep(table, launchId, claim, now).0);
  }

  lemma {:induction false} TableStaysWellFormed(events: seq<Event>, k: nat)
    requires k <= |events|
    ensures WellFormed(TableAt(events, k))
  {
    if k > 0 {
      TableStaysWellFormed(events, k - 1);
      var table := TableAt(events, k - 1);
      NextKeepsWellFormed(table, events[k - 1]);
      assert TableAt(events, k) == Next(table, events[k - 1]);
    }
  }

  /** The session is gone, or expired at `now`. */
  predicate Dead(table: Table, id: string, now: int) {
    id !in table || Expired(table[id], now)
  }

  lemma DeadStaysDead(table: Table, event: Event, id: string, now: int)
    requires Dead(table, id, now) && now <= First(event) && ReadsForward(event)
    requires event.Establish? ==> event.id != id
    ensures Dead(Next(table, event), id, now) && Bound(table, event) != Some(id)
  {
    match event
    case Authenticate(r, checkedAt, _) => DeadIsNotFound(table, r.cookies, checkedAt, id, now);
    case Establish(r, at, other, csrf) => DeadAfterEstablishing(table, r, at, other, csrf, id, now);
    case Ask(_, _, _) =>
  }

  lemma DeadAfterEstablishing(table: Table, r: Request, at: Readings, other: string, csrf: string, id: string, now: int)
    requires Dead(table, id, now) && now <= at.checkedAt && other != id
    ensures var step := EstablishStep(table, r, at, other, csrf);
      Dead(step.table, id, now) && (step.result.Ok? && step.result.value.OfSession? ==> step.result.value.id != id)
  {
    DeadIsNotFound(table, r.cookies, at.checkedAt, id, now);
  }

  lemma DeadIsNotFound(table: Table, cookies: seq<string>, checkedAt: int, id: string, now: int)
    requires Dead(table, id, now) && now <= checkedAt
    ensures Dead(Current(table, cookies, checkedAt).table, id, now) && Current(table, cookies, checkedAt).id != Some(id)
  {
  }

  /** Once a session of the past is expired at the end of an event, nothing ever uses it again. */
  lemma {:induction false} ExpiredNeverReturns(events: seq<Event>, made: nat, k: nat, j: nat, id: string)
    requires ClockNeverGoesBack(events) && IdsAreFresh(events)
    requires made < k <= j < |events| && events[made].Establish? && events[made].id == id
    requires Dead(TableAt(events, k), id, Last(events[k - 1]))
    ensures Dead(TableAt(events, j), id, Last(events[k - 1])) && !UsedAt(events, j, id)
    decreases j
  {
    if j > k {
      ExpiredNeverReturns(events, made, k, j - 1, id);
      DeadStaysDead(TableAt(events, j - 1), events[j - 1], id, Last(events[k - 1]));
    }
    DeadStaysDead(TableAt(events, j), events[j], id, Last(events[k - 1]));
  }

  /** No event after `used` and before `k` used the session. */
  predicate NotUsedSince(events: seq<Event>, used: nat, k: nat, id: string)
    requires k <= |events|
    decreases k
  {
    used + 1 < k ==> NotUsedSince(events, used, k - 1, id) && !UsedAt(events, k - 1, id)
  }

  /** The session in the table is the one made at event `made`, last used at event `used`. */
  predicate Traces(events: seq<Event>, k: nat, id: string, made: nat, used: nat)
    requires k <= |events|
  {
    && made <= used < k && MadeAt(events, made, id) && UsedAt(events, used, id)
    && NotUsedSince(events, used, k, id)
    && id in TableAt(events, k)
    && TableAt(events, k)[id].absoluteExpiresAt == events[made].at.createdAt + ABSOLUTE_MS
    && TableAt(events, k)[id].idleExpiresAt ==
         Min(Last(events[used]) + IDLE_MS, events[made].at.createdAt + ABSOLUTE_MS)
  }

  /** An event leaves a session as it was, uses it, or makes it. */
  lemma SessionStep(table: Table, event: Event, id: string)
    requires id in Next(table, event) && (id in table && event.Establish? ==> event.id != id)
    ensures var session := Next(table, event)[id];
      if Bound(table, event) == Some(id) then
        && session.idleExpiresAt == Min(Last(event) + IDLE_MS, session.absoluteExpiresAt)
        && if id in table then session.absoluteExpiresAt == table[id].absoluteExpiresAt
           else event.Establish? && event.id == id && session.absoluteExpiresAt == event.at.createdAt + ABSOLUTE_MS
      else id in table && session == table[id]
  {
  }

  /** Every session in the table goes back to one making and one last use. */
  lemma {:induction false} SessionsAreTraced(events: seq<Event>, k: nat, id: string) returns (made: nat, used: nat)
    requires IdsAreFresh(events) && k <= |events| && id in TableAt(events, k)
    ensures Traces(events, k, id, made, used)
  {
    if id in TableAt(events, k - 1) {
      made, used := SessionsAreTraced(events, k - 1, id);
      TraceGoesOn(events, k, id, made, used);
      if UsedAt(events, k - 1, id) {
        used := k - 1;
      }
    } else {
      made, used := k - 1, k - 1;
      TraceBegins(events, k, id);
    }
  }

  lemma TraceBegins(events: seq<Event>, k: nat, id: string)
    requires 0 < k <= |events| && id in TableAt(events, k) && id !in TableAt(events, k - 1)
    ensures Traces(events, k, id, k - 1, k - 1)
  {
    SessionStep(TableAt(events, k - 1), events[k - 1], id);
  }

  lemma StepAt(events: seq<Event>, k: nat, id: string)
    requires 0 < k <= |events| && id in TableAt(events, k) && id in TableAt(events, k - 1)
    requires events[k - 1].Establish? ==> events[k - 1].id != id
    ensures var before, after := TableAt(events, k - 1)[id], TableAt(events, k)[id];
      if UsedAt(events, k - 1, id) then
        after.absoluteExpiresAt == before.absoluteExpiresAt
        && after.idleExpiresAt == Min(Last(events[k - 1]) + IDLE_MS, before.absoluteExpiresAt)
      else after == before
  {
    SessionStep(TableAt(events, k - 1), events[k - 1], id);
  }

  lemma TraceGoesOn(events: seq<Event>, k: nat, id: string, made: nat, used: nat)
    requires 0 < k <= |events| && IdsAreFresh(events) && id in TableAt(events, k) && Traces(events, k - 1, id, made, used)
    ensures Traces(events, k, id, made, if UsedAt(events, k - 1, id) then k - 1 else used)
  {
    assert events[k - 1].Establish? ==> events[made].id != events[k - 1].id;
    StepAt(events, k, id);
  }

  lemma UsedSessionIsLive(table: Table, event: Event, id: string)
    requires Bound(table, event) == Some(id) && (event.Establish? ==> event.id != id)
    ensures id in table && !Expired(table[id], First(event))
  {
  }

  /**
   * A session is used again only within eight hours of its making and within thirty minutes of its previous
   * use; the check's clock reading counts now, the refresh's counted then.
   */
  lemma UsedWithinLimits(events: seq<Event>, j: nat, id: string) returns (made: nat, used: nat)
    requires IdsAreFresh(events) && UsedAt(events, j, id) && !MadeAt(events, j, id)
    ensures Traces(events, j, id, made, used)
    ensures First(events[j]) < events[made].at.createdAt + ABSOLUTE_MS
    ensures First(events[j]) < Last(events[used]) + IDLE_MS
  {
    var table := TableAt(events, j);
    if id in table {
      made, used := SessionsAreTraced(events, j, id);
    } else {
      assert false;
    }
    UsedSessionIsLive(table, events[j], id);
  }
}
