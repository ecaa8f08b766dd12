/** Maps listed as pairs, in any order. */
module Listings {
  import opened Results

  /** Every pair of the map exactly once. */
  ghost predicate IsListing<K, V>(pairs: seq<(K, V)>, m: map<K, V>) {
    && (forall i | 0 <= i < |pairs| :: pairs[i].0 in m && m[pairs[i].0] == pairs[i].1)
    && (forall i, j | 0 <= i < j < |pairs| :: pairs[i].0 != pairs[j].0)
    && (forall key | key in m :: exists i :: 0 <= i < |pairs| && pairs[i].0 == key)
  }

  /** The map some pairs add up to; None when a key comes twice. */
  function FromPairs<K(==), V>(pairs: seq<(K, V)>): Option<map<K, V>> {
    if pairs == [] then Some(map[])
    else
      var last := pairs[|pairs| - 1];
      var m :- FromPairs(pairs[..|pairs| - 1]);
      if last.0 in m then None else Some(m[last.0 := last.1])
  }

  lemma ListingOfFront<K, V>(pairs: seq<(K, V)>, m: map<K, V>)
    requires IsListing(pairs, m) && pairs != []
    ensures IsListing(pairs[..|pairs| - 1], m - {pairs[|pairs| - 1].0})
  {
    var n := |pairs| - 1;
    var front, fewer := pairs[..n], m - {pairs[n].0};
    forall key | key in fewer ensures exists i :: 0 <= i < |front| && front[i].0 == key {
      var i :| 0 <= i < |pairs| && pairs[i].0 == key;
      assert front[i] == pairs[i];
    }
  }

  /** The order of a listing does not matter: all that counts is that it has every pair once. */
  lemma {:induction false} ListingsRestore<K, V>(pairs: seq<(K, V)>, m: map<K, V>)
    ensures FromPairs(pairs) == Some(m) <==> IsListing(pairs, m)
    decreases |pairs|
  {
    if pairs == [] {
      if IsListing(pairs, m) { assert m == map[]; }
    } else {
      var n := |pairs| - 1;
      var last, front := pairs[n], pairs[..n];
      if IsListing(pairs, m) {
        ListingOfFront(pairs, m);
        ListingsRestore(front, m - {last.0});
        assert (m - {last.0})[last.0 := last.1] == m;
      }
      if FromPairs(pairs) == Some(m) {
        ListingsRestore(front, FromPairs(front).value);
        ListingExtends(front, FromPairs(front).value, last);
        assert front + [last] == pairs;
      }
    }
  }

  lemma ListingExtends<K, V>(pairs: seq<(K, V)>, m: map<K, V>, last: (K, V))
    requires IsListing(pairs, m) && last.0 !in m
    ensures IsListing(pairs + [last], m[last.0 := last.1])
  {
    var longer := pairs + [last];
    var larger := m[last.0 := last.1];
    forall key | key in larger ensures exists i :: 0 <= i < |longer| && longer[i].0 == key {
      if key == last.0 {
        assert longer[|pairs|].0 == key;
      } else {
        var i :| 0 <= i < |pairs| && pairs[i].0 == key;
        assert longer[i].0 == key;
      }
    }
  }

  lemma SizeWithout<K, V>(m: map<K, V>, key: K)
    requires key in m
    ensures |m| == |m - {key}| + 1
  {
    assert m == (m - {key})[key := m[key]];
  }

  lemma {:induction false} ListingSize<K, V>(pairs: seq<(K, V)>, m: map<K, V>)
    requires IsListing(pairs, m)
    ensures |pairs| == |m|
    decreases |pairs|
  {
    if pairs == [] {
      assert m == map[];
    } else {
      var last := pairs[|pairs| - 1];
      ListingOfFront(pairs, m);
      ListingSize(pairs[..|pairs| - 1], m - {last.0});
      SizeWithout(m, last.0);
    }
  }

  lemma {:induction false} RefusedPrefix<K, V>(pairs: seq<(K, V)>, n: nat)
    requires n <= |pairs| && FromPairs(pairs[..n]) == None
    ensures FromPairs(pairs) == None
    decreases |pairs| - n
  {
    if n == |pairs| {
      assert pairs[..n] == pairs;
    } else {
      assert pairs[..n + 1][..n] == pairs[..n];
      RefusedPrefix(pairs, n + 1);
    }
  }
}

/** The nonce window that keeps a signed control envelope from being accepted twice. */
module NonceWindows {
  import opened Results
  import opened ByteStrings
  import opened Listings
  import opened Sets
  import Base64Url

  const RETENTION_SECONDS := 600
  const SKEW_SECONDS := 60
  const MAX_ENTRIES := 1024

  datatype Outcome = Accepted | InvalidIdentity | OutOfRange | InvalidNonce | NonceReplay | NonceCapacity

  /** `identity:nonce` to the second it was accepted. */
  type Entries = map<string, int>

  predicate IsIdentityCharacter(c: char) {
    'A' <= c <= 'Z' || 'a' <= c <= 'z' || '0' <= c <= '9' || c == '.' || c == '_' || c == ':' || c == '-'
  }

  predicate ValidIdentity(identity: string) {
    1 <= |identity| <= 160 && forall i | 0 <= i < |identity| :: IsIdentityCharacter(identity[i])
  }

  function Key(identity: string, nonce: string): string {
    identity + ":" + nonce
  }

  predicate Expired(acceptedAt: int, now: int) {
    acceptedAt <= now && now - acceptedAt >= RETENTION_SECONDS
  }

  function Prune(entries: Entries, now: int): Entries {
    map key | key in entries && !Expired(entries[key], now) :: entries[key]
  }

  /** What the pruning loop has left so far: the keys still to look at, and those it kept. */
  function PrunedBut(entries: Entries, todo: set<string>, now: int): Entries {
    map key | key in entries && (key in todo || !Expired(entries[key], now)) :: entries[key]
  }

  lemma PruneStep(entries: Entries, todo: set<string>, key: string, now: int)
    requires key in todo && todo <= entries.Keys
    ensures key in PrunedBut(entries, todo, now) && PrunedBut(entries, todo, now)[key] == entries[key]
    ensures PrunedBut(entries, todo - {key}, now) ==
      if Expired(entries[key], now) then PrunedBut(entries, todo, now) - {key} else PrunedBut(entries, todo, now)
  {
  }

  lemma PruneEnds(entries: Entries, now: int)
    ensures PrunedBut(entries, entries.Keys, now) == entries && PrunedBut(entries, {}, now) == Prune(entries, now)
  {
  }

  datatype Step = Step(entries: Entries, outcome: Outcome)

  /** A refused nonce changes nothing but the expired entries, which go as soon as the clock is read. */
  function AcceptStep(entries: Entries, identity: string, nonce: Bytes, now: int): Step {
    if !ValidIdentity(identity) then Step(entries, InvalidIdentity)
    else if !(0 <= now <= UINT64_MAX) then Step(entries, OutOfRange)
    else
      var kept := Prune(entries, now);
      var key := Key(identity, Base64Url.Encode(nonce));
      if |nonce| != 16 then Step(kept, InvalidNonce)
      else if key in kept then Step(kept, NonceReplay)
      else if |kept| >= MAX_ENTRIES then Step(kept, NonceCapacity)
      else Step(kept[key := now], Accepted)
  }

  /** One line of a snapshot. */
  datatype Line = Line(identity: string, nonce: string, acceptedAt: int)

  predicate ValidLine(line: Line) {
    ValidIdentity(line.identity) && Base64Url.IsText(line.nonce, 16) && 0 <= line.acceptedAt <= UINT64_MAX
  }

  function LineKey(line: Line): string {
    Key(line.identity, line.nonce)
  }

  function Pairs(lines: seq<Line>): (pairs: seq<(string, int)>)
    ensures |pairs| == |lines|
    ensures forall i | 0 <= i < |lines| :: pairs[i] == (LineKey(lines[i]), lines[i].acceptedAt)
  {
    seq(|lines|, i requires 0 <= i < |lines| => (LineKey(lines[i]), lines[i].acceptedAt))
  }

  predicate AllValid(lines: seq<Line>) {
    forall line | line in lines :: ValidLine(line)
  }

  function EntriesOf(lines: seq<Line>): Option<Entries> {
    if AllValid(lines) then FromPairs(Pairs(lines)) else None
  }

  /** The window a restart builds: None where the source refuses the snapshot. */
  function Restored(lines: seq<Line>): Option<Entries> {
    if |lines| > MAX_ENTRIES then None else EntriesOf(lines)
  }

  /** Every key is an identity and a nonce, and the window is within its capacity. */
  ghost predicate WellFormed(entries: Entries) {
    && |entries| <= MAX_ENTRIES
    && forall key | key in entries :: 0 <= entries[key] <= UINT64_MAX && IsEntryKey(key)
  }

  ghost predicate IsEntryKey(key: string) {
    exists identity, nonce :: KeyParts(key, identity, nonce)
  }

  predicate KeyParts(key: string, identity: string, nonce: string) {
    key == Key(identity, nonce) && ValidIdentity(identity) && Base64Url.IsText(nonce, 16)
  }

  // ---- the key splits at its last colon ------------------------------------------------------------

  function LastColon(text: string): (at: int)
    ensures -1 <= at < |text|
    ensures at >= 0 ==> text[at] == ':'
    ensures forall i | at < i < |text| :: text[i] != ':'
  {
    if text == [] then -1
    else if text[|text| - 1] == ':' then |text| - 1
    else LastColon(text[..|text| - 1])
  }

  lemma TextHasNoColon(nonce: string)
    requires Base64Url.IsText(nonce, 16)
    ensures ':' !in nonce
  {
    Base64Url.EncodeOfDecode(nonce);
    Base64Url.EncodeHasNoColon(Base64Url.Decode(nonce).value);
  }

  /** An identity may hold colons, a nonce cannot: the last colon is the separator. */
  lemma KeySplits(key: string, identity: string, nonce: string)
    requires KeyParts(key, identity, nonce)
    ensures var at := LastColon(key); at >= 0 && key[..at] == identity && key[at + 1..] == nonce
  {
    TextHasNoColon(nonce);
    var at := |identity|;
    assert key[at] == ':' && key[at + 1..] == nonce;
    assert forall i | at < i < |key| :: key[i] == nonce[i - at - 1];
    assert LastColon(key) == at;
    assert key[..at] == identity;
  }

  // ---- the steps keep the window well formed -------------------------------------------------------

  lemma PruneShrinks(entries: Entries, now: int)
    ensures |Prune(entries, now)| <= |entries|
  {
    SubsetSize(Prune(entries, now).Keys, entries.Keys);
  }

  lemma AcceptKeepsWellFormed(entries: Entries, identity: string, nonce: Bytes, now: int)
    requires WellFormed(entries)
    ensures WellFormed(AcceptStep(entries, identity, nonce, now).entries)
  {
    PruneShrinks(entries, now);
    var text := Base64Url.Encode(nonce);
    Base64Url.DecodeOfEncode(nonce);
    if |nonce| == 16 && ValidIdentity(identity) {
      assert KeyParts(Key(identity, text), identity, text);
    }
  }

  /** Held: accepted less than 600 seconds before, or after, this reading of the clock. */
  predicate Held(entries: Entries, key: string, now: int) {
    key in entries && now - entries[key] < RETENTION_SECONDS
  }

  function HeldOnes(entries: Entries, now: int): Entries {
    map key | key in entries && Held(entries, key, now) :: entries[key]
  }

  lemma HeldStay(entries: Entries, now: int)
    ensures Prune(entries, now) == HeldOnes(entries, now)
  {
  }

  /** A nonce is accepted exactly when identity, clock and nonce are well formed, it is not held, and fewer than 1,024 are. */
  lemma AcceptsExactlyWhen(entries: Entries, identity: string, nonce: Bytes, now: int)
    ensures var key, outcome := Key(identity, Base64Url.Encode(nonce)), AcceptStep(entries, identity, nonce, now).outcome;
      if !ValidIdentity(identity) then outcome == InvalidIdentity
      else if now < 0 || now > UINT64_MAX then outcome == OutOfRange
      else
        && (outcome == InvalidNonce <==> |nonce| != 16)
        && (outcome == NonceReplay <==> |nonce| == 16 && Held(entries, key, now))
        && (outcome == NonceCapacity <==> |nonce| == 16 && !Held(entries, key, now) && |HeldOnes(entries, now)| >= MAX_ENTRIES)
        && outcome != InvalidIdentity && outcome != OutOfRange
  {
    HeldStay(entries, now);
  }

  /** Exactly the held nonces stay, whatever the outcome, and an accepted one is held from now on. */
  lemma EntriesAfterAccept(entries: Entries, identity: string, nonce: Bytes, now: int)
    ensures var step := AcceptStep(entries, identity, nonce, now);
      step.entries ==
        if step.outcome == InvalidIdentity || step.outcome == OutOfRange then entries
        else if step.outcome == Accepted then HeldOnes(entries, now)[Key(identity, Base64Url.Encode(nonce)) := now]
        else HeldOnes(entries, now)
  {
    HeldStay(entries, now);
  }

  class NonceWindow {
    var entries: Entries

    ghost predicate Valid()
      reads this
    {
      WellFormed(entries)
    }

    constructor ()
      ensures entries == map[] && Valid()
    {
      entries := map[];
    }

    method Accept(identity: string, nonce: Bytes, now: int) returns (outcome: Outcome)
      requires Valid()
      modifies this
      ensures Valid()
      ensures Step(entries, outcome) == AcceptStep(old(entries), identity, nonce, now)
    {
      AcceptKeepsWellFormed(entries, identity, nonce, now);
      if !ValidIdentity(identity) {
        return InvalidIdentity;
      }
      if !(0 <= now <= UINT64_MAX) {
        return OutOfRange;
      }
      var todo := entries.Keys;
      PruneEnds(entries, now);
      while todo != {}
        invariant todo <= old(entries).Keys && entries == PrunedBut(old(entries), todo, now)
        decreases todo
      {
        var key :| key in todo;
        PruneStep(old(entries), todo, key, now);
        if Expired(entries[key], now) {
          entries := entries - {key};
        }
        todo := todo - {key};
      }
      if |nonce| != 16 {
        return InvalidNonce;
      }
      var key := Key(identity, Base64Url.Encode(nonce));
      if key in entries {
        return NonceReplay;
      }
      if |entries| >= MAX_ENTRIES {
        return NonceCapacity;
      }
      entries := entries[key := now];
      return Outcome.Accepted;
    }

    /** The entries as lines, each key split at its last colon. */
    method Snapshot() returns (lines: seq<Line>)
      requires Valid()
      ensures IsListing(Pairs(lines), entries)
      ensures Restored(lines) == Some(entries)
    {
      lines := [];
      var todo := entries.Keys;
      NothingListed(entries);
      while todo != {}
        invariant todo <= entries.Keys && ListedBut(lines, entries, todo)
        decreases todo
      {
        var key :| key in todo;
        ListingStep(entries, todo, key, lines);
        lines := lines + [LineFor(key, entries[key])];
        todo := todo - {key};
      }
      AllListed(lines, entries);
    }

    /** A restart: None where the source refuses the snapshot. */
    static method Restore(lines: seq<Line>) returns (r: Option<NonceWindow>)
      ensures r.Some? <==> Restored(lines).Some?
      ensures r.Some? ==> fresh(r.value) && r.value.Valid() && Restored(lines) == Some(r.value.entries)
    {
      if |lines| > MAX_ENTRIES {
        return None;
      }
      var window := new NonceWindow();
      var i := 0;
      while i < |lines|
        invariant i <= |lines|
        invariant EntriesOf(lines[..i]) == Some(window.entries)
        invariant |window.entries| <= i && WellFormed(window.entries)
        invariant fresh(window)
      {
        var line := lines[i];
        RefusedLine(lines, i, window.entries);
        AcceptedLine(lines, i, window.entries);
        if !ValidLine(line) || LineKey(line) in window.entries {
          return None;
        }
        window.entries := window.entries[LineKey(line) := line.acceptedAt];
        i := i + 1;
      }
      assert lines[..i] == lines;
      return Some(window);
    }
  }

  lemma PairsExtend(lines: seq<Line>, line: Line)
    ensures Pairs(lines + [line]) == Pairs(lines) + [(LineKey(line), line.acceptedAt)]
    ensures FromPairs(Pairs(lines + [line])) ==
      if FromPairs(Pairs(lines)).None? || LineKey(line) in FromPairs(Pairs(lines)).value then None
      else Some(FromPairs(Pairs(lines)).value[LineKey(line) := line.acceptedAt])
  {
    var pairs := Pairs(lines + [line]);
    assert pairs[..|lines|] == Pairs(lines);
  }

  lemma KeyIsSplit(entries: Entries, key: string)
    requires WellFormed(entries) && key in entries
    ensures LastColon(key) >= 0
    ensures ValidLine(LineFor(key, entries[key])) && LineKey(LineFor(key, entries[key])) == key
  {
    var identity, nonce :| KeyParts(key, identity, nonce);
    KeySplits(key, identity, nonce);
  }

  /** The lines list the entries but for those still to do. */
  predicate ListedBut(lines: seq<Line>, entries: Entries, todo: set<string>) {
    AllValid(lines) && FromPairs(Pairs(lines)) == Some(entries - todo)
  }

  lemma NothingListed(entries: Entries)
    ensures ListedBut([], entries, entries.Keys)
  {
    assert entries - entries.Keys == map[];
  }

  lemma AllListed(lines: seq<Line>, entries: Entries)
    requires WellFormed(entries) && ListedBut(lines, entries, {})
    ensures IsListing(Pairs(lines), entries) && Restored(lines) == Some(entries)
  {
    assert entries - {} == entries;
    ListingsRestore(Pairs(lines), entries);
    RestartIsTransparent(lines, entries);
  }

  function LineFor(key: string, acceptedAt: int): Line
    requires LastColon(key) >= 0
  {
    Line(key[..LastColon(key)], key[LastColon(key) + 1..], acceptedAt)
  }

  /** One more entry written to a snapshot. */
  lemma ListingStep(entries: Entries, todo: set<string>, key: string, lines: seq<Line>)
    requires WellFormed(entries) && key in todo && todo <= entries.Keys && ListedBut(lines, entries, todo)
    ensures LastColon(key) >= 0 && ListedBut(lines + [LineFor(key, entries[key])], entries, todo - {key})
  {
    KeyIsSplit(entries, key);
    PairsExtend(lines, LineFor(key, entries[key]));
    assert (entries - todo)[key := entries[key]] == entries - (todo - {key});
  }

  /** A line no snapshot can have. */
  lemma RefusedLine(lines: seq<Line>, i: nat, entries: Entries)
    requires i < |lines| && EntriesOf(lines[..i]) == Some(entries)
    ensures !ValidLine(lines[i]) || LineKey(lines[i]) in entries ==> Restored(lines) == None
  {
    if ValidLine(lines[i]) && LineKey(lines[i]) in entries {
      assert lines[..i + 1] == lines[..i] + [lines[i]];
      PairsExtend(lines[..i], lines[i]);
      assert Pairs(lines)[..i + 1] == Pairs(lines[..i + 1]);
      RefusedPrefix(Pairs(lines), i + 1);
    }
  }

  /** One more line read from a snapshot. */
  lemma AcceptedLine(lines: seq<Line>, i: nat, entries: Entries)
    requires i < |lines|
    requires EntriesOf(lines[..i]) == Some(entries) && WellFormed(entries) && |entries| <= i < MAX_ENTRIES
    ensures ValidLine(lines[i]) && LineKey(lines[i]) !in entries ==>
      var more := entries[LineKey(lines[i]) := lines[i].acceptedAt];
      EntriesOf(lines[..i + 1]) == Some(more) && WellFormed(more) && |more| <= i + 1
  {
    var line := lines[i];
    if ValidLine(line) && LineKey(line) !in entries {
      assert lines[..i + 1] == lines[..i] + [line];
      PairsExtend(lines[..i], line);
      assert AllValid(lines[..i + 1]);
      EntryAdded(entries, line);
    }
  }

  lemma EntryAdded(entries: Entries, line: Line)
    requires WellFormed(entries) && |entries| < MAX_ENTRIES && ValidLine(line)
    ensures WellFormed(entries[LineKey(line) := line.acceptedAt])
  {
    assert KeyParts(LineKey(line), line.identity, line.nonce);
  }

  /** A snapshot restores exactly the entries it lists, each once, at most 1,024 of them and all well formed. */
  lemma RestoresExactlyWhen(lines: seq<Line>, entries: Entries)
    ensures Restored(lines) == Some(entries) <==> |lines| <= MAX_ENTRIES && AllValid(lines) && IsListing(Pairs(lines), entries)
  {
    ListingsRestore(Pairs(lines), entries);
  }

  /**
   * Restarting is invisible: whatever order its lines come in, a snapshot of a well-formed window
   * restores that window, and nothing else.
   */
  lemma RestartIsTransparent(lines: seq<Line>, entries: Entries)
    requires WellFormed(entries) && AllValid(lines) && IsListing(Pairs(lines), entries)
    ensures Restored(lines) == Some(entries)
  {
    ListingsRestore(Pairs(lines), entries);
    ListingSize(Pairs(lines), entries);
  }
}

/** Whole runs of one nonce window: envelopes checked, nonces accepted directly, restarts from a snapshot. */
module NonceRuns {
  import opened Results
  import opened ByteStrings
  import opened Listings
  import opened NonceWindows
  import Base64Url

  /** What a signed request or response contributes: who signed it, its nonce and its timestamp. */
  datatype Envelope = Envelope(identity: string, nonce: Bytes, timestamp: int)

  datatype Event =
    | Check(envelope: Envelope, genuine: bool, now: int)
    | Direct(identity: string, nonce: Bytes, now: int)
    | Restart(lines: seq<Line>)

  datatype Verdict = Verified | OutsideWindow | NotGenuine | Refused(outcome: Outcome) | NoVerdict

  /** The source's window: its two ends are clamped to the uint64 range instead of leaving it. */
  predicate InClampedWindow(timestamp: int, now: int) {
    var lower := if now >= SKEW_SECONDS then now - SKEW_SECONDS else 0;
    var upper := if now > UINT64_MAX - SKEW_SECONDS then UINT64_MAX else now + SKEW_SECONDS;
    lower <= timestamp <= upper
  }

  lemma ClampedWindowIsExact(timestamp: int, now: int)
    requires 0 <= timestamp <= UINT64_MAX && 0 <= now <= UINT64_MAX
    ensures InClampedWindow(timestamp, now) <==> -SKEW_SECONDS <= timestamp - now <= SKEW_SECONDS
  {
  }

  /** The timestamp is checked first, the signature and certificate next, the nonce last. */
  function CheckVerdict(entries: Entries, envelope: Envelope, genuine: bool, now: int): (Entries, Verdict) {
    if !(0 <= now <= UINT64_MAX) || !(0 <= envelope.timestamp <= UINT64_MAX) then (entries, OutsideWindow)
    else if !InClampedWindow(envelope.timestamp, now) then (entries, OutsideWindow)
    else if !genuine then (entries, NotGenuine)
    else
      var step := AcceptStep(entries, envelope.identity, envelope.nonce, now);
      (step.entries, if step.outcome == Accepted then Verified else Refused(step.outcome))
  }

  /** An envelope verifies exactly when it is genuine, within 60 seconds of now, and its nonce neither held nor without room. */
  lemma VerifiedExactlyWhen(entries: Entries, envelope: Envelope, genuine: bool, now: int)
    ensures CheckVerdict(entries, envelope, genuine, now).1 == Verified <==>
      && genuine && 0 <= now <= UINT64_MAX && 0 <= envelope.timestamp <= UINT64_MAX
      && -SKEW_SECONDS <= envelope.timestamp - now <= SKEW_SECONDS
      && ValidIdentity(envelope.identity) && |envelope.nonce| == 16
      && (KeyOf(envelope) in entries ==> now - entries[KeyOf(envelope)] >= RETENTION_SECONDS)
      && |Prune(entries, now)| < MAX_ENTRIES
  {
  }

  /** Out of the window, not genuine, or refused by its nonce, in that order, and only a nonce within the window is looked up. */
  lemma VerdictReasons(entries: Entries, envelope: Envelope, genuine: bool, now: int)
    ensures var after := CheckVerdict(entries, envelope, genuine, now);
      var timely :=
        && 0 <= now <= UINT64_MAX && 0 <= envelope.timestamp <= UINT64_MAX
        && -SKEW_SECONDS <= envelope.timestamp - now <= SKEW_SECONDS;
      && (after.1 == OutsideWindow <==> !timely) && (after.1 == NotGenuine <==> timely && !genuine)
      && (!timely || !genuine ==> after.0 == entries)
  {
  }

  ghost function Next(entries: Entries, event: Event): (Entries, Verdict) {
    match event
    case Check(envelope, genuine, now) => CheckVerdict(entries, envelope, genuine, now)
    case Direct(identity, nonce, now) =>
      var step := AcceptStep(entries, identity, nonce, now);
      (step.entries, if step.outcome == Accepted then Verified else Refused(step.outcome))
    case Restart(lines) =>
      if IsListing(Pairs(lines), entries) && Restored(lines).Some? then (Restored(lines).value, NoVerdict)
      else (entries, NoVerdict)
  }

  /** The window before event `k` of a run that starts empty. */
  ghost function EntriesAt(events: seq<Event>, k: nat): Entries
    requires k <= |events|
  {
    if k == 0 then map[] else Next(EntriesAt(events, k - 1), events[k - 1]).0
  }

  ghost function VerdictAt(events: seq<Event>, k: nat): Verdict
    requires k < |events|
  {
    Next(EntriesAt(events, k), events[k]).1
  }

  ghost predicate VerifiedAt(events: seq<Event>, k: nat, envelope: Envelope) {
    k < |events| && events[k].Check? && events[k].envelope == envelope && VerdictAt(events, k) == Verified
  }

  /** The clock was read at event `k` and showed at least `bound`. */
  predicate ClockReached(events: seq<Event>, k: nat, bound: int) {
    k < |events| && !events[k].Restart? && events[k].now >= bound
  }

  /** Strictly between events `i` and `j` the clock showed at least `bound`. */
  ghost predicate ClockReachedBetween(events: seq<Event>, i: nat, j: nat, bound: int) {
    exists k :: i < k < j && ClockReached(events, k, bound)
  }

  function KeyOf(envelope: Envelope): string {
    Key(envelope.identity, Base64Url.Encode(envelope.nonce))
  }

  /** In every run the window holds at most 1,024 entries, each under an identity and a nonce. */
  lemma {:induction false} WindowBounded(events: seq<Event>, k: nat)
    requires k <= |events|
    ensures WellFormed(EntriesAt(events, k))
  {
    if k > 0 {
      WindowBounded(events, k - 1);
      EventKeepsWellFormed(EntriesAt(events, k - 1), events[k - 1]);
    } else {
      assert |EntriesAt(events, 0)| == 0;
    }
  }

  lemma EventKeepsWellFormed(entries: Entries, event: Event)
    requires WellFormed(entries)
    ensures WellFormed(Next(entries, event).0)
  {
    match event
    case Check(envelope, _, now) => AcceptKeepsWellFormed(entries, envelope.identity, envelope.nonce, now);
    case Direct(identity, nonce, now) => AcceptKeepsWellFormed(entries, identity, nonce, now);
    case Restart(lines) => RestartKeeps(entries, lines);
  }

  lemma RestartKeeps(entries: Entries, lines: seq<Line>)
    ensures Next(entries, Restart(lines)).0 == entries
  {
    ListingsRestore(Pairs(lines), entries);
  }

  /** An entry outlives every step that does not find it expired. */
  lemma EntrySurvives(entries: Entries, event: Event, key: string)
    requires key in entries
    requires !event.Restart? ==> event.now < entries[key] + RETENTION_SECONDS
    ensures key in Next(entries, event).0 && Next(entries, event).0[key] == entries[key]
  {
    match event
    case Check(_, _, _) =>
    case Direct(_, _, _) =>
    case Restart(lines) => RestartKeeps(entries, lines);
  }

  lemma {:induction false} NonceHeld(events: seq<Event>, i: nat, envelope: Envelope, m: nat)
    requires VerifiedAt(events, i, envelope) && i < m <= |events|
    requires !ClockReachedBetween(events, i, m, events[i].now + RETENTION_SECONDS)
    ensures KeyOf(envelope) in EntriesAt(events, m)
    ensures EntriesAt(events, m)[KeyOf(envelope)] == events[i].now
    decreases m
  {
    if m > i + 1 {
      NonceHeld(events, i, envelope, m - 1);
      assert !ClockReached(events, m - 1, events[i].now + RETENTION_SECONDS);
      HeldOneStepMore(events, m, KeyOf(envelope));
    }
  }

  lemma HeldOneStepMore(events: seq<Event>, m: nat, key: string)
    requires 0 < m <= |events| && key in EntriesAt(events, m - 1)
    requires !ClockReached(events, m - 1, EntriesAt(events, m - 1)[key] + RETENTION_SECONDS)
    ensures key in EntriesAt(events, m) && EntriesAt(events, m)[key] == EntriesAt(events, m - 1)[key]
  {
    EntrySurvives(EntriesAt(events, m - 1), events[m - 1], key);
  }

  /**
   * For every run and every clock: the same envelope verifies twice only if in between the clock was
   * seen 600 seconds or more past the first time, and yet stands within 120 seconds of it at the second.
   */
  lemma ReplayNeedsClockToRunBack(events: seq<Event>, i: nat, j: nat, envelope: Envelope)
    requires i < j && VerifiedAt(events, i, envelope) && VerifiedAt(events, j, envelope)
    ensures events[j].now <= events[i].now + 2 * SKEW_SECONDS
    ensures ClockReachedBetween(events, i, j, events[i].now + RETENTION_SECONDS)
  {
    ClampedWindowIsExact(envelope.timestamp, events[i].now);
    ClampedWindowIsExact(envelope.timestamp, events[j].now);
    if !ClockReachedBetween(events, i, j, events[i].now + RETENTION_SECONDS) {
      NonceHeld(events, i, envelope, j);
    }
  }

  predicate ClockNeverGoesBack(events: seq<Event>) {
    forall k, l | 0 <= k < l < |events| && !events[k].Restart? && !events[l].Restart? :: events[k].now <= events[l].now
  }

  /** With a clock that never goes back, restarts included, no envelope is accepted twice. */
  lemma NeverAcceptedTwice(events: seq<Event>, i: nat, j: nat, envelope: Envelope)
    requires ClockNeverGoesBack(events) && i < j
    ensures !(VerifiedAt(events, i, envelope) && VerifiedAt(events, j, envelope))
  {
    if VerifiedAt(events, i, envelope) && VerifiedAt(events, j, envelope) {
      ReplayNeedsClockToRunBack(events, i, j, envelope);
    }
  }

  /** Accept at 1000, accept another nonce when the clock shows 1600, step back to 1000 and send the first again. */
  function ReplayRun(envelope: Envelope, other: Bytes): seq<Event> {
    [Check(envelope, true, 1000), Direct(envelope.identity, other, 1600), Check(envelope, true, 1000)]
  }

  /** The clock condition is needed: 600 seconds ahead and back again, and one envelope verifies twice. */
  lemma ClockConditionNeeded(envelope: Envelope, other: Bytes)
    requires ValidIdentity(envelope.identity) && envelope.timestamp == 1000
    requires |envelope.nonce| == 16 && |other| == 16 && envelope.nonce != other
    ensures VerifiedAt(ReplayRun(envelope, other), 0, envelope)
    ensures VerifiedAt(ReplayRun(envelope, other), 2, envelope)
  {
    var events := ReplayRun(envelope, other);
    var key, otherKey := KeyOf(envelope), Key(envelope.identity, Base64Url.Encode(other));
    KeysDiffer(envelope.identity, envelope.nonce, other);
    assert EntriesAt(events, 1) == map[key := 1000];
    assert Prune(map[key := 1000], 1600) == map[];
    assert EntriesAt(events, 2) == map[otherKey := 1600];
    assert Prune(map[otherKey := 1600], 1000) == map[otherKey := 1600];
  }

  /** Different nonces of one signer never share a key. */
  lemma KeysDiffer(identity: string, a: Bytes, b: Bytes)
    requires a != b
    ensures Key(identity, Base64Url.Encode(a)) != Key(identity, Base64Url.Encode(b))
  {
    Base64Url.DecodeOfEncode(a);
    Base64Url.DecodeOfEncode(b);
    var s, t := Key(identity, Base64Url.Encode(a)), Key(identity, Base64Url.Encode(b));
    assert s[|identity| + 1..] == Base64Url.Encode(a) && t[|identity| + 1..] == Base64Url.Encode(b);
  }
}
