/** Filtering sequences, in the append-friendly direction. */
module Filters {

  function Where<T>(items: seq<T>, keep: T -> bool): seq<T> {
    if items == [] then []
    else
      var front := Where(items[..|items| - 1], keep);
      if keep(items[|items| - 1]) then front + [items[|items| - 1]] else front
  }

  lemma WhereAppend<T>(items: seq<T>, keep: T -> bool, item: T)
    ensures Where(items + [item], keep) == if keep(item) then Where(items, keep) + [item] else Where(items, keep)
  {
    assert (items + [item])[..|items|] == items;
  }

  lemma {:induction false} WhereConcat<T>(a: seq<T>, b: seq<T>, keep: T -> bool)
    ensures Where(a + b, keep) == Where(a, keep) + Where(b, keep)
    decreases |b|
  {
    if b == [] {
      assert a + b == a;
    } else {
      var n := |b| - 1;
      WhereConcat(a, b[..n], keep);
      assert (a + b)[..|a + b| - 1] == a + b[..n];
    }
  }

  lemma {:induction false} WhereWhere<T>(items: seq<T>, first: T -> bool, second: T -> bool, both: T -> bool)
    requires forall x | x in items :: both(x) <==> first(x) && second(x)
    ensures Where(Where(items, first), second) == Where(items, both)
    decreases |items|
  {
    if items != [] {
      var n := |items| - 1;
      WhereWhere(items[..n], first, second, both);
      WhereAppend(Where(items[..n], first), second, items[n]);
    }
  }

  lemma {:induction false} WhereMembers<T>(items: seq<T>, keep: T -> bool, x: T)
    ensures x in Where(items, keep) <==> x in items && keep(x)
    decreases |items|
  {
    if items != [] {
      WhereMembers(items[..|items| - 1], keep, x);
      assert items == items[..|items| - 1] + [items[|items| - 1]];
    }
  }
}

/** The replay log of an event stream: publishing with eviction, forgetting, and recovery from a cursor. */
module EventLogs {
  import opened Results
  import opened ByteStrings
  import opened Filters

  datatype Record<T> = Record(sequence: int, event: string, data: T, bytes: nat)

  datatype Limits = Limits(maxRecords: nat, maxReplayBytes: nat, maxEventBytes: nat)

  datatype Cursor = Cursor(epoch: string, sequence: nat)

  /** The size of an event's wire form (None when its data cannot be cloned or written), and the cursor parser. */
  datatype Library<!T> = Library(size: (string, T, int) -> Option<nat>, parse: string -> Option<Cursor>)

  datatype PublishError = StreamClosed | InvalidName | SequenceExhausted | NotSerializable | EventTooLarge

  datatype Log<T> = Log(closed: bool, sequence: int, records: seq<Record<T>>, replayBytes: int)

  predicate ValidName(event: string) {
    && 1 <= |event| <= 64 && 'a' <= event[0] <= 'z'
    && forall i | 1 <= i < |event| ::
      'a' <= event[i] <= 'z' || '0' <= event[i] <= '9' || event[i] == '_' || event[i] == '-'
  }

  function Sum<T>(records: seq<Record<T>>): nat {
    if records == [] then 0 else records[0].bytes + Sum(records[1..])
  }

  lemma {:induction false} SumAppend<T>(records: seq<Record<T>>, record: Record<T>)
    ensures Sum(records + [record]) == Sum(records) + record.bytes
  {
    if records == [] {
      assert records + [record] == [record];
    } else {
      SumAppend(records[1..], record);
      assert (records + [record])[1..] == records[1..] + [record];
    }
  }

  predicate Fits<T>(limits: Limits, records: seq<Record<T>>) {
    |records| <= limits.maxRecords && Sum(records) <= limits.maxReplayBytes
  }

  /** How many records the eviction loop shifts off the front. */
  function Evicted<T>(limits: Limits, records: seq<Record<T>>): (n: nat)
    ensures n <= |records|
  {
    if Fits(limits, records) then 0
    else assert records != []; 1 + Evicted(limits, records[1..])
  }

  /** Eviction keeps the longest recent stretch within both budgets: what it keeps fits, and nothing longer would. */
  lemma {:induction false} EvictionKeepsLongestSuffix<T>(limits: Limits, records: seq<Record<T>>, k: nat)
    requires k <= |records|
    ensures Fits(limits, records[Evicted(limits, records)..])
    ensures Fits(limits, records[k..]) ==> Evicted(limits, records) <= k
    decreases |records|
  {
    if Fits(limits, records) {
      assert records[0..] == records;
    } else if k == 0 {
      EvictionKeepsLongestSuffix(limits, records[1..], 0);
      assert records[0..] == records;
      assert records[1..][Evicted(limits, records[1..])..] == records[Evicted(limits, records)..];
    } else {
      EvictionKeepsLongestSuffix(limits, records[1..], k - 1);
      assert records[1..][k - 1..] == records[k..];
      assert records[1..][Evicted(limits, records[1..])..] == records[Evicted(limits, records)..];
    }
  }

  datatype Published<T> = Published(log: Log<T>, result: Result<Record<T>, PublishError>)

  function Append<T>(limits: Limits, log: Log<T>, record: Record<T>): Log<T> {
    var grown := log.records + [record];
    var kept := grown[Evicted(limits, grown)..];
    Log(log.closed, record.sequence, kept, Sum(kept))
  }

  function PublishLog<T>(lib: Library<T>, limits: Limits, log: Log<T>, event: string, data: T): Published<T> {
    if log.closed then Published(log, Err(StreamClosed))
    else if !ValidName(event) then Published(log, Err(InvalidName))
    else if log.sequence == UINT64_MAX then Published(log, Err(SequenceExhausted))
    else
      match lib.size(event, data, log.sequence + 1)
      case None => Published(log, Err(NotSerializable))
      case Some(bytes) =>
        if bytes > limits.maxEventBytes then Published(log, Err(EventTooLarge))
        else
          var record := Record(log.sequence + 1, event, data, bytes);
          Published(Append(limits, log, record), Ok(record))
  }

  function DropLog<T>(log: Log<T>, drop: (string, T) -> bool): Log<T> {
    var kept := Where(log.records, (r: Record<T>) => !drop(r.event, r.data));
    log.(records := kept, replayBytes := Sum(kept))
  }

  datatype Reason = CursorGap | EpochMismatch

  datatype Recovery<T> = Resume(records: seq<Record<T>>) | NeedsSnapshot(reset: Option<Reason>)

  function Earliest<T>(log: Log<T>): int {
    if log.records == [] then log.sequence + 1 else log.records[0].sequence
  }

  /** An empty identifier is none at all. */
  function Recover<T>(lib: Library<T>, epoch: string, log: Log<T>, lastEventId: string): Recovery<T> {
    if lastEventId == "" then NeedsSnapshot(None)
    else
      match lib.parse(lastEventId)
      case None => NeedsSnapshot(Some(CursorGap))
      case Some(cursor) =>
        if cursor.epoch != epoch then NeedsSnapshot(Some(EpochMismatch))
        else if cursor.sequence > log.sequence then NeedsSnapshot(Some(CursorGap))
        else if cursor.sequence + 1 < Earliest(log) then NeedsSnapshot(Some(CursorGap))
        else Resume(Where(log.records, (r: Record<T>) => r.sequence > cursor.sequence))
  }

  // ---- the log against the whole history of publications ---------------------------------------------

  /** Everything ever published, what `dropReplay` removed, and the newest sequence eviction removed. */
  datatype History<T> = History(start: int, published: seq<Record<T>>, dropped: set<int>, horizon: int)

  /** The published records after `after` that were not forgotten. */
  function Remaining<T>(published: seq<Record<T>>, after: int, dropped: set<int>): seq<Record<T>> {
    Where(published, (r: Record<T>) => r.sequence > after && r.sequence !in dropped)
  }

  predicate Numbered<T>(start: int, published: seq<Record<T>>) {
    forall i | 0 <= i < |published| :: published[i].sequence == start + 1 + i
  }

  predicate Ascending<T>(records: seq<Record<T>>) {
    forall i, j | 0 <= i < j < |records| :: records[i].sequence < records[j].sequence
  }

  /** The log is an exact index of the history. */
  ghost predicate Indexes<T>(limits: Limits, log: Log<T>, h: History<T>) {
    && Numbered(h.start, h.published)
    && log.sequence == h.start + |h.published|
    && h.start <= h.horizon <= log.sequence
    && log.records == Remaining(h.published, h.horizon, h.dropped)
    && (forall n | n in h.dropped :: n <= log.sequence)
    && log.replayBytes == Sum(log.records)
    && Fits(limits, log.records)
  }

  lemma {:induction false} WhereAscends<T>(records: seq<Record<T>>, keep: Record<T> -> bool)
    requires Ascending(records)
    ensures Ascending(Where(records, keep))
    decreases |records|
  {
    if records != [] {
      var front := records[..|records| - 1];
      WhereAscends(front, keep);
      forall r | r in Where(front, keep) ensures r.sequence < records[|records| - 1].sequence {
        WhereMembers(front, keep, r);
      }
    }
  }

  /** Shifting one record off the front moves the horizon to it. */
  lemma {:induction false} ShiftMovesHorizon<T>(published: seq<Record<T>>, horizon: int, dropped: set<int>)
    requires Ascending(published) && Remaining(published, horizon, dropped) != []
    ensures var all := Remaining(published, horizon, dropped);
      all[0].sequence > horizon && all[0] in published && all[1..] == Remaining(published, all[0].sequence, dropped)
  {
    var all := Remaining(published, horizon, dropped);
    var keep := (r: Record<T>) => r.sequence > horizon && r.sequence !in dropped;
    var later := (r: Record<T>) => r.sequence > all[0].sequence && r.sequence !in dropped;
    WhereMembers(published, keep, all[0]);
    WhereAscends(published, keep);
    var after := (r: Record<T>) => r.sequence > all[0].sequence;
    WhereWhere(published, keep, after, later);
    HeadOnly(all, after);
  }

  lemma {:induction false} HeadOnly<T>(all: seq<Record<T>>, after: Record<T> -> bool)
    requires all != [] && !after(all[0]) && forall i | 0 < i < |all| :: after(all[i])
    ensures Where(all, after) == all[1..]
    decreases |all|
  {
    var front := all[..|all| - 1];
    if front == [] {
      assert all[1..] == [];
    } else {
      HeadOnly(front, after);
      assert all[1..] == front[1..] + [all[|all| - 1]];
    }
  }

  lemma NumberedAscends<T>(start: int, published: seq<Record<T>>)
    requires Numbered(start, published)
    ensures Ascending(published)
  {
  }

  /** Shifting `n` records off the front is again an index, its horizon at the last one shifted. */
  lemma {:induction false} ShiftsMoveHorizon<T>(published: seq<Record<T>>, horizon: int, dropped: set<int>, n: nat)
    requires Ascending(published) && 0 < n <= |Remaining(published, horizon, dropped)|
    ensures var all := Remaining(published, horizon, dropped);
      && all[n - 1].sequence > horizon && all[n - 1] in published
      && all[n..] == Remaining(published, all[n - 1].sequence, dropped)
    decreases n
  {
    var all := Remaining(published, horizon, dropped);
    ShiftMovesHorizon(published, horizon, dropped);
    if n > 1 {
      ShiftsMoveHorizon(published, all[0].sequence, dropped, n - 1);
      assert all[1..][n - 1..] == all[n..];
    }
  }

  /** What a publication does to the history: one more record, the horizon wherever eviction left it. */
  function HistoryOfAppend<T>(limits: Limits, log: Log<T>, h: History<T>, record: Record<T>): History<T> {
    var grown := log.records + [record];
    var n := Evicted(limits, grown);
    History(h.start, h.published + [record], h.dropped, if n == 0 then h.horizon else grown[n - 1].sequence)
  }

  /** A publication keeps the log an exact index and within both budgets. */
  lemma PublishKeepsIndex<T>(limits: Limits, log: Log<T>, h: History<T>, record: Record<T>)
    requires Indexes(limits, log, h) && record.sequence == log.sequence + 1
    ensures Indexes(limits, Append(limits, log, record), HistoryOfAppend(limits, log, h, record))
  {
    var published := h.published + [record];
    WhereAppend(h.published, (r: Record<T>) => r.sequence > h.horizon && r.sequence !in h.dropped, record);
    var grown := log.records + [record];
    assert grown == Remaining(published, h.horizon, h.dropped);
    NumberedAscends(h.start, published);
    var n := Evicted(limits, grown);
    if n > 0 {
      ShiftsMoveHorizon(published, h.horizon, h.dropped, n);
    }
    EvictionKeepsLongestSuffix(limits, grown, 0);
  }

  /** The sequences a forget removes. */
  ghost function Removed<T>(log: Log<T>, drop: (string, T) -> bool): set<int> {
    set r | r in log.records && drop(r.event, r.data) :: r.sequence
  }

  lemma {:induction false} WhereFits<T>(records: seq<Record<T>>, keep: Record<T> -> bool)
    ensures |Where(records, keep)| <= |records| && Sum(Where(records, keep)) <= Sum(records)
    decreases |records|
  {
    if records != [] {
      var n := |records| - 1;
      WhereFits(records[..n], keep);
      assert records == records[..n] + [records[n]];
      SumAppend(records[..n], records[n]);
      SumAppend(Where(records[..n], keep), records[n]);
    }
  }

  /** A forget keeps the log an exact index. */
  lemma DropKeepsIndex<T>(limits: Limits, log: Log<T>, h: History<T>, drop: (string, T) -> bool)
    requires Indexes(limits, log, h)
    ensures Indexes(limits, DropLog(log, drop), h.(dropped := h.dropped + Removed(log, drop)))
  {
    var held := (r: Record<T>) => r.sequence > h.horizon && r.sequence !in h.dropped;
    var keep := (r: Record<T>) => !drop(r.event, r.data);
    var dropped := h.dropped + Removed(log, drop);
    var left := (r: Record<T>) => r.sequence > h.horizon && r.sequence !in dropped;
    forall r | r in h.published ensures left(r) <==> held(r) && keep(r) {
      if held(r) {
        RemovedMeansMatched(limits, log, h, drop, r);
      }
    }
    WhereWhere(h.published, held, keep, left);
    WhereFits(log.records, keep);
    forall r | r in log.records ensures r.sequence <= log.sequence {
      WhereMembers(h.published, held, r);
    }
  }

  lemma RemovedMeansMatched<T>(limits: Limits, log: Log<T>, h: History<T>, drop: (string, T) -> bool, r: Record<T>)
    requires Indexes(limits, log, h) && r in h.published && r.sequence > h.horizon && r.sequence !in h.dropped
    ensures r.sequence in Removed(log, drop) <==> drop(r.event, r.data)
  {
    var held := (r: Record<T>) => r.sequence > h.horizon && r.sequence !in h.dropped;
    WhereMembers(h.published, held, r);
    if r.sequence in Removed(log, drop) {
      var other :| other in log.records && drop(other.event, other.data) && other.sequence == r.sequence;
      WhereMembers(h.published, held, other);
      assert other == r;
    }
  }

  /**
   * A recovery that needs no snapshot hands out exactly the published records after the cursor that were
   * not forgotten, in order: eviction never silently skips one.
   */
  lemma RecoveryIsExact<T>(limits: Limits, log: Log<T>, h: History<T>, lib: Library<T>, epoch: string, lastEventId: string)
    requires Indexes(limits, log, h)
    ensures var recovery := Recover(lib, epoch, log, lastEventId);
      recovery.Resume? ==>
        && lib.parse(lastEventId).Some? && lib.parse(lastEventId).value.sequence <= log.sequence
        && recovery.records == Remaining(h.published, lib.parse(lastEventId).value.sequence, h.dropped)
  {
    if Recover(lib, epoch, log, lastEventId).Resume? {
      var requested := lib.parse(lastEventId).value.sequence;
      var held := (r: Record<T>) => r.sequence > h.horizon && r.sequence !in h.dropped;
      if log.records != [] {
        WhereMembers(h.published, held, log.records[0]);
      }
      WhereWhere(h.published, held, (r: Record<T>) => r.sequence > requested,
                 (r: Record<T>) => r.sequence > requested && r.sequence !in h.dropped);
    }
  }

  /** Which answer a recovery gives: the reset names the epoch exactly for a well-formed cursor of another one. */
  lemma RecoveryReasons<T>(lib: Library<T>, epoch: string, log: Log<T>, lastEventId: string)
    ensures var recovery := Recover(lib, epoch, log, lastEventId);
      var parsed := lib.parse(lastEventId);
      && (recovery == NeedsSnapshot(None) <==> lastEventId == "")
      && (recovery == NeedsSnapshot(Some(EpochMismatch)) <==> lastEventId != "" && parsed.Some? && parsed.value.epoch != epoch)
      && (recovery.Resume? ==> parsed.Some? && parsed.value.epoch == epoch && parsed.value.sequence <= log.sequence)
  {
  }

  /**
   * A publication succeeds exactly on an open stream with a sequence left, for a valid name and data that can
   * be written within the limit; it gets the next sequence. A refusal leaves the log.
   */
  lemma PublishesExactlyWhen<T>(lib: Library<T>, limits: Limits, log: Log<T>, event: string, data: T)
    ensures var published, bytes := PublishLog(lib, limits, log, event, data), lib.size(event, data, log.sequence + 1);
      && (published.result.Ok? <==>
        !log.closed && ValidName(event) && log.sequence != UINT64_MAX && bytes.Some? && bytes.value <= limits.maxEventBytes)
      && (published.result.Ok? ==>
        && published.result.value == Record(log.sequence + 1, event, data, bytes.value)
        && published.log.sequence == log.sequence + 1 && !published.log.closed
        && (Fits(limits, log.records + [published.result.value]) ==>
          published.log.records == log.records + [published.result.value]))
      && (published.result.Err? ==> published.log == log)
      && (published.result == Err(StreamClosed) <==> log.closed)
  {
  }

  /**
   * The snapshot a well-formed cursor of this epoch is asked to take: exactly when records were published
   * after it and the very next one, with every other up to the first retained, is gone.
   */
  lemma SnapshotDemandedExactly<T>(limits: Limits, log: Log<T>, h: History<T>, lib: Library<T>, epoch: string, lastEventId: string)
    requires Indexes(limits, log, h) && lastEventId != "" && lib.parse(lastEventId).Some?
    requires lib.parse(lastEventId).value.epoch == epoch && lib.parse(lastEventId).value.sequence <= log.sequence
    ensures var requested := lib.parse(lastEventId).value.sequence;
      Recover(lib, epoch, log, lastEventId).NeedsSnapshot? <==>
        requested < log.sequence && forall r | r in log.records :: r.sequence > requested + 1
  {
    var held := (r: Record<T>) => r.sequence > h.horizon && r.sequence !in h.dropped;
    assert log.records == Where(h.published, held);
    NumberedAscends(h.start, h.published);
    WhereAscends(h.published, held);
    if log.records != [] {
      WhereMembers(h.published, held, log.records[0]);
    }
  }

  /**
   * When a forget makes a client start over instead of only missing what was dropped: exactly when records
   * were published after its cursor and every retained one up to the very next is forgotten.
   */
  lemma ForgettingDemandsSnapshot<T>(
    limits: Limits, log: Log<T>, h: History<T>, lib: Library<T>, epoch: string, lastEventId: string, drop: (string, T) -> bool)
    requires Indexes(limits, log, h) && lastEventId != "" && lib.parse(lastEventId).Some?
    requires Recover(lib, epoch, log, lastEventId).Resume?
    ensures var requested := lib.parse(lastEventId).value.sequence;
      Recover(lib, epoch, DropLog(log, drop), lastEventId).NeedsSnapshot? <==>
        requested < log.sequence && forall r | r in log.records && r.sequence <= requested + 1 :: drop(r.event, r.data)
  {
    var requested := lib.parse(lastEventId).value.sequence;
    var dropped := DropLog(log, drop);
    DropKeepsIndex(limits, log, h, drop);
    SnapshotDemandedExactly(limits, dropped, h.(dropped := h.dropped + Removed(log, drop)), lib, epoch, lastEventId);
    forall r | r in log.records ensures r in dropped.records <==> !drop(r.event, r.data) {
      DropMembers(log, drop, r);
    }
    forall r | r in dropped.records ensures r in log.records {
      DropMembers(log, drop, r);
    }
  }

  lemma DropMembers<T>(log: Log<T>, drop: (string, T) -> bool, r: Record<T>)
    ensures r in DropLog(log, drop).records <==> r in log.records && !drop(r.event, r.data)
  {
    var keep := (r: Record<T>) => !drop(r.event, r.data);
    WhereMembers(log.records, keep, r);
    assert DropLog(log, drop).records == Where(log.records, keep);
  }

  /** The shortest instance: one record, and a client that has seen none. */
  lemma ForgettingTheHeadDemandsSnapshot<T>(
    lib: Library<T>, epoch: string, id: string, record: Record<T>, drop: (string, T) -> bool)
    requires id != "" && lib.parse(id) == Some(Cursor(epoch, 0))
    requires record.sequence == 1 && drop(record.event, record.data)
    ensures var log := Log(false, 1, [record], record.bytes);
      && Recover(lib, epoch, log, id).Resume?
      && Recover(lib, epoch, DropLog(log, drop), id).NeedsSnapshot?
  {
    var log := Log(false, 1, [record], record.bytes);
    var keep := (r: Record<T>) => !drop(r.event, r.data);
    assert log.records == [] + [record];
    WhereAppend([], keep, record);
    assert DropLog(log, drop).records == Where(log.records, keep);
  }
}
