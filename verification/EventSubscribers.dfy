/** The event stream with its subscribers: each owns a queue of tasks, run one at a time, each behind its own authorisation. */
module EventStreams {
  import opened Results
  import opened Filters
  import opened EventLogs

  datatype Task<T> = Reset(reason: Reason) | Snapshot(latest: int) | Deliver(record: Record<T>) | Heartbeat

  datatype Phase<T> = Idle | Authorizing(task: Task<T>) | Running(task: Task<T>)

  /** A task that got through authorisation: handed to the transport, or left out by the projection. */
  datatype Handled<T> = Handled(task: Task<T>, handed: bool)

  datatype Notice = Unauthorized | Errored | Terminated

  datatype Subscriber<T> = Subscriber(
    closed: bool, queue: seq<Task<T>>, phase: Phase<T>, handled: seq<Handled<T>>, notices: seq<Notice>)

  function DeliverAll<T>(records: seq<Record<T>>): (tasks: seq<Task<T>>)
    ensures |tasks| == |records| && forall i | 0 <= i < |records| :: tasks[i] == Deliver(records[i])
  {
    seq(|records|, i requires 0 <= i < |records| => Deliver(records[i]))
  }

  function Opening<T>(recovery: Recovery<T>, latest: int): seq<Task<T>> {
    match recovery
    case NeedsSnapshot(None) => [Snapshot(latest)]
    case NeedsSnapshot(Some(reason)) => [Reset(reason), Snapshot(latest)]
    case Resume(records) => DeliverAll(records)
  }

  function NewSubscriber<T>(recovery: Recovery<T>, latest: int): Subscriber<T> {
    Subscriber(false, Opening(recovery, latest), Idle, [], [])
  }

  function Enqueue<T>(s: Subscriber<T>, task: Task<T>): Subscriber<T> {
    s.(queue := s.queue + [task])
  }

  /** Closing with a notice: only the first reason to close is ever told. */
  function Notify<T>(s: Subscriber<T>, notice: Notice): Subscriber<T> {
    if s.closed then s else s.(closed := true, notices := s.notices + [notice])
  }

  /** The next task of the chain begins: a closed subscriber's returns at once, any other asks for authorisation. */
  function Begin<T>(s: Subscriber<T>): Subscriber<T> {
    if s.phase != Idle || s.queue == [] then s
    else if s.closed then s.(queue := s.queue[1..])
    else s.(queue := s.queue[1..], phase := Authorizing(s.queue[0]))
  }

  datatype Projection = Omitted | Faulty | Ready

  datatype Answer = Throws | Denied | Allowed(projection: Projection)

  /** What the projection does to a task: only records can be left out, only records and snapshots can be too large. */
  function Projected<T>(task: Task<T>, projection: Projection): Projection {
    if task.Deliver? then projection
    else if task.Snapshot? && projection == Faulty then Faulty
    else Ready
  }

  /** The authorisation settles; the subscriber may have been closed while it was pending. */
  function Settle<T>(s: Subscriber<T>, answer: Answer): Subscriber<T> {
    if !s.phase.Authorizing? then s
    else
      var task, idle := s.phase.task, s.(phase := Idle);
      match answer
      case Throws => Notify(idle, Errored)
      case Denied => Notify(idle, Unauthorized)
      case Allowed(projection) =>
        if s.closed then idle
        else
          match Projected(task, projection)
          case Faulty => Notify(idle, Errored)
          case Omitted => idle.(handled := s.handled + [Handled(task, false)])
          case Ready => s.(phase := Running(task), handled := s.handled + [Handled(task, true)])
  }

  /** The transport's callback settles. */
  function Finish<T>(s: Subscriber<T>, ok: bool): Subscriber<T> {
    if !s.phase.Running? then s
    else if ok then s.(phase := Idle)
    else Notify(s.(phase := Idle), Errored)
  }

  datatype Stream<T> = Stream(log: Log<T>, subscribers: map<nat, Subscriber<T>>)

  function EnqueueTo<T>(subscribers: map<nat, Subscriber<T>>, record: Record<T>, ids: set<nat>): map<nat, Subscriber<T>> {
    map id | id in subscribers ::
      if subscribers[id].closed || id !in ids then subscribers[id] else Enqueue(subscribers[id], Deliver(record))
  }

  function EnqueueRecord<T>(subscribers: map<nat, Subscriber<T>>, record: Record<T>): map<nat, Subscriber<T>> {
    EnqueueTo(subscribers, record, subscribers.Keys)
  }

  function PublishStep<T>(lib: Library<T>, limits: Limits, s: Stream<T>, event: string, data: T): Stream<T> {
    var published := PublishLog(lib, limits, s.log, event, data);
    match published.result
    case Err(_) => s
    case Ok(record) => Stream(published.log, EnqueueRecord(s.subscribers, record))
  }

  function SubscribeStep<T>(lib: Library<T>, epoch: string, s: Stream<T>, id: nat, lastEventId: string): Stream<T> {
    if s.log.closed || id in s.subscribers then s
    else s.(subscribers := s.subscribers[id := NewSubscriber(Recover(lib, epoch, s.log, lastEventId), s.log.sequence)])
  }

  function TerminateAll<T>(subscribers: map<nat, Subscriber<T>>): map<nat, Subscriber<T>> {
    map id | id in subscribers :: Notify(subscribers[id], Terminated)
  }

  class EventStream<T> {
    const lib: Library<T>
    const limits: Limits
    const epoch: string
    var records: seq<Record<T>>
    var sequence: int
    var replayBytes: int
    var closed: bool
    var subscribers: map<nat, Subscriber<T>>

    function Abstract(): Stream<T>
      reads this
    {
      Stream(Log(closed, sequence, records, replayBytes), subscribers)
    }

    ghost predicate Valid()
      reads this
    {
      replayBytes == Sum(records) && Fits(limits, records)
    }

    constructor (lib: Library<T>, limits: Limits, epoch: string, initialSequence: nat)
      ensures this.lib == lib && this.limits == limits && this.epoch == epoch
      ensures Valid() && Abstract() == Stream(Log(false, initialSequence, [], 0), map[])
    {
      this.lib, this.limits, this.epoch := lib, limits, epoch;
      records, sequence, replayBytes, closed, subscribers := [], initialSequence, 0, false, map[];
    }

    method Publish(event: string, data: T) returns (r: Result<Record<T>, PublishError>)
      requires Valid()
      modifies this
      ensures Valid()
      ensures r == PublishLog(lib, limits, old(Abstract()).log, event, data).result
      ensures Abstract() == PublishStep(lib, limits, old(Abstract()), event, data)
    {
      if closed {
        return Err(StreamClosed);
      }
      if !ValidName(event) {
        return Err(InvalidName);
      }
      if sequence == 0xFFFF_FFFF_FFFF_FFFF {
        return Err(SequenceExhausted);
      }
      var bytes := lib.size(event, data, sequence + 1);
      if bytes.None? {
        return Err(NotSerializable);
      }
      if bytes.value > limits.maxEventBytes {
        return Err(EventTooLarge);
      }
      var record := Record(sequence + 1, event, data, bytes.value);
      Retain(record);
      FanOut(record);
      return Ok(record);
    }

    /** The record goes to the end of the log; the oldest are shifted off until both budgets hold. */
    method Retain(record: Record<T>)
      requires Valid()
      modifies this`records, this`replayBytes, this`sequence
      ensures Valid()
      ensures Abstract().log == Append(limits, old(Abstract()).log, record)
    {
      sequence := record.sequence;
      SumAppend(records, record);
      records := records + [record];
      replayBytes := replayBytes + record.bytes;
      ghost var grown := records;
      ghost var shifted := 0;
      while |records| > 0 && (|records| > limits.maxRecords || replayBytes > limits.maxReplayBytes)
        invariant shifted <= |grown| && records == grown[shifted..] && replayBytes == Sum(records)
        invariant Evicted(limits, grown) == shifted + Evicted(limits, records)
        invariant sequence == record.sequence
        decreases |records|
      {
        replayBytes := replayBytes - records[0].bytes;
        records := records[1..];
        shifted := shifted + 1;
      }
    }

    method FanOut(record: Record<T>)
      modifies this`subscribers
      ensures subscribers == EnqueueRecord(old(subscribers), record)
    {
      var todo := subscribers.Keys;
      while todo != {}
        invariant todo <= old(subscribers).Keys == subscribers.Keys
        invariant subscribers == EnqueueTo(old(subscribers), record, old(subscribers).Keys - todo)
        decreases todo
      {
        var id :| id in todo;
        if !subscribers[id].closed {
          subscribers := subscribers[id := Enqueue(subscribers[id], Deliver(record))];
        }
        todo := todo - {id};
      }
    }

    method DropReplay(drop: (string, T) -> bool) returns (removed: nat)
      requires Valid()
      modifies this
      ensures Valid()
      ensures Abstract() == old(Abstract()).(log := DropLog(old(Abstract()).log, drop))
      ensures removed == |old(records)| - |records|
    {
      var keep := (r: Record<T>) => !drop(r.event, r.data);
      var kept := Where(records, keep);
      WhereFits(records, keep);
      removed := |records| - |kept|;
      if removed == 0 {
        WhereAll(records, keep);
        return;
      }
      records, replayBytes := kept, Sum(kept);
    }

    /** The identifier is the new subscription's own. */
    method Subscribe(id: nat, lastEventId: string) returns (ok: bool)
      requires Valid() && id !in subscribers
      modifies this
      ensures Valid() && ok == !old(closed)
      ensures Abstract() == SubscribeStep(lib, epoch, old(Abstract()), id, lastEventId)
    {
      if closed {
        return false;
      }
      var recovery := Recover(lib, epoch, Abstract().log, lastEventId);
      subscribers := subscribers[id := NewSubscriber(recovery, sequence)];
      return true;
    }

    method Close()
      requires Valid()
      modifies this
      ensures Valid()
      ensures Abstract() == CloseStep(old(Abstract()))
    {
      if closed {
        return;
      }
      closed := true;
      subscribers := TerminateAll(subscribers);
    }
  }

  function CloseStep<T>(s: Stream<T>): Stream<T> {
    if s.log.closed then s else Stream(s.log.(closed := true), TerminateAll(s.subscribers))
  }

  lemma {:induction false} WhereAll<T>(items: seq<T>, keep: T -> bool)
    requires |Where(items, keep)| >= |items|
    ensures Where(items, keep) == items
    decreases |items|
  {
    if items != [] {
      var n := |items| - 1;
      WhereShorter(items[..n], keep);
      WhereAll(items[..n], keep);
      assert items == items[..n] + [items[n]];
    }
  }

  lemma {:induction false} WhereShorter<T>(items: seq<T>, keep: T -> bool)
    ensures |Where(items, keep)| <= |items|
    decreases |items|
  {
    if items != [] {
      WhereShorter(items[..|items| - 1], keep);
    }
  }
}

/** Whole runs of an event stream, every interleaving of its atomic steps, against the history of publications. */
module EventRuns {
  import opened Results
  import opened Filters
  import opened EventLogs
  import opened EventStreams

  datatype Action<!T> =
    | Publish(event: string, data: T)
    | Forget(drop: (string, T) -> bool)
    | Subscribe(id: nat, lastEventId: string)
    | Beat(id: nat)
    | Start(id: nat)
    | Answered(id: nat, answer: Answer)
    | Finished(id: nat, ok: bool)
    | Leave(id: nat)
    | Close

  /** What a subscriber was opened with: how much had been published and forgotten by then. */
  datatype Origin<T> = Origin(recovery: Recovery<T>, since: nat, requested: int, dropped: set<int>)

  datatype System<T> = System(stream: Stream<T>, history: History<T>, origins: map<nat, Origin<T>>)

  datatype World<!T> = World(lib: Library<T>, limits: Limits, epoch: string, start: nat)

  function Initial<T>(w: World<T>): System<T> {
    System(Stream(Log(false, w.start, [], 0), map[]), History(w.start, [], {}, w.start), map[])
  }

  function OriginOf<T>(w: World<T>, s: System<T>, lastEventId: string): Origin<T> {
    var parsed := w.lib.parse(lastEventId);
    Origin(Recover(w.lib, w.epoch, s.stream.log, lastEventId), |s.history.published|,
           if parsed.Some? then parsed.value.sequence else 0, s.history.dropped)
  }

  function SubscriberStep<T>(x: Subscriber<T>, action: Action<T>): Subscriber<T> {
    match action
    case Beat(_) => Enqueue(x, Heartbeat)
    case Start(_) => Begin(x)
    case Answered(_, answer) => Settle(x, answer)
    case Finished(_, ok) => Finish(x, ok)
    case Leave(_) => x.(closed := true)
    case _ => x
  }

  ghost function Next<T>(w: World<T>, s: System<T>, action: Action<T>): System<T> {
    match action
    case Publish(event, data) =>
      var published := PublishLog(w.lib, w.limits, s.stream.log, event, data);
      if published.result.Err? then s
      else System(PublishStep(w.lib, w.limits, s.stream, event, data),
                  HistoryOfAppend(w.limits, s.stream.log, s.history, published.result.value), s.origins)
    case Forget(drop) =>
      s.(stream := s.stream.(log := DropLog(s.stream.log, drop)),
         history := s.history.(dropped := s.history.dropped + Removed(s.stream.log, drop)))
    case Subscribe(id, lastEventId) =>
      var stream := SubscribeStep(w.lib, w.epoch, s.stream, id, lastEventId);
      s.(stream := stream, origins := if stream == s.stream then s.origins else s.origins[id := OriginOf(w, s, lastEventId)])
    case Close => s.(stream := CloseStep(s.stream))
    case _ =>
      if action.id !in s.stream.subscribers then s
      else
        var x := s.stream.subscribers[action.id];
        s.(stream := s.stream.(subscribers := s.stream.subscribers[action.id := SubscriberStep(x, action)]))
  }

  /** The system before action `k`. */
  ghost function At<T>(w: World<T>, actions: seq<Action<T>>, k: nat): System<T>
    requires k <= |actions|
  {
    if k == 0 then Initial(w) else Next(w, At(w, actions, k - 1), actions[k - 1])
  }

  /** A run's steps are the stream's own: a publication that succeeds is on record, and at the end of every open queue. */
  lemma RunsPublish<T>(w: World<T>, actions: seq<Action<T>>, k: nat)
    requires k < |actions| && actions[k].Publish?
    ensures var s, t := At(w, actions, k), At(w, actions, k + 1);
      var published := PublishLog(w.lib, w.limits, s.stream.log, actions[k].event, actions[k].data);
      && t.stream.log == published.log && t.origins == s.origins
      && (published.result.Ok? ==>
        && t.history.published == s.history.published + [published.result.value]
        && forall id | id in s.stream.subscribers && !s.stream.subscribers[id].closed ::
          && id in t.stream.subscribers
          && t.stream.subscribers[id]
             == s.stream.subscribers[id].(queue := s.stream.subscribers[id].queue + [Deliver(published.result.value)]))
  {
  }

  /** A subscription to an open stream opens with what its cursor calls for, and nothing handed over. */
  lemma RunsSubscribe<T>(w: World<T>, actions: seq<Action<T>>, k: nat, id: nat, lastEventId: string)
    requires k < |actions| && actions[k] == Subscribe(id, lastEventId)
    requires !At(w, actions, k).stream.log.closed && id !in At(w, actions, k).stream.subscribers
    ensures var s, t := At(w, actions, k), At(w, actions, k + 1);
      && id in t.stream.subscribers && id in t.origins
      && t.origins[id].recovery == Recover(w.lib, w.epoch, s.stream.log, lastEventId)
      && t.stream.subscribers[id]
         == Subscriber(false, Opening(t.origins[id].recovery, s.stream.log.sequence), Idle, [], [])
  {
  }

  // ---- the ledger of one subscriber ------------------------------------------------------------------

  function Tasks<T>(handled: seq<Handled<T>>): (tasks: seq<Task<T>>)
    ensures |tasks| == |handled| && forall i | 0 <= i < |handled| :: tasks[i] == handled[i].task
  {
    seq(|handled|, i requires 0 <= i < |handled| => handled[i].task)
  }

  function Pending<T>(phase: Phase<T>): seq<Task<T>> {
    if phase.Authorizing? then [phase.task] else []
  }

  predicate IsContent<T>(task: Task<T>) {
    !task.Heartbeat?
  }

  /** Heartbeats carry nothing. */
  function Content<T>(tasks: seq<Task<T>>): seq<Task<T>> {
    Where(tasks, (t: Task<T>) => IsContent(t))
  }

  lemma ContentConcat<T>(a: seq<Task<T>>, b: seq<Task<T>>)
    ensures Content(a + b) == Content(a) + Content(b)
  {
    WhereConcat(a, b, (t: Task<T>) => IsContent(t));
  }

  lemma {:induction false} ContentOfDeliveries<T>(tasks: seq<Task<T>>)
    requires forall t | t in tasks :: IsContent(t)
    ensures Content(tasks) == tasks
    decreases |tasks|
  {
    if tasks != [] {
      var n := |tasks| - 1;
      assert tasks == tasks[..n] + [tasks[n]];
      ContentOfDeliveries(tasks[..n]);
    }
  }

  /** What the subscriber dealt with, what waits for its authorisation, and what is queued. */
  function Whole<T>(x: Subscriber<T>): seq<Task<T>> {
    Tasks(x.handled) + Pending(x.phase) + x.queue
  }

  /** All a subscriber is ever owed: what it was opened with, then everything published since. */
  function Owed<T>(h: History<T>, o: Origin<T>): seq<Task<T>>
    requires o.since <= |h.published|
  {
    Opening(o.recovery, h.start + o.since) + DeliverAll(h.published[o.since..])
  }

  /**
   * An open subscriber has dealt with, or still queues, exactly what it is owed, in order; a closed one
   * dealt with a first part of it. At most one closing notice goes out, and only when closing.
   */
  ghost predicate Ledger<T>(x: Subscriber<T>, owed: seq<Task<T>>) {
    && (!x.closed ==> Content(Whole(x)) == owed)
    && Content(Tasks(x.handled)) <= owed
    && |x.notices| <= 1 && (x.notices != [] ==> x.closed)
  }

  lemma TasksAppend<T>(handled: seq<Handled<T>>, more: Handled<T>)
    ensures Tasks(handled + [more]) == Tasks(handled) + [more.task]
  {
  }

  lemma OpenLedger<T>(x: Subscriber<T>, owed: seq<Task<T>>)
    requires Content(Whole(x)) == owed && |x.notices| <= 1 && (x.notices != [] ==> x.closed)
    ensures Ledger(x, owed)
  {
    assert Whole(x) == Tasks(x.handled) + (Pending(x.phase) + x.queue);
    ContentConcat(Tasks(x.handled), Pending(x.phase) + x.queue);
  }

  /** Closing, whatever the reason, leaves a first part. */
  lemma ClosedLedger<T>(x: Subscriber<T>, y: Subscriber<T>, owed: seq<Task<T>>)
    requires Ledger(x, owed) && y.closed && y.handled == x.handled
    requires y.notices == x.notices || (x.notices == [] && |y.notices| == 1)
    ensures Ledger(y, owed)
  {
  }

  lemma SettleKeepsLedger<T>(x: Subscriber<T>, answer: Answer, owed: seq<Task<T>>)
    requires Ledger(x, owed)
    ensures Ledger(Settle(x, answer), owed)
    ensures x.phase.Authorizing? && !answer.Allowed? ==> Settle(x, answer).closed
  {
    var y := Settle(x, answer);
    if y.closed {
      ClosedLedger(x, y, owed);
    } else if x.phase.Authorizing? {
      TasksAppend(x.handled, Handled(x.phase.task, answer.projection != Omitted));
      assert Whole(y) == Whole(x);
      OpenLedger(y, owed);
    }
  }

  lemma StepKeepsLedger<T>(x: Subscriber<T>, action: Action<T>, owed: seq<Task<T>>)
    requires Ledger(x, owed)
    ensures Ledger(SubscriberStep(x, action), owed)
  {
    var y := SubscriberStep(x, action);
    if action.Answered? {
      SettleKeepsLedger(x, action.answer, owed);
    } else if y.closed {
      ClosedLedger(x, y, owed);
    } else if action.Beat? {
      assert Whole(y) == Whole(x) + [Task.Heartbeat];
      WhereAppend(Whole(x), (t: Task<T>) => IsContent(t), Task.Heartbeat);
      OpenLedger(y, owed);
    } else {
      assert Whole(y) == Whole(x);
      OpenLedger(y, owed);
    }
  }

  lemma EnqueueKeepsLedger<T>(x: Subscriber<T>, record: Record<T>, owed: seq<Task<T>>)
    requires Ledger(x, owed)
    ensures Ledger(if x.closed then x else Enqueue(x, Deliver(record)), owed + [Deliver(record)])
  {
    if !x.closed {
      var y := Enqueue(x, Deliver(record));
      assert Whole(y) == Whole(x) + [Deliver(record)];
      WhereAppend(Whole(x), (t: Task<T>) => IsContent(t), Deliver(record));
      OpenLedger(y, owed + [Deliver(record)]);
    }
  }

  lemma NewLedger<T>(recovery: Recovery<T>, latest: int)
    ensures Ledger(NewSubscriber(recovery, latest), Opening(recovery, latest))
  {
    var x := NewSubscriber(recovery, latest);
    assert Whole(x) == Opening(recovery, latest);
    ContentOfDeliveries(Opening(recovery, latest));
    OpenLedger(x, Opening(recovery, latest));
  }

  // ---- the invariant of the whole system -----------------------------------------------------------

  /** The opening was exact when it was made. */
  ghost predicate ExactOrigin<T>(h: History<T>, o: Origin<T>) {
    && o.since <= |h.published|
    && (forall n | n in o.dropped :: n <= h.start + o.since)
    && (o.recovery.Resume? ==>
      && o.requested <= h.start + o.since
      && o.recovery.records == Remaining(h.published[..o.since], o.requested, o.dropped))
  }

  /** One subscriber against the history. */
  ghost predicate Kept<T>(h: History<T>, o: Origin<T>, x: Subscriber<T>) {
    ExactOrigin(h, o) && Ledger(x, Owed(h, o))
  }

  ghost predicate AllKept<T>(h: History<T>, origins: map<nat, Origin<T>>, subscribers: map<nat, Subscriber<T>>) {
    && subscribers.Keys == origins.Keys
    && forall id | id in origins :: Kept(h, origins[id], subscribers[id])
  }

  ghost predicate Inv<T>(w: World<T>, s: System<T>) {
    && Indexes(w.limits, s.stream.log, s.history) && s.history.start == w.start
    && AllKept(s.history, s.origins, s.stream.subscribers)
  }

  lemma KeptOnPublish<T>(h: History<T>, o: Origin<T>, x: Subscriber<T>, record: Record<T>, after: History<T>)
    requires Kept(h, o, x)
    requires after.start == h.start && after.published == h.published + [record]
    ensures Kept(after, o, if x.closed then x else Enqueue(x, Deliver(record)))
  {
    assert after.published[..o.since] == h.published[..o.since];
    assert after.published[o.since..] == h.published[o.since..] + [record];
    assert Owed(after, o) == Owed(h, o) + [Deliver(record)];
    EnqueueKeepsLedger(x, record, Owed(h, o));
  }

  lemma AllKeptOnPublish<T>(
    h: History<T>, origins: map<nat, Origin<T>>, subscribers: map<nat, Subscriber<T>>, record: Record<T>, after: History<T>)
    requires AllKept(h, origins, subscribers)
    requires after.start == h.start && after.published == h.published + [record]
    ensures AllKept(after, origins, EnqueueRecord(subscribers, record))
  {
    forall id | id in origins ensures Kept(after, origins[id], EnqueueRecord(subscribers, record)[id]) {
      KeptOnPublish(h, origins[id], subscribers[id], record, after);
    }
  }

  lemma KeptOnForget<T>(h: History<T>, o: Origin<T>, x: Subscriber<T>, dropped: set<int>)
    requires Kept(h, o, x)
    ensures Kept(h.(dropped := dropped), o, x)
  {
    assert Owed(h.(dropped := dropped), o) == Owed(h, o);
  }

  lemma AllKeptOnForget<T>(h: History<T>, origins: map<nat, Origin<T>>, subscribers: map<nat, Subscriber<T>>, dropped: set<int>)
    requires AllKept(h, origins, subscribers)
    ensures AllKept(h.(dropped := dropped), origins, subscribers)
  {
    forall id | id in origins ensures Kept(h.(dropped := dropped), origins[id], subscribers[id]) {
      KeptOnForget(h, origins[id], subscribers[id], dropped);
    }
  }

  lemma AllKeptOnClose<T>(h: History<T>, origins: map<nat, Origin<T>>, subscribers: map<nat, Subscriber<T>>)
    requires AllKept(h, origins, subscribers)
    ensures AllKept(h, origins, TerminateAll(subscribers))
  {
    forall id | id in origins ensures Kept(h, origins[id], TerminateAll(subscribers)[id]) {
      var x := subscribers[id];
      ClosedLedger(x, Notify(x, Terminated), Owed(h, origins[id]));
    }
  }

  lemma AllKeptOnUpdate<T>(
    h: History<T>, origins: map<nat, Origin<T>>, subscribers: map<nat, Subscriber<T>>, id: nat, o: Origin<T>, x: Subscriber<T>)
    requires AllKept(h, origins, subscribers) && Kept(h, o, x)
    ensures AllKept(h, origins[id := o], subscribers[id := x])
  {
  }

  lemma NewKept<T>(w: World<T>, s: System<T>, lastEventId: string)
    requires Indexes(w.limits, s.stream.log, s.history)
    ensures var o := OriginOf(w, s, lastEventId);
      Kept(s.history, o, NewSubscriber(o.recovery, s.stream.log.sequence))
  {
    RecoveryIsExact(w.limits, s.stream.log, s.history, w.lib, w.epoch, lastEventId);
    var h, o := s.history, OriginOf(w, s, lastEventId);
    assert h.published[..o.since] == h.published && h.published[o.since..] == [];
    assert Owed(h, o) == Opening(o.recovery, s.stream.log.sequence);
    NewLedger(o.recovery, s.stream.log.sequence);
  }

  lemma PublishKeepsInv<T>(w: World<T>, s: System<T>, event: string, data: T)
    requires Inv(w, s)
    ensures Inv(w, Next(w, s, Publish(event, data)))
  {
    var published := PublishLog(w.lib, w.limits, s.stream.log, event, data);
    if published.result.Ok? {
      var record := published.result.value;
      PublishKeepsIndex(w.limits, s.stream.log, s.history, record);
      AllKeptOnPublish(s.history, s.origins, s.stream.subscribers, record,
                       HistoryOfAppend(w.limits, s.stream.log, s.history, record));
    }
  }

  lemma ForgetKeepsInv<T>(w: World<T>, s: System<T>, drop: (string, T) -> bool)
    requires Inv(w, s)
    ensures Inv(w, Next(w, s, Forget(drop)))
  {
    DropKeepsIndex(w.limits, s.stream.log, s.history, drop);
    AllKeptOnForget(s.history, s.origins, s.stream.subscribers, s.history.dropped + Removed(s.stream.log, drop));
  }

  lemma SubscribeKeepsInv<T>(w: World<T>, s: System<T>, id: nat, lastEventId: string)
    requires Inv(w, s)
    ensures Inv(w, Next(w, s, Subscribe(id, lastEventId)))
  {
    if !s.stream.log.closed && id !in s.stream.subscribers {
      NewKept(w, s, lastEventId);
      NextOnSubscribe(w, s, id, lastEventId);
      var o := OriginOf(w, s, lastEventId);
      UpdateKeepsInv(w, s, Next(w, s, Subscribe(id, lastEventId)), id, o, NewSubscriber(o.recovery, s.stream.log.sequence));
    }
  }

  lemma NextOnSubscribe<T>(w: World<T>, s: System<T>, id: nat, lastEventId: string)
    requires !s.stream.log.closed && id !in s.stream.subscribers
    ensures var o := OriginOf(w, s, lastEventId);
      Changed(s, Next(w, s, Subscribe(id, lastEventId)), id, o, NewSubscriber(o.recovery, s.stream.log.sequence))
  {
  }

  /** Only the one subscriber, with its origin, is new or different. */
  ghost predicate Changed<T>(s: System<T>, t: System<T>, id: nat, o: Origin<T>, x: Subscriber<T>) {
    && t.stream.log == s.stream.log && t.history == s.history
    && t.origins == s.origins[id := o] && t.stream.subscribers == s.stream.subscribers[id := x]
  }

  lemma UpdateKeepsInv<T>(w: World<T>, s: System<T>, t: System<T>, id: nat, o: Origin<T>, x: Subscriber<T>)
    requires Inv(w, s) && Kept(s.history, o, x) && Changed(s, t, id, o, x)
    ensures Inv(w, t)
  {
    AllKeptOnUpdate(s.history, s.origins, s.stream.subscribers, id, o, x);
  }

  lemma CloseKeepsInv<T>(w: World<T>, s: System<T>)
    requires Inv(w, s)
    ensures Inv(w, Next(w, s, Close))
  {
    AllKeptOnClose(s.history, s.origins, s.stream.subscribers);
  }

  lemma OwnStepKeepsInv<T>(w: World<T>, s: System<T>, action: Action<T>)
    requires Inv(w, s) && (action.Beat? || action.Start? || action.Answered? || action.Finished? || action.Leave?)
    ensures Inv(w, Next(w, s, action))
  {
    if action.id in s.stream.subscribers {
      OwnStepKept(s, action);
      var x, o := s.stream.subscribers[action.id], s.origins[action.id];
      NextOnOwnStep(w, s, action);
      UpdateKeepsInv(w, s, Next(w, s, action), action.id, o, SubscriberStep(x, action));
    }
  }

  lemma OwnStepKept<T>(s: System<T>, action: Action<T>)
    requires action.Beat? || action.Start? || action.Answered? || action.Finished? || action.Leave?
    requires AllKept(s.history, s.origins, s.stream.subscribers) && action.id in s.stream.subscribers
    ensures Kept(s.history, s.origins[action.id], SubscriberStep(s.stream.subscribers[action.id], action))
  {
    var o := s.origins[action.id];
    assert Kept(s.history, o, s.stream.subscribers[action.id]);
    StepKeepsLedger(s.stream.subscribers[action.id], action, Owed(s.history, o));
  }

  lemma NextOnOwnStep<T>(w: World<T>, s: System<T>, action: Action<T>)
    requires action.Beat? || action.Start? || action.Answered? || action.Finished? || action.Leave?
    requires action.id in s.stream.subscribers && s.origins.Keys == s.stream.subscribers.Keys
    ensures Changed(s, Next(w, s, action), action.id, s.origins[action.id], SubscriberStep(s.stream.subscribers[action.id], action))
  {
    assert s.origins[action.id := s.origins[action.id]] == s.origins;
  }

  lemma {:induction false} Invariant<T>(w: World<T>, actions: seq<Action<T>>, k: nat)
    requires k <= |actions|
    ensures Inv(w, At(w, actions, k))
  {
    if k > 0 {
      Invariant(w, actions, k - 1);
      var s := At(w, actions, k - 1);
      match actions[k - 1] {
        case Publish(event, data) => PublishKeepsInv(w, s, event, data);
        case Forget(drop) => ForgetKeepsInv(w, s, drop);
        case Subscribe(id, lastEventId) => SubscribeKeepsInv(w, s, id, lastEventId);
        case Close => CloseKeepsInv(w, s);
        case _ => OwnStepKeepsInv(w, s, actions[k - 1]);
      }
    }
  }

  // ---- the theorems ----------------------------------------------------------------------------------

  /** In every reachable state the log indexes the history: its byte count, its budgets, what it retains. */
  lemma LogIsExact<T>(w: World<T>, actions: seq<Action<T>>, k: nat)
    requires k <= |actions|
    ensures var s := At(w, actions, k);
      && s.stream.log.replayBytes == Sum(s.stream.log.records)
      && Fits(w.limits, s.stream.log.records)
      && s.stream.log.records == Remaining(s.history.published, s.history.horizon, s.history.dropped)
  {
    Invariant(w, actions, k);
  }

  lemma SubscriberKept<T>(w: World<T>, actions: seq<Action<T>>, k: nat, id: nat)
    requires k <= |actions| && id in At(w, actions, k).stream.subscribers
    ensures var s := At(w, actions, k);
      id in s.origins && s.history.start == w.start && Kept(s.history, s.origins[id], s.stream.subscribers[id])
    ensures Numbered(w.start, At(w, actions, k).history.published)
  {
    Invariant(w, actions, k);
  }

  lemma {:induction false} WhereTrue<T>(items: seq<T>, keep: T -> bool)
    requires forall i | 0 <= i < |items| :: keep(items[i])
    ensures Where(items, keep) == items
    decreases |items|
  {
    if items != [] {
      WhereTrue(items[..|items| - 1], keep);
    }
  }

  lemma OwedOnResuming<T>(h: History<T>, o: Origin<T>)
    requires Numbered(h.start, h.published) && ExactOrigin(h, o) && o.recovery.Resume?
    ensures Owed(h, o) == DeliverAll(Remaining(h.published, o.requested, o.dropped))
  {
    RemainingGrows(h.start, h.published, o.since, o.requested, o.dropped);
    var more := h.published[o.since..];
    assert DeliverAll(o.recovery.records + more) == DeliverAll(o.recovery.records) + DeliverAll(more);
  }

  /** Whatever is published after the opening remains. */
  lemma RemainingGrows<T>(start: int, published: seq<Record<T>>, since: nat, requested: int, dropped: set<int>)
    requires Numbered(start, published) && since <= |published| && requested <= start + since
    requires forall n | n in dropped :: n <= start + since
    ensures Remaining(published, requested, dropped) == Remaining(published[..since], requested, dropped) + published[since..]
  {
    var keep := (r: Record<T>) => r.sequence > requested && r.sequence !in dropped;
    assert published == published[..since] + published[since..];
    WhereConcat(published[..since], published[since..], keep);
    WhereTrue(published[since..], keep);
  }

  /**
   * After a resumption without a snapshot: an open subscriber was handed, was spared by its projection or
   * still awaits exactly the published records after its cursor, in order, less those forgotten before it came.
   */
  lemma ResumedMissesNothing<T>(w: World<T>, actions: seq<Action<T>>, k: nat, id: nat)
    requires k <= |actions| && id in At(w, actions, k).stream.subscribers
    ensures id in At(w, actions, k).origins
    ensures var s := At(w, actions, k);
      var o := s.origins[id];
      !s.stream.subscribers[id].closed && o.recovery.Resume? ==>
        Content(Whole(s.stream.subscribers[id])) == DeliverAll(Remaining(s.history.published, o.requested, o.dropped))
  {
    SubscriberKept(w, actions, k, id);
    var s := At(w, actions, k);
    if s.origins[id].recovery.Resume? {
      OwedOnResuming(s.history, s.origins[id]);
    }
  }

  /**
   * After a snapshot at the latest cursor: an open subscriber's content is that snapshot, with the reset
   * before it when there is one, followed by every record published since.
   */
  lemma SnapshotThenEverything<T>(w: World<T>, actions: seq<Action<T>>, k: nat, id: nat)
    requires k <= |actions| && id in At(w, actions, k).stream.subscribers
    ensures id in At(w, actions, k).origins
    ensures var s := At(w, actions, k);
      var o := s.origins[id];
      o.since <= |s.history.published| &&
      (!s.stream.subscribers[id].closed && o.recovery.NeedsSnapshot? ==>
        Content(Whole(s.stream.subscribers[id])) ==
          (if o.recovery.reset.Some? then [Reset(o.recovery.reset.value)] else []) + [Snapshot(w.start + o.since)]
          + DeliverAll(s.history.published[o.since..]))
  {
    SubscriberKept(w, actions, k, id);
    var s := At(w, actions, k);
    if !s.stream.subscribers[id].closed && s.origins[id].recovery.NeedsSnapshot? {
      KeptAfterSnapshot(s.history, s.origins[id], s.stream.subscribers[id]);
    }
  }

  lemma KeptAfterSnapshot<T>(h: History<T>, o: Origin<T>, x: Subscriber<T>)
    requires Kept(h, o, x) && !x.closed && o.recovery.NeedsSnapshot?
    ensures Content(Whole(x)) ==
      (if o.recovery.reset.Some? then [Reset(o.recovery.reset.value)] else []) + [Snapshot(h.start + o.since)]
      + DeliverAll(h.published[o.since..])
  {
  }

  /** Record cursors strictly increase; a snapshot's comes before any record, a reset before the snapshot. */
  predicate Precedes<T>(a: Task<T>, b: Task<T>) {
    match b
    case Deliver(record) =>
      (a.Deliver? ==> a.record.sequence < record.sequence) && (a.Snapshot? ==> a.latest < record.sequence)
    case Snapshot(_) => a.Reset?
    case _ => false
  }

  ghost predicate InCursorOrder<T>(tasks: seq<Task<T>>) {
    forall i, j | 0 <= i < j < |tasks| :: Precedes(tasks[i], tasks[j])
  }

  lemma DeliveriesInOrder<T>(records: seq<Record<T>>)
    requires Ascending(records)
    ensures InCursorOrder(DeliverAll(records))
  {
  }

  lemma PrependInOrder<T>(first: Task<T>, tasks: seq<Task<T>>)
    requires InCursorOrder(tasks) && forall t | t in tasks :: Precedes(first, t)
    ensures InCursorOrder([first] + tasks)
  {
  }

  lemma SnapshotComesFirst<T>(recovery: Recovery<T>, latest: int, records: seq<Record<T>>)
    requires Ascending(records) && forall r | r in records :: r.sequence > latest
    requires recovery.NeedsSnapshot?
    ensures InCursorOrder(Opening(recovery, latest) + DeliverAll(records))
  {
    var deliveries := DeliverAll(records);
    DeliveriesInOrder(records);
    PrependInOrder(Snapshot(latest), deliveries);
    if recovery.reset.Some? {
      var reset := Reset(recovery.reset.value);
      PrependInOrder(reset, [Snapshot(latest)] + deliveries);
      assert Opening(recovery, latest) + deliveries == [reset] + ([Snapshot(latest)] + deliveries);
    }
  }

  lemma OwedInOrder<T>(h: History<T>, o: Origin<T>)
    requires Numbered(h.start, h.published) && ExactOrigin(h, o)
    ensures InCursorOrder(Owed(h, o))
  {
    NumberedAscends(h.start, h.published);
    if o.recovery.Resume? {
      OwedOnResuming(h, o);
      WhereAscends(h.published, (r: Record<T>) => r.sequence > o.requested && r.sequence !in o.dropped);
      DeliveriesInOrder(Remaining(h.published, o.requested, o.dropped));
    } else {
      LaterAscend(h.start, h.published, o.since);
      SnapshotComesFirst(o.recovery, h.start + o.since, h.published[o.since..]);
    }
  }

  lemma LaterAscend<T>(start: int, published: seq<Record<T>>, since: nat)
    requires Numbered(start, published) && since <= |published|
    ensures Ascending(published[since..]) && forall r | r in published[since..] :: r.sequence > start + since
  {
  }

  lemma OrderOfPrefix<T>(tasks: seq<Task<T>>, all: seq<Task<T>>)
    requires tasks <= all && InCursorOrder(all)
    ensures InCursorOrder(tasks)
  {
    assert forall i | 0 <= i < |tasks| :: tasks[i] == all[i];
  }

  /** Whoever the subscriber is and however it ends, what it was handed is in strictly increasing cursor order. */
  lemma HandedInCursorOrder<T>(w: World<T>, actions: seq<Action<T>>, k: nat, id: nat)
    requires k <= |actions| && id in At(w, actions, k).stream.subscribers
    ensures InCursorOrder(Content(Tasks(At(w, actions, k).stream.subscribers[id].handled)))
  {
    SubscriberKept(w, actions, k, id);
    var s := At(w, actions, k);
    OwedInOrder(s.history, s.origins[id]);
    OrderOfPrefix(Content(Tasks(s.stream.subscribers[id].handled)), Owed(s.history, s.origins[id]));
  }

  /** Once closed, denied or failed, a subscriber is never handed anything again, and hears no second notice. */
  lemma {:induction false} NothingAfterClosing<T>(w: World<T>, actions: seq<Action<T>>, k: nat, m: nat, id: nat)
    requires k <= m <= |actions| && id in At(w, actions, k).stream.subscribers
    requires At(w, actions, k).stream.subscribers[id].closed
    ensures id in At(w, actions, m).stream.subscribers
    ensures At(w, actions, m).stream.subscribers[id].closed
    ensures At(w, actions, m).stream.subscribers[id].handled == At(w, actions, k).stream.subscribers[id].handled
    ensures At(w, actions, m).stream.subscribers[id].notices == At(w, actions, k).stream.subscribers[id].notices
    decreases m
  {
    if k < m {
      NothingAfterClosing(w, actions, k, m - 1, id);
      var s := At(w, actions, m - 1);
      ClosedStaysClosed(w, s, actions[m - 1], id);
      assert At(w, actions, m) == Next(w, s, actions[m - 1]);
    }
  }

  lemma ClosedStaysClosed<T>(w: World<T>, s: System<T>, action: Action<T>, id: nat)
    requires id in s.stream.subscribers && s.stream.subscribers[id].closed
    ensures var after := Next(w, s, action).stream.subscribers;
      && id in after && after[id].closed
      && after[id].handled == s.stream.subscribers[id].handled && after[id].notices == s.stream.subscribers[id].notices
  {
  }

  /** Action `k` handed `task` to subscriber `id`. */
  ghost predicate HandsOver<T>(w: World<T>, actions: seq<Action<T>>, k: nat, id: nat, task: Task<T>) {
    && k < |actions|
    && id in At(w, actions, k).stream.subscribers && id in At(w, actions, k + 1).stream.subscribers
    && At(w, actions, k + 1).stream.subscribers[id].handled
       == At(w, actions, k).stream.subscribers[id].handled + [Handled(task, true)]
  }

  ghost predicate Waits<T>(w: World<T>, actions: seq<Action<T>>, k: nat, id: nat, task: Task<T>)
    requires k <= |actions|
  {
    var subscribers := At(w, actions, k).stream.subscribers;
    id in subscribers && subscribers[id].phase == Authorizing(task)
  }

  /** Action `m` took `task` off the queue of subscriber `id`. */
  ghost predicate TakesUp<T>(w: World<T>, actions: seq<Action<T>>, m: nat, id: nat, task: Task<T>)
    requires m < |actions|
  {
    var subscribers := At(w, actions, m).stream.subscribers;
    actions[m] == Start(id) && id in subscribers && subscribers[id].queue != [] && subscribers[id].queue[0] == task
  }

  /** Since action `m`, which took `task` off the queue, subscriber `id` has been waiting for that task's answer. */
  ghost predicate AskedSince<T>(w: World<T>, actions: seq<Action<T>>, m: nat, k: nat, id: nat, task: Task<T>) {
    && m < k <= |actions| && TakesUp(w, actions, m, id, task)
    && forall l: nat | m < l <= k :: Waits(w, actions, l, id, task)
  }

  lemma AskingBegins<T>(w: World<T>, actions: seq<Action<T>>, k: nat, id: nat, task: Task<T>)
    requires 0 < k <= |actions| && Waits(w, actions, k, id, task)
    ensures Waits(w, actions, k - 1, id, task) || TakesUp(w, actions, k - 1, id, task)
  {
  }

  lemma {:induction false} WaitingMeansAsked<T>(w: World<T>, actions: seq<Action<T>>, k: nat, id: nat, task: Task<T>)
    returns (m: nat)
    requires k <= |actions| && Waits(w, actions, k, id, task)
    ensures AskedSince(w, actions, m, k, id, task)
  {
    if k == 0 {
      assert false;
    } else {
      AskingBegins(w, actions, k, id, task);
      if Waits(w, actions, k - 1, id, task) {
        m := WaitingMeansAsked(w, actions, k - 1, id, task);
        AskedLonger(w, actions, m, k, id, task);
      } else {
        m := k - 1;
      }
    }
  }

  lemma AskedLonger<T>(w: World<T>, actions: seq<Action<T>>, m: nat, k: nat, id: nat, task: Task<T>)
    requires k < |actions| + 1 && k > 0 && AskedSince(w, actions, m, k - 1, id, task) && Waits(w, actions, k, id, task)
    ensures AskedSince(w, actions, m, k, id, task)
  {
    forall l: nat | m < l <= k ensures Waits(w, actions, l, id, task) {
      if l < k {
        assert Waits(w, actions, l, id, task);
      }
    }
  }

  /** Nothing is handed over but by a positive answer to the very task's own request, to an open subscriber. */
  lemma HandoverFollowsOwnAuthorisation<T>(w: World<T>, actions: seq<Action<T>>, k: nat, id: nat, task: Task<T>)
    returns (m: nat)
    requires HandsOver(w, actions, k, id, task)
    ensures actions[k].Answered? && actions[k].id == id && actions[k].answer.Allowed?
    ensures !At(w, actions, k).stream.subscribers[id].closed
    ensures AskedSince(w, actions, m, k, id, task)
  {
    var x, y := At(w, actions, k).stream.subscribers[id], At(w, actions, k + 1).stream.subscribers[id];
    assert |y.handled| == |x.handled| + 1 && y.handled[|x.handled|] == Handled(task, true);
    m := WaitingMeansAsked(w, actions, k, id, task);
  }

  // ---- how a subscription ends, and how it goes on ---------------------------------------------------------

  /**
   * The notice with which an action ends the subscription: authorisation that throws or denies, a record or
   * snapshot whose projection fails, a callback that fails, the stream closing.
   */
  function Ending<T>(x: Subscriber<T>, action: Action<T>, id: nat): Option<Notice> {
    if action.Close? then Some(Terminated)
    else if x.phase.Authorizing? && action == Answered(id, Denied) then Some(Unauthorized)
    else if x.phase.Authorizing? && action == Answered(id, Throws) then Some(Errored)
    else if x.phase.Authorizing? && action == Answered(id, Allowed(Faulty)) && (x.phase.task.Deliver? || x.phase.task.Snapshot?)
    then Some(Errored)
    else if x.phase.Running? && action == Finished(id, false) then Some(Errored)
    else None
  }

  lemma EndingStep<T>(w: World<T>, s: System<T>, action: Action<T>, id: nat)
    requires id in s.stream.subscribers && Ending(s.stream.subscribers[id], action, id).Some?
    requires s.stream.log.closed ==> s.stream.subscribers[id].closed
    ensures var x, after := s.stream.subscribers[id], Next(w, s, action).stream.subscribers;
      && id in after && after[id].closed && after[id].handled == x.handled
      && after[id].notices == if x.closed then x.notices else x.notices + [Ending(x, action, id).value]
  {
  }

  /** After a closed stream's closing, no subscriber is open. */
  lemma {:induction false} ClosedStreamHasNoneOpen<T>(w: World<T>, actions: seq<Action<T>>, k: nat, id: nat)
    requires k <= |actions| && At(w, actions, k).stream.log.closed && id in At(w, actions, k).stream.subscribers
    ensures At(w, actions, k).stream.subscribers[id].closed
  {
    if k > 0 {
      var s := At(w, actions, k - 1);
      if s.stream.log.closed {
        NoneSubscribesAfterClosing(w, s, actions[k - 1], id);
        ClosedStreamHasNoneOpen(w, actions, k - 1, id);
        ClosedStaysClosed(w, s, actions[k - 1], id);
      } else {
        OnlyCloseCloses(w, s, actions[k - 1]);
      }
    }
  }

  lemma NoneSubscribesAfterClosing<T>(w: World<T>, s: System<T>, action: Action<T>, id: nat)
    requires s.stream.log.closed && id in Next(w, s, action).stream.subscribers
    ensures id in s.stream.subscribers
  {
  }

  lemma OnlyCloseCloses<T>(w: World<T>, s: System<T>, action: Action<T>)
    requires !s.stream.log.closed && Next(w, s, action).stream.log.closed
    ensures action.Close?
  {
  }

  /**
   * Whatever follows: a subscriber that was denied, or failed, is closed from then on, is handed nothing more,
   * and has heard exactly that notice if it was open.
   */
  lemma EndingIsFinal<T>(w: World<T>, actions: seq<Action<T>>, k: nat, m: nat, id: nat)
    requires k < m <= |actions| && id in At(w, actions, k).stream.subscribers
    requires Ending(At(w, actions, k).stream.subscribers[id], actions[k], id).Some?
    ensures id in At(w, actions, m).stream.subscribers
    ensures var x, y := At(w, actions, k).stream.subscribers[id], At(w, actions, m).stream.subscribers[id];
      && y.closed && y.handled == x.handled
      && y.notices == if x.closed then x.notices else [Ending(x, actions[k], id).value]
  {
    EndsAt(w, actions, k, id);
    NothingAfterClosing(w, actions, k + 1, m, id);
  }

  lemma EndsAt<T>(w: World<T>, actions: seq<Action<T>>, k: nat, id: nat)
    requires k < |actions| && id in At(w, actions, k).stream.subscribers
    requires Ending(At(w, actions, k).stream.subscribers[id], actions[k], id).Some?
    ensures id in At(w, actions, k + 1).stream.subscribers
    ensures var x, y := At(w, actions, k).stream.subscribers[id], At(w, actions, k + 1).stream.subscribers[id];
      && y.closed && y.handled == x.handled
      && y.notices == if x.closed then x.notices else [Ending(x, actions[k], id).value]
  {
    var s := At(w, actions, k);
    NoNoticeWhileOpen(w, actions, k, id);
    if s.stream.log.closed {
      ClosedStreamHasNoneOpen(w, actions, k, id);
    }
    EndingStep(w, s, actions[k], id);
    assert At(w, actions, k + 1) == Next(w, s, actions[k]);
  }

  lemma NoNoticeWhileOpen<T>(w: World<T>, actions: seq<Action<T>>, k: nat, id: nat)
    requires k <= |actions| && id in At(w, actions, k).stream.subscribers
    ensures !At(w, actions, k).stream.subscribers[id].closed ==> At(w, actions, k).stream.subscribers[id].notices == []
  {
    SubscriberKept(w, actions, k, id);
  }

  /** A client that leaves is handed nothing more, and hears nothing. */
  lemma LeavingIsFinal<T>(w: World<T>, actions: seq<Action<T>>, k: nat, m: nat, id: nat)
    requires k < m <= |actions| && id in At(w, actions, k).stream.subscribers && actions[k] == Leave(id)
    ensures id in At(w, actions, m).stream.subscribers
    ensures var x, y := At(w, actions, k).stream.subscribers[id], At(w, actions, m).stream.subscribers[id];
      y.closed && y.handled == x.handled && y.notices == x.notices
  {
    var s := At(w, actions, k);
    LeavingStep(w, s, id);
    assert At(w, actions, k + 1) == Next(w, s, Leave(id));
    NothingAfterClosing(w, actions, k + 1, m, id);
  }

  lemma LeavingStep<T>(w: World<T>, s: System<T>, id: nat)
    requires id in s.stream.subscribers
    ensures Next(w, s, Leave(id)).stream.subscribers == s.stream.subscribers[id := s.stream.subscribers[id].(closed := true)]
  {
  }

  /** And in no other way: an open subscriber stays open through every other action. */
  lemma StaysOpen<T>(w: World<T>, s: System<T>, action: Action<T>, id: nat)
    requires id in s.stream.subscribers && !s.stream.subscribers[id].closed
    requires Ending(s.stream.subscribers[id], action, id).None? && action != Leave(id)
    ensures id in Next(w, s, action).stream.subscribers && !Next(w, s, action).stream.subscribers[id].closed
  {
  }

  /** Closed, a subscriber gets no more records, and no authorisation is asked for what it still had. */
  lemma {:induction false} ClosedGetsAndAsksNothing<T>(w: World<T>, actions: seq<Action<T>>, k: nat, m: nat, id: nat)
    requires k <= m <= |actions| && id in At(w, actions, k).stream.subscribers
    requires At(w, actions, k).stream.subscribers[id].closed
    ensures id in At(w, actions, m).stream.subscribers
    ensures var x, y := At(w, actions, k).stream.subscribers[id], At(w, actions, m).stream.subscribers[id];
      && y.closed && (y.phase.Authorizing? ==> x.phase == y.phase)
      && forall task | task in y.queue :: task in x.queue || task.Heartbeat?
    decreases m
  {
    if k < m {
      ClosedGetsAndAsksNothing(w, actions, k, m - 1, id);
      var s := At(w, actions, m - 1);
      ClosedStepAsksNothing(w, s, actions[m - 1], id);
      assert At(w, actions, m) == Next(w, s, actions[m - 1]);
    }
  }

  lemma ClosedStepAsksNothing<T>(w: World<T>, s: System<T>, action: Action<T>, id: nat)
    requires id in s.stream.subscribers && s.stream.subscribers[id].closed
    ensures id in Next(w, s, action).stream.subscribers
    ensures var x, y := s.stream.subscribers[id], Next(w, s, action).stream.subscribers[id];
      && y.closed && (y.phase.Authorizing? ==> x.phase == y.phase)
      && forall task | task in y.queue :: task in x.queue || task.Heartbeat?
  {
  }

  /** The transport works and the authorisation holds: a task begins, is allowed as it is, and is handed over. */
  function Round<T>(id: nat): seq<Action<T>> {
    [Start(id), Answered(id, Allowed(Ready)), Finished(id, true)]
  }

  function Rounds<T>(id: nat, n: nat): seq<Action<T>> {
    if n == 0 then [] else Round(id) + Rounds(id, n - 1)
  }

  function Steps<T>(x: Subscriber<T>, actions: seq<Action<T>>): Subscriber<T>
    decreases |actions|
  {
    if actions == [] then x else Steps(SubscriberStep(x, actions[0]), actions[1..])
  }

  function HandedOver<T>(tasks: seq<Task<T>>): (handled: seq<Handled<T>>)
    ensures |handled| == |tasks| && forall i | 0 <= i < |tasks| :: handled[i] == Handled(tasks[i], true)
  {
    seq(|tasks|, i requires 0 <= i < |tasks| => Handled(tasks[i], true))
  }

  lemma RoundHandsOverOne<T>(x: Subscriber<T>, id: nat)
    requires !x.closed && x.phase == Idle && x.queue != []
    ensures Steps(x, Round(id)) == x.(queue := x.queue[1..], handled := x.handled + [Handled(x.queue[0], true)])
  {
    ThreeSteps(x, Start(id), Answered(id, Allowed(Ready)), Finished(id, true));
  }

  lemma ThreeSteps<T>(x: Subscriber<T>, a: Action<T>, b: Action<T>, c: Action<T>)
    ensures Steps(x, [a, b, c]) == SubscriberStep(SubscriberStep(SubscriberStep(x, a), b), c)
  {
    var y := SubscriberStep(x, a);
    var z := SubscriberStep(y, b);
    var all: seq<Action<T>> := [a, b, c];
    assert all[1..] == [b, c] && all[1..][1..] == [c] && all[1..][1..][1..] == [];
    assert Steps(x, all) == Steps(y, all[1..]) == Steps(z, all[1..][1..]);
    assert Steps(z, all[1..][1..]) == Steps(SubscriberStep(z, c), all[1..][1..][1..]);
  }

  lemma {:induction false} StepsConcat<T>(x: Subscriber<T>, a: seq<Action<T>>, b: seq<Action<T>>)
    ensures Steps(x, a + b) == Steps(Steps(x, a), b)
    decreases |a|
  {
    if a == [] {
      assert a + b == b;
    } else {
      StepsConcat(SubscriberStep(x, a[0]), a[1..], b);
      assert (a + b)[0] == a[0] && (a + b)[1..] == a[1..] + b;
    }
  }

  /**
   * Nothing owed gets stuck: while the authorisation holds and the transport works, the whole queue is handed
   * over, in order, one round each.
   */
  lemma {:induction false} QueueIsHandedOver<T>(x: Subscriber<T>, id: nat)
    requires !x.closed && x.phase == Idle
    ensures Steps(x, Rounds(id, |x.queue|)) == x.(queue := [], handled := x.handled + HandedOver(x.queue))
    decreases |x.queue|
  {
    if x.queue == [] {
      assert x.handled + HandedOver(x.queue) == x.handled;
    } else {
      var y := x.(queue := x.queue[1..], handled := x.handled + [Handled(x.queue[0], true)]);
      RoundHandsOverOne(x, id);
      StepsConcat(x, Round(id), Rounds(id, |x.queue| - 1));
      QueueIsHandedOver(y, id);
      HandedOverOneMore(x.handled, x.queue);
    }
  }

  lemma HandedOverOneMore<T>(handled: seq<Handled<T>>, queue: seq<Task<T>>)
    requires queue != []
    ensures handled + [Handled(queue[0], true)] + HandedOver(queue[1..]) == handled + HandedOver(queue)
  {
    assert HandedOver(queue) == [Handled(queue[0], true)] + HandedOver(queue[1..]);
  }

  /** A subscriber's own actions do to it, and to nothing else in the system, what they do to it alone. */
  lemma OwnActionsStandAlone<T>(w: World<T>, s: System<T>, action: Action<T>, id: nat)
    requires id in s.stream.subscribers
    requires action in {Start(id), Finished(id, true), Finished(id, false), Leave(id), Beat(id)} || (action.Answered? && action.id == id)
    ensures Next(w, s, action) ==
      s.(stream := s.stream.(subscribers := s.stream.subscribers[id := SubscriberStep(s.stream.subscribers[id], action)]))
  {
  }

  /** A record left out by the projection is passed over, and the next task can begin; a heartbeat or reset never is. */
  lemma OmittedIsPassedOver<T>(x: Subscriber<T>, id: nat)
    requires !x.closed && x.phase.Authorizing?
    ensures var y := SubscriberStep(x, Answered(id, Allowed(Omitted)));
      && !y.closed && y.queue == x.queue && y.notices == x.notices
      && y.handled == x.handled + [Handled(x.phase.task, !x.phase.task.Deliver?)]
      && y.phase == if x.phase.task.Deliver? then Idle else Running(x.phase.task)
  {
  }
}
