/** The scenario's timeline and the cross-checks the driver relies on. */
module ScenarioTimeline {

  datatype Kind = Quiet | Join(who: string) | Message(from: string, mentions: seq<string>, replyTo: string, attachmentsOk: bool)

  /** An event at an epoch millisecond; an empty tag is no label. */
  datatype Timed = Timed(at: int, kind: Kind, place: string, tag: string)

  datatype Cast = Cast(people: set<string>, channels: set<string>)

  datatype Problem =
    | EndBeforeStart | EarlierThanPrevious(index: nat) | OutsideRun(index: nat) | DuplicateLabel(tag: string)
    | UnknownPlace(index: nat) | UnknownPerson(index: nat) | ForeignDm(index: nat) | UnknownMention(index: nat)
    | ReplyNotEarlier(index: nat) | EmptyAttachment(index: nat)

  const DM := "dm:"
  const HER := "her:"

  predicate StartsWith(text: string, prefix: string) {
    prefix <= text
  }

  predicate PlaceOk(world: Cast, place: string) {
    if StartsWith(place, DM) then place[|DM|..] in world.people else place in world.channels
  }

  predicate RepliesToLabel(event: Timed) {
    event.kind.Message? && event.kind.replyTo != "" && !StartsWith(event.kind.replyTo, HER)
  }

  predicate HasLabel(event: Timed) {
    !event.kind.Quiet? && event.tag != ""
  }

  function Labels(events: seq<Timed>): set<string> {
    set event | event in events && HasLabel(event) :: event.tag
  }

  lemma LabelsAppend(events: seq<Timed>, event: Timed)
    ensures Labels(events + [event]) == if HasLabel(event) then Labels(events) + {event.tag} else Labels(events)
  {
  }

  predicate KnownMentions(world: Cast, mentions: seq<string>) {
    forall mention | mention in mentions :: mention == "her" || mention in world.people
  }

  /** What one message is checked for, beyond its time and label. */
  predicate MessageOk(world: Cast, event: Timed, earlier: set<string>)
    requires event.kind.Message?
  {
    && event.kind.from in world.people
    && (StartsWith(event.place, DM) ==> event.place[|DM|..] == event.kind.from)
    && KnownMentions(world, event.kind.mentions)
    && (RepliesToLabel(event) ==> event.kind.replyTo in earlier)
    && event.kind.attachmentsOk
  }

  /** A message's own label is already known where its reply is looked up. */
  predicate EventOk(world: Cast, event: Timed, earlier: set<string>) {
    && (HasLabel(event) ==> event.tag !in earlier)
    && (!event.kind.Quiet? ==> PlaceOk(world, event.place))
    && (event.kind.Join? ==> event.kind.who in world.people)
    && (event.kind.Message? ==> MessageOk(world, event, if HasLabel(event) then earlier + {event.tag} else earlier))
  }

  /** Times never decrease and stay inside the run. */
  predicate InOrder(start: int, end: int, events: seq<Timed>) {
    && (forall i | 0 <= i < |events| :: start <= events[i].at <= end)
    && (forall i, j | 0 <= i < j < |events| :: events[i].at <= events[j].at)
  }

  predicate EventsOk(world: Cast, events: seq<Timed>) {
    forall i | 0 <= i < |events| :: EventOk(world, events[i], Labels(events[..i]))
  }

  predicate Accepted(world: Cast, start: int, end: int, events: seq<Timed>) {
    end > start && InOrder(start, end, events) && EventsOk(world, events)
  }

  function If(wrong: bool, problem: Problem): seq<Problem> {
    if wrong then [problem] else []
  }

  function MessageProblems(world: Cast, i: nat, event: Timed, labels: set<string>): seq<Problem>
    requires event.kind.Message?
  {
    If(event.kind.from !in world.people, UnknownPerson(i))
    + If(StartsWith(event.place, DM) && event.place[|DM|..] != event.kind.from, ForeignDm(i))
    + If(!KnownMentions(world, event.kind.mentions), UnknownMention(i))
    + If(RepliesToLabel(event) && event.kind.replyTo !in labels, ReplyNotEarlier(i))
    + If(!event.kind.attachmentsOk, EmptyAttachment(i))
  }

  /** The event checks: an empty problem list means exactly an acceptable list of events. */
  method CheckScenario(world: Cast, start: int, end: int, events: seq<Timed>) returns (problems: seq<Problem>)
    ensures problems == [] <==> Accepted(world, start, end, events)
  {
    problems := If(end <= start, EndBeforeStart);
    var labels := {};
    var previous := start;
    for i := 0 to |events|
      invariant labels == Labels(events[..i])
      invariant previous == if i == 0 then start else events[i - 1].at
      invariant problems == [] <==> Accepted(world, start, end, events[..i])
    {
      var event := events[i];
      ghost var before := problems;
      assert events[..i + 1] == events[..i] + [event];
      LabelsAppend(events[..i], event);
      AcceptOneMore(world, start, end, events, i);
      problems := problems + If(event.at < previous, EarlierThanPrevious(i));
      problems := problems + If(event.at < start || event.at > end, OutsideRun(i));
      previous := event.at;
      if !event.kind.Quiet? {
        if event.tag != "" {
          problems := problems + If(event.tag in labels, DuplicateLabel(event.tag));
          labels := labels + {event.tag};
        }
        problems := problems + If(!PlaceOk(world, event.place), UnknownPlace(i));
        if event.kind.Join? {
          problems := problems + If(event.kind.who !in world.people, UnknownPerson(i));
        } else {
          problems := problems + MessageProblems(world, i, event, labels);
        }
      }
    }
    assert events[..|events|] == events;
  }

  lemma AcceptOneMore(world: Cast, start: int, end: int, events: seq<Timed>, i: nat)
    requires i < |events|
    ensures Accepted(world, start, end, events[..i + 1]) <==>
      && Accepted(world, start, end, events[..i])
      && start <= events[i].at <= end && (i > 0 ==> events[i - 1].at <= events[i].at)
      && EventOk(world, events[i], Labels(events[..i]))
  {
    OrderOneMore(start, end, events, i);
    ChecksOneMore(world, events, i);
  }

  lemma OrderOneMore(start: int, end: int, events: seq<Timed>, i: nat)
    requires i < |events|
    ensures InOrder(start, end, events[..i + 1]) <==>
      && InOrder(start, end, events[..i])
      && start <= events[i].at <= end && (i > 0 ==> events[i - 1].at <= events[i].at)
  {
    var less, more := events[..i], events[..i + 1];
    assert forall j | 0 <= j < i :: less[j] == more[j];
  }

  lemma ChecksOneMore(world: Cast, events: seq<Timed>, i: nat)
    requires i < |events|
    ensures EventsOk(world, events[..i + 1]) <==> EventsOk(world, events[..i]) && EventOk(world, events[i], Labels(events[..i]))
  {
    var less, more := events[..i], events[..i + 1];
    assert forall j | 0 <= j < i :: less[j] == more[j] && less[..j] == more[..j];
    assert more[..i] == less;
  }

  /** A message replies to a label of the timeline before it, unless it names its own. */
  lemma RepliesLookBack(world: Cast, start: int, end: int, events: seq<Timed>, k: nat)
    requires Accepted(world, start, end, events) && k < |events| && RepliesToLabel(events[k])
    ensures events[k].kind.replyTo in Labels(events[..k]) <==> events[k].kind.replyTo != events[k].tag
  {
    assert EventOk(world, events[k], Labels(events[..k]));
  }

  /** The check calls a reply to its own label fine: the label is registered before the reply is looked up. */
  lemma SelfReplyIsAccepted(world: Cast, start: int, end: int, person: string, channel: string, tag: string)
    requires start < end && person in world.people && channel in world.channels && !StartsWith(channel, DM)
    requires tag != "" && !StartsWith(tag, HER)
    ensures Accepted(world, start, end, [Timed(start, Message(person, [], tag, true), channel, tag)])
  {
    var event := Timed(start, Message(person, [], tag, true), channel, tag);
    assert [event][..0] == [];
  }
}

/** The driver: a scenario played on a simulated clock, with sleeps that deliver what falls due meanwhile. */
module Drivers {
  import opened Results
  import opened ScenarioTimeline

  datatype Failure = BudgetExceeded | OtherFailure

  datatype Status = Done | MaxUsd | Error

  /**
   * What one awaited call of the application does: sleeps, in order, perhaps catching their failures; then
   * it fails or answers (wakeup times, whether her life is idle).
   */
  datatype Reply = Reply(
    waits: seq<int>, swallows: bool, failure: Option<Failure>, wakeups: seq<int>, idle: bool)

  /** A delivery: the clock when it was made, the time slept inside deliveries until then, and whether its reply was found. */
  datatype Stamp = Stamp(at: int, slept: int, replyFound: bool)

  datatype Checkpoint = Checkpoint(due: int, at: int)

  function Max(a: int, b: int): int {
    if a < b then b else a
  }

  function Min(a: int, b: int): int {
    if a < b then a else b
  }

  function AtMost(time: int, other: Option<int>): int {
    if other.Some? then Min(time, other.value) else time
  }

  function Dues(taken: seq<Checkpoint>): (dues: seq<int>)
    ensures |dues| == |taken| && forall i | 0 <= i < |taken| :: dues[i] == taken[i].due
  {
    seq(|taken|, i requires 0 <= i < |taken| => taken[i].due)
  }

  predicate Sorted(times: seq<int>) {
    forall i, j | 0 <= i < j < |times| :: times[i] <= times[j]
  }

  lemma AllLater(times: seq<int>, now: int)
    requires Sorted(times) && (times != [] ==> times[0] > now)
    ensures forall t | t in times :: t > now
  {
    forall t | t in times ensures t > now {
      var i :| 0 <= i < |times| && times[i] == t;
      assert i > 0 ==> times[0] <= times[i];
    }
  }

  /** The earliest of the times after `now`. */
  function NextAfter(times: seq<int>, now: int): (r: Option<int>)
    ensures r.Some? ==> r.value in times && r.value > now && forall t | t in times && t > now :: r.value <= t
    ensures r.None? ==> forall t | t in times :: t <= now
  {
    if times == [] then None
    else
      var rest := NextAfter(times[1..], now);
      assert times == [times[0]] + times[1..];
      if times[0] <= now then rest else Some(AtMost(times[0], rest))
  }

  /** The next multiple of the tick at or after `ms`. */
  function Align(ms: int, tickMs: int): (aligned: int)
    requires tickMs > 0
    ensures ms <= aligned < ms + tickMs
    ensures exists ticks :: aligned == ticks * tickMs
  {
    var up := ms + tickMs - 1;
    assert up == up / tickMs * tickMs + up % tickMs;
    up / tickMs * tickMs
  }

  // ---- what has been delivered, as a value -----------------------------------------------------------

  datatype Plan = Plan(timeline: seq<Timed>, start: int, end: int)

  ghost predicate Playable(plan: Plan) {
    InOrder(plan.start, plan.end, plan.timeline) && plan.start < plan.end
  }

  /** The clock, the labels that have a message, every delivery so far, and the time slept inside deliveries. */
  datatype Play = Play(clock: int, labels: set<string>, delivered: seq<Stamp>, slept: int)

  /** A delivery not early, and no later than the sleeping inside deliveries explains; its reply found where it exists. */
  ghost predicate Timely(event: Timed, earlier: set<string>, stamp: Stamp) {
    && event.at <= stamp.at <= event.at + stamp.slept
    && (RepliesToLabel(event) ==> (stamp.replyFound <==> event.kind.replyTo in earlier))
  }

  /** Events are delivered in timeline order, each at most once, and every delivery is timely. */
  ghost predicate Consistent(plan: Plan, s: Play) {
    && |s.delivered| <= |plan.timeline|
    && s.labels == Labels(plan.timeline[..|s.delivered|])
    && (forall k | 0 <= k < |s.delivered| ::
          && Timely(plan.timeline[k], Labels(plan.timeline[..k]), s.delivered[k])
          && 0 <= s.delivered[k].slept <= s.slept && s.delivered[k].at <= s.clock)
    && (forall j, k | 0 <= j < k < |s.delivered| :: s.delivered[j].at <= s.delivered[k].at)
    && (|s.delivered| < |plan.timeline| ==> s.clock <= plan.timeline[|s.delivered|].at + s.slept)
    && 0 <= s.slept && plan.start <= s.clock
  }

  /** Time and deliveries only ever move forward. */
  ghost predicate Follows(s: Play, t: Play) {
    s.clock <= t.clock && s.delivered <= t.delivered && s.slept <= t.slept
  }

  /** The next event goes out with the clock moved up to its time. */
  function DeliverNext(plan: Plan, s: Play): Play
    requires |s.delivered| < |plan.timeline|
  {
    var event := plan.timeline[|s.delivered|];
    var clock := Max(s.clock, event.at);
    Play(clock, if HasLabel(event) then s.labels + {event.tag} else s.labels,
         s.delivered + [Stamp(clock, s.slept, RepliesToLabel(event) && event.kind.replyTo in s.labels)], s.slept)
  }

  lemma DeliverNextConsistent(plan: Plan, s: Play)
    requires Playable(plan) && Consistent(plan, s) && |s.delivered| < |plan.timeline|
    ensures Consistent(plan, DeliverNext(plan, s)) && Follows(s, DeliverNext(plan, s))
  {
    var n := |s.delivered|;
    assert plan.timeline[..n + 1] == plan.timeline[..n] + [plan.timeline[n]];
    LabelsAppend(plan.timeline[..n], plan.timeline[n]);
  }

  /** Sleeping inside a delivery holds up what is due. */
  lemma SleptInsideConsistent(plan: Plan, s: Play, ms: int)
    requires Consistent(plan, s) && ms >= 0
    ensures Consistent(plan, s.(clock := s.clock + ms, slept := s.slept + ms))
  {
  }

  /** Moving the clock up to a time by which nothing undelivered is due holds up nothing. */
  lemma ClockConsistent(plan: Plan, s: Play, ms: int)
    requires Consistent(plan, s) && (|s.delivered| < |plan.timeline| ==> ms <= plan.timeline[|s.delivered|].at)
    ensures Consistent(plan, s.(clock := Max(s.clock, ms)))
  {
  }

  /** No event and no checkpoint gave way: then time did, or a tick that was due no longer is. */
  lemma TimeOrTickGivesWay(end: int, before: int, reached: int, after: int, due: Option<int>, tick: int, newTick: int)
    requires before <= reached <= after
    requires AtMost(tick, due) <= Min(reached, end) && (due.Some? ==> due.value > before)
    requires newTick == tick || newTick > reached
    requires reached >= tick ==> newTick > reached
    ensures
      Max(0, end - after) < Max(0, end - before) ||
      (Max(0, end - after) == Max(0, end - before) && tick <= Min(before, end) && newTick > Min(after, end))
  {
  }

  /**
   * The calls from `first` to `last` ended with this failure: it is one of theirs; and none of them failed
   * unreported, but under an earlier one that swallows failures.
   */
  ghost predicate Explains(oracle: nat -> Reply, first: nat, last: nat, failure: Option<Failure>) {
    && (failure.Some? ==> exists k: nat :: first <= k < last && oracle(k).failure == failure)
    && (failure.None? ==> forall k: nat | first <= k < last && oracle(k).failure.Some? :: Swallowed(oracle, first, k))
  }

  ghost predicate Swallowed(oracle: nat -> Reply, first: nat, k: nat) {
    exists j: nat :: first <= j < k && oracle(j).swallows
  }

  lemma ExplainsNothing(oracle: nat -> Reply, first: nat)
    ensures Explains(oracle, first, first, None)
  {
  }

  lemma ExplainsOne(oracle: nat -> Reply, first: nat)
    ensures Explains(oracle, first, first + 1, oracle(first).failure)
  {
  }

  /** First nothing was wrong, then this. */
  lemma ExplainsMore(oracle: nat -> Reply, first: nat, middle: nat, last: nat, failure: Option<Failure>)
    requires first <= middle <= last && Explains(oracle, first, middle, None) && Explains(oracle, middle, last, failure)
    ensures Explains(oracle, first, last, failure)
  {
    if failure.None? {
      forall k: nat | first <= k < last && oracle(k).failure.Some? ensures Swallowed(oracle, first, k) {
        if k >= middle {
          var j: nat :| middle <= j < k && oracle(j).swallows;
        }
      }
    }
  }

  /** A call that swallows what fails under it answers for itself. */
  lemma ExplainsSwallowing(oracle: nat -> Reply, first: nat, last: nat)
    requires first < last && oracle(first).swallows
    ensures Explains(oracle, first, last, oracle(first).failure)
  {
  }

  class Driver {
    const plan: Plan
    const tickMs: int
    const serverHold: int
    /** Call number to what it does: any behaviour of the application. */
    const oracle: nat -> Reply
    /** Whether the budget is spent after so many calls. */
    const spent: nat -> bool

    var clock: int
    var next: nat
    var delivering: bool
    var pending: seq<int>
    var nextTick: int
    var status: Status
    var asked: nat
    var labels: set<string>
    ghost var delivered: seq<Stamp>
    ghost var slept: int
    /** Messages of a burst not yet flushed to her detector. */
    ghost var held: nat
    ghost var taken: seq<Checkpoint>
    /** Turns of her life so far. */
    ghost var turns: nat
    /** The clock at every tick of the scheduler. */
    ghost var ticks: seq<int>

    ghost function Now(): Play
      reads this
    {
      Play(clock, labels, delivered, slept)
    }

    ghost predicate Valid()
      reads this
    {
      Playable(plan) && tickMs > 0 && Consistent(plan, Now()) && next == |delivered|
    }

    constructor (plan: Plan, tickMs: int, serverHold: int, checkpoints: seq<int>, oracle: nat -> Reply,
                 spent: nat -> bool)
      requires Playable(plan) && tickMs > 0 && Sorted(checkpoints)
      ensures Valid() && this.plan == plan && this.tickMs == tickMs && this.oracle == oracle && this.spent == spent
      ensures Now() == Play(plan.start, {}, [], 0) && pending == checkpoints && taken == []
      ensures status == Done && !delivering && nextTick == plan.start && ticks == []
    {
      this.plan, this.tickMs, this.serverHold, this.oracle, this.spent := plan, tickMs, serverHold, oracle, spent;
      clock, next, delivering, pending, nextTick, status := plan.start, 0, false, checkpoints, plan.start, Done;
      asked, labels, delivered, slept, held, taken, turns, ticks := 0, {}, [], 0, 0, [], 0, [];
    }

    /** A failure is that of a call answered since the given one; without one none failed that was not swallowed. */
    ghost predicate Explained(first: nat, failure: Option<Failure>)
      reads this
    {
      Explains(oracle, first, asked, failure)
    }

    /** Since the given call the budget was spent. */
    ghost predicate SawBudgetSpent(first: nat)
      reads this
    {
      exists k: nat :: first <= k <= asked && spent(k)
    }

    method Set(ms: int)
      modifies this`clock
      ensures clock == Max(old(clock), ms)
    {
      if ms > clock {
        clock := ms;
      }
    }

    /** The sleep the application is given: what falls due meanwhile is delivered first, unless a delivery is running. */
    method Sleep(ms: int) returns (failure: Option<Failure>)
      requires Valid()
      modifies this`clock, this`next, this`delivering, this`asked, this`labels, this`delivered, this`slept, this`held
      ensures Valid() && Follows(old(Now()), Now()) && delivering == old(delivering)
      ensures delivering ==> failure.None? && next == old(next) && held == old(held)
      ensures failure.None? ==> clock >= old(clock) + Max(0, ms)
      ensures failure.None? && !delivering ==> !DueBy(old(clock) + Max(0, ms))
      ensures delivering ==> clock == old(clock) + Max(0, ms)
      ensures clock - slept <= old(clock) + Max(0, ms) - old(slept)
      ensures delivering ==> clock - slept == old(clock) - old(slept)
      ensures asked >= old(asked) && Explained(old(asked), failure)
      decreases !delivering, 1
    {
      var target := clock + Max(0, ms);
      if !delivering {
        failure := DeliverUntil(target);
        if failure.Some? {
          return;
        }
        ClockConsistent(plan, Now(), target);
      } else {
        SleptInsideConsistent(plan, Now(), Max(0, ms));
        slept := slept + Max(0, ms);
      }
      Set(target);
      return None;
    }

    /** One awaited call of the application. */
    method Call() returns (reply: Reply, failure: Option<Failure>)
      requires Valid()
      modifies this`clock, this`next, this`delivering, this`asked, this`labels, this`delivered, this`slept, this`held
      ensures Valid() && Follows(old(Now()), Now()) && delivering == old(delivering)
      ensures delivering ==> next == old(next) && held == old(held)
      ensures delivering ==> clock - slept == old(clock) - old(slept)
      ensures asked > old(asked) && Explained(old(asked), failure)
      ensures reply == oracle(old(asked)) && (reply.swallows || delivering ==> failure == reply.failure)
      ensures reply.failure.Some? ==> failure.Some?
      decreases !delivering, 2
    {
      reply := oracle(asked);
      asked := asked + 1;
      for i := 0 to |reply.waits|
        invariant Valid() && Follows(old(Now()), Now()) && delivering == old(delivering)
        invariant delivering ==> next == old(next) && held == old(held)
        invariant delivering ==> clock - slept == old(clock) - old(slept)
        invariant asked > old(asked) && reply == oracle(old(asked))
        invariant !reply.swallows ==> Explains(oracle, old(asked) + 1, asked, None)
      {
        ghost var before := asked;
        failure := Sleep(reply.waits[i]);
        if failure.Some? && !reply.swallows {
          ExplainsMore(oracle, old(asked) + 1, before, asked, failure);
          return;
        }
        if !reply.swallows {
          ExplainsMore(oracle, old(asked) + 1, before, asked, None);
        }
      }
      failure := reply.failure;
      if reply.swallows {
        ExplainsSwallowing(oracle, old(asked), asked);
      }
    }

    /** Hands over the next event. */
    method Deliver() returns (failure: Option<Failure>)
      requires Valid() && delivering && next < |plan.timeline|
      modifies this`clock, this`next, this`delivering, this`asked, this`labels, this`delivered, this`slept, this`held
      ensures Valid() && Follows(DeliverNext(plan, old(Now())), Now()) && delivering
      ensures next == old(next) + 1 && asked >= old(asked) && Explained(old(asked), failure)
      ensures clock - slept <= Max(old(clock), plan.timeline[old(next)].at) - old(slept)
      ensures plan.timeline[old(next)].kind.Quiet? <==> asked == old(asked)
      ensures held == if plan.timeline[old(next)].kind.Quiet? then old(held) else old(held) + 1
      decreases false, 3
    {
      DeliverNextConsistent(plan, Now());
      var event := plan.timeline[next];
      next := next + 1;
      Set(event.at);
      delivered := delivered + [Stamp(clock, slept, RepliesToLabel(event) && event.kind.replyTo in labels)];
      if HasLabel(event) {
        labels := labels + {event.tag};
      }
      if event.kind.Quiet? {
        return None;
      }
      held := held + 1;
      var _, f := Call();
      return f;
    }

    predicate SameBurst(previous: Timed, untilMs: int)
      reads this
    {
      && next < |plan.timeline| && !plan.timeline[next].kind.Quiet? && !previous.kind.Quiet?
      && plan.timeline[next].place == previous.place && plan.timeline[next].at - previous.at <= serverHold
      && plan.timeline[next].at <= untilMs
    }

    predicate DueBy(untilMs: int)
      reads this
    {
      next < |plan.timeline| && plan.timeline[next].at <= untilMs
    }

    /** Event `k + 1` belongs to the burst of event `k`, and is due: same place, soon enough after it. */
    predicate BurstGoesOn(k: nat, untilMs: int) {
      && k + 1 < |plan.timeline|
      && !plan.timeline[k].kind.Quiet? && !plan.timeline[k + 1].kind.Quiet?
      && plan.timeline[k + 1].place == plan.timeline[k].place
      && plan.timeline[k + 1].at - plan.timeline[k].at <= serverHold && plan.timeline[k + 1].at <= untilMs
    }

    /** The next event; the detector is flushed unless the burst goes on within what is due. */
    method DeliverInBurst(untilMs: int) returns (failure: Option<Failure>)
      requires Valid() && delivering && DueBy(untilMs)
      modifies this`clock, this`next, this`delivering, this`asked, this`labels, this`delivered, this`slept, this`held
      ensures Valid() && Follows(old(Now()), Now()) && delivering
      ensures next == old(next) + 1 && asked >= old(asked) && Explained(old(asked), failure)
      ensures clock - slept <= Max(old(clock), untilMs) - old(slept)
      ensures failure.None? && !DueBy(untilMs) ==> held == 0
      ensures failure.None? ==> held == if BurstGoesOn(old(next), untilMs) then old(held) + 1 else 0
      decreases false, 4
    {
      var event := plan.timeline[next];
      DeliverNextConsistent(plan, Now());
      failure := Deliver();
      if failure.None? && !SameBurst(event, untilMs) {
        held := 0;
        var _, f := Call();
        failure := f;
      }
    }

    /** Delivers every event due by `untilMs`, a burst at a time: after it no burst is left waiting to be flushed. */
    method DeliverUntil(untilMs: int) returns (failure: Option<Failure>)
      requires Valid()
      modifies this`clock, this`next, this`delivering, this`asked, this`labels, this`delivered, this`slept, this`held
      ensures Valid() && Follows(old(Now()), Now()) && delivering == old(delivering)
      ensures delivering ==> next == old(next) && held == old(held) && failure.None?
      ensures !delivering && failure.None? ==> !DueBy(untilMs) && (next > old(next) ==> held == 0)
      ensures !delivering && old(DueBy(untilMs)) ==> next > old(next)
      ensures asked >= old(asked) && Explained(old(asked), failure)
      ensures clock - slept <= Max(old(clock), untilMs) - old(slept)
      ensures delivering ==> clock == old(clock) && slept == old(slept)
      decreases !delivering, 0
    {
      failure := None;
      if delivering {
        return;
      }
      delivering := true;
      while failure.None? && DueBy(untilMs)
        invariant Valid() && Follows(old(Now()), Now()) && delivering && asked >= old(asked)
        invariant next > old(next) && failure.None? && !DueBy(untilMs) ==> held == 0
        invariant clock - slept <= Max(old(clock), untilMs) - old(slept) && Explained(old(asked), failure)
        invariant next == old(next) ==> failure.None? && (old(DueBy(untilMs)) <==> DueBy(untilMs))
        decreases |plan.timeline| - next
      {
        failure := DeliverInBurst(untilMs);
      }
      delivering := false;
    }

    /** One turn of her life, and whether nothing is queued after it. */
    method Turn() returns (failure: Option<Failure>, idle: bool)
      requires Valid()
      modifies this`clock, this`next, this`delivering, this`asked, this`labels, this`delivered, this`slept, this`held, this`turns
      ensures Valid() && Follows(old(Now()), Now()) && delivering == old(delivering)
      ensures turns == old(turns) + 1 && asked > old(asked) && Explained(old(asked), failure)
      ensures failure.None? ==> idle == oracle(asked - 1).idle && asked >= old(asked) + 3
    {
      turns := turns + 1;
      idle := false;
      failure := RunAndSettle();
      if failure.Some? {
        return;
      }
      ghost var before := asked;
      var queue := oracle(asked);
      asked := asked + 1;
      ExplainsOne(oracle, before);
      ExplainsMore(oracle, old(asked), before, asked, queue.failure);
      return queue.failure, queue.idle;
    }

    method RunAndSettle() returns (failure: Option<Failure>)
      requires Valid()
      modifies this`clock, this`next, this`delivering, this`asked, this`labels, this`delivered, this`slept, this`held
      ensures Valid() && Follows(old(Now()), Now()) && delivering == old(delivering)
      ensures asked > old(asked) && Explained(old(asked), failure) && (failure.None? ==> asked >= old(asked) + 2)
    {
      var _, ran := Call();
      if ran.Some? {
        return ran;
      }
      ghost var before := asked;
      var _, settled := Call();
      ExplainsMore(oracle, old(asked), before, asked, settled);
      return settled;
    }

    /** Her life's turns until nothing is queued: at most forty, and none once the budget is spent. */
    method LifeUntilIdle() returns (failure: Option<Failure>)
      requires Valid() && status == Done
      modifies this`clock, this`next, this`delivering, this`asked, this`labels, this`delivered, this`slept, this`held,
        this`status, this`turns
      ensures Valid() && Follows(old(Now()), Now()) && delivering == old(delivering)
      ensures status in {Done, MaxUsd} && turns <= old(turns) + 40
      ensures status == MaxUsd ==> failure.None? && spent(asked) && (turns > old(turns) || asked == old(asked))
      ensures spent(old(asked)) ==> status == MaxUsd && turns == old(turns)
      ensures failure.None? && status == Done ==>
        turns > old(turns) && asked > old(asked) && (turns == old(turns) + 40 || oracle(asked - 1).idle)
      ensures turns >= old(turns) && asked >= old(asked) && Explained(old(asked), failure)
    {
      for guard := 0 to 40
        invariant turns == old(turns) + guard && asked >= old(asked) && (guard > 0 ==> asked > old(asked))
        invariant Valid() && Follows(old(Now()), Now()) && delivering == old(delivering) && status == Done
        invariant Explained(old(asked), None) && (if guard == 0 then asked == old(asked) else !spent(old(asked)))
      {
        if spent(asked) {
          status := MaxUsd;
          return None;
        }
        ghost var before := asked;
        var failed, idle := Turn();
        ExplainsMore(oracle, old(asked), before, asked, failed);
        if failed.Some? || idle {
          return failed;
        }
      }
      return None;
    }

    /** Takes every checkpoint the clock has reached. */
    method RunCheckpoints() returns (failure: Option<Failure>)
      requires Sorted(pending)
      modifies this`pending, this`taken, this`asked
      ensures old(taken) <= taken && forall i | |old(taken)| <= i < |taken| :: taken[i].due <= taken[i].at == clock
      ensures |pending| <= |old(pending)|
      ensures old(pending) != [] && old(pending)[0] <= clock ==> |pending| < |old(pending)|
      ensures failure.None? ==> Dues(taken) + pending == old(Dues(taken) + pending)
      ensures Sorted(pending) && (failure.None? ==> forall t | t in pending :: t > clock)
      ensures asked >= old(asked) && Explained(old(asked), failure)
    {
      while pending != [] && pending[0] <= clock
        invariant Dues(taken) + pending == old(Dues(taken) + pending) && |pending| <= |old(pending)| && Sorted(pending)
        invariant old(taken) <= taken && forall i | |old(taken)| <= i < |taken| :: taken[i].due <= taken[i].at == clock
        invariant pending != old(pending) ==> |pending| < |old(pending)|
        invariant asked >= old(asked) && Explained(old(asked), None)
        decreases |pending|
      {
        var due := pending[0];
        pending := pending[1..];
        var reply := oracle(asked);
        asked := asked + 1;
        ExplainsOne(oracle, asked - 1);
        ExplainsMore(oracle, old(asked), asked - 1, asked, reply.failure);
        if reply.failure.Some? {
          return reply.failure;
        }
        taken := taken + [Checkpoint(due, clock)];
      }
      AllLater(pending, clock);
      return None;
    }

    function NextEvent(): Option<int>
      reads this
    {
      if next < |plan.timeline| then Some(plan.timeline[next].at) else None
    }

    function NextCheckpoint(): Option<int>
      reads this
    {
      if pending == [] then None else Some(pending[0])
    }

    function Target(nextDue: Option<int>): int
      reads this
    {
      AtMost(AtMost(AtMost(nextTick, NextEvent()), nextDue), NextCheckpoint())
    }

    function TimeLeft(): nat
      reads this
    {
      Max(0, plan.end - clock)
    }

    predicate TickDue()
      reads this
    {
      nextTick <= Min(clock, plan.end)
    }

    /** Moves the clock to the target and delivers what is due by then. */
    method Advance(nextDue: Option<int>) returns (failure: Option<Failure>)
      requires Valid() && !delivering
      modifies this`clock, this`next, this`delivering, this`asked, this`labels, this`delivered, this`slept, this`held
      ensures Valid() && Follows(old(Now()), Now()) && !delivering
      ensures clock >= Max(old(clock), old(Target(nextDue)))
      ensures next == old(next) ==> NextEvent().None? || NextEvent().value > old(Target(nextDue))
      ensures asked >= old(asked) && Explained(old(asked), failure)
    {
      var target := Target(nextDue);
      ClockConsistent(plan, Now(), target);
      Set(target);
      failure := DeliverUntil(clock);
    }

    predicate TimeToTick(time: int, nextDue: Option<int>)
      reads this
    {
      time >= nextTick || (nextDue.Some? && time >= nextDue.value)
    }

    /** The scheduler's tick, when its time or a wakeup's has come; the next one is strictly after the clock. */
    method Tick(nextDue: Option<int>) returns (failure: Option<Failure>)
      requires Valid()
      modifies this`clock, this`next, this`delivering, this`asked, this`labels, this`delivered, this`slept, this`held,
        this`nextTick, this`ticks
      ensures Valid() && Follows(old(Now()), Now()) && delivering == old(delivering)
      ensures failure.None? && old(clock) >= old(nextTick) ==> nextTick > clock
      ensures nextTick == old(nextTick) || nextTick > clock
      ensures old(TimeToTick(clock, nextDue)) ==> ticks == old(ticks) + [old(clock)] && asked > old(asked)
      ensures old(TimeToTick(clock, nextDue)) && failure.None? ==> nextTick == Align(clock + 1, tickMs)
      ensures !old(TimeToTick(clock, nextDue)) ==> ticks == old(ticks) && nextTick == old(nextTick) && failure.None?
      ensures asked >= old(asked) && Explained(old(asked), failure)
    {
      if TimeToTick(clock, nextDue) {
        ticks := ticks + [clock];
        var _, ticked := Call();
        if ticked.Some? {
          return ticked;
        }
        nextTick := Align(clock + 1, tickMs);
      }
      return None;
    }

    /** The first half of a round: the clock, what falls due by it, the tick. */
    method AdvanceAndTick(nextDue: Option<int>) returns (failure: Option<Failure>)
      requires Valid() && !delivering && Target(nextDue) <= plan.end && (nextDue.Some? ==> nextDue.value > clock)
      modifies this`clock, this`next, this`delivering, this`asked, this`labels, this`delivered, this`slept, this`held,
        this`nextTick, this`ticks
      ensures Valid() && Follows(old(Now()), Now()) && !delivering && next >= old(next)
      ensures failure.None? ==> next > old(next) || TimeOrTickGave(old(TimeLeft()), old(TickDue())) || CheckpointDue()
      ensures failure.None? && old(TimeToTick(Max(clock, Target(nextDue)), nextDue)) ==> |ticks| == |old(ticks)| + 1
      ensures asked >= old(asked) && Explained(old(asked), failure)
    {
      ghost var before, tick := clock, nextTick;
      failure := Advance(nextDue);
      if failure.Some? {
        return;
      }
      ghost var reached := clock;
      failure := Tick(nextDue);
      if next == old(next) && failure.None? && !CheckpointDue() {
        TimeOrTickGivesWay(plan.end, before, reached, clock, nextDue, tick, nextTick);
      }
    }

    predicate CheckpointDue()
      reads this
    {
      pending != [] && pending[0] <= clock
    }

    predicate TimeOrTickGave(timeLeft: nat, tickDue: bool)
      reads this
    {
      TimeLeft() < timeLeft || (TimeLeft() == timeLeft && tickDue && !TickDue())
    }

    /** The second half of a round: the checkpoints reached, then her life. */
    method CheckAndLive() returns (failure: Option<Failure>)
      requires Valid() && status == Done && Sorted(pending)
      modifies this`clock, this`next, this`delivering, this`asked, this`labels, this`delivered, this`slept, this`held,
        this`status, this`turns, this`pending, this`taken
      ensures Sorted(pending)
      ensures Valid() && Follows(old(Now()), Now()) && delivering == old(delivering) && status in {Done, MaxUsd}
      ensures next >= old(next) && |pending| <= |old(pending)| && (old(CheckpointDue()) ==> |pending| < |old(pending)|)
      ensures old(taken) <= taken && forall i | |old(taken)| <= i < |taken| :: taken[i].due <= taken[i].at == old(clock)
      ensures failure.None? ==> Dues(taken) + pending == old(Dues(taken) + pending)
      ensures turns >= old(turns) && (failure.None? && status == Done ==> turns > old(turns))
      ensures status == MaxUsd ==> failure.None? && SawBudgetSpent(old(asked))
      ensures asked >= old(asked) && Explained(old(asked), failure)
    {
      failure := RunCheckpoints();
      if failure.Some? {
        return;
      }
      failure := LifeUntilIdle();
    }

    /** Every checkpoint was taken at its time or later. */
    ghost predicate TakenInTime()
      reads this
    {
      forall i | 0 <= i < |taken| :: taken[i].due <= taken[i].at
    }

    /** One time round the loop: an event, a checkpoint, some time or the tick that was due gives way. */
    method PlayRound(nextDue: Option<int>) returns (failure: Option<Failure>)
      requires Valid() && !delivering && status == Done && TakenInTime() && Sorted(pending)
      requires Target(nextDue) <= plan.end && (nextDue.Some? ==> nextDue.value > clock)
      modifies this
      ensures Valid() && Follows(old(Now()), Now()) && !delivering && status in {Done, MaxUsd} && TakenInTime()
      ensures next >= old(next) && |pending| <= |old(pending)| && Sorted(pending)
      ensures failure.None? ==> Dues(taken) + pending == old(Dues(taken) + pending)
      ensures failure.None? ==> next > old(next) || |pending| < |old(pending)| || TimeOrTickGave(old(TimeLeft()), old(TickDue()))
      ensures failure.None? && old(TimeToTick(Max(clock, Target(nextDue)), nextDue)) ==> |ticks| == |old(ticks)| + 1
      ensures turns >= old(turns) && (failure.None? && status == Done ==> turns > old(turns))
      ensures status == MaxUsd ==> failure.None? && SawBudgetSpent(old(asked))
      ensures asked >= old(asked) && Explained(old(asked), failure)
    {
      failure := AdvanceAndTick(nextDue);
      if failure.None? {
        failure := CheckAndLive();
      }
    }

    /** When her next wakeup is due. */
    method AskWakeups() returns (failure: Option<Failure>, nextDue: Option<int>)
      modifies this`asked
      ensures asked == old(asked) + 1 && failure == oracle(old(asked)).failure && Explained(old(asked), failure)
      ensures nextDue == NextAfter(oracle(old(asked)).wakeups, clock)
    {
      var reply := oracle(asked);
      asked := asked + 1;
      ExplainsOne(oracle, asked - 1);
      return reply.failure, NextAfter(reply.wakeups, clock);
    }

    /** The loop ends because nothing is left before the end: all events are out and the checkpoints are all later. */
    method PlayTimeline() returns (failure: Option<Failure>)
      requires Valid() && !delivering && status == Done && taken == [] && Sorted(pending)
      modifies this
      ensures Valid() && Follows(old(Now()), Now()) && !delivering && status in {Done, MaxUsd} && TakenInTime() && Sorted(pending)
      ensures failure.None? && status == Done ==> next == |plan.timeline| && Dues(taken) + pending == old(pending)
      ensures failure.None? && status == Done ==> nextTick > plan.end && (pending == [] || pending[0] > plan.end)
      ensures turns >= old(turns)
      ensures status == MaxUsd ==> failure.None? && SawBudgetSpent(old(asked))
      ensures asked >= old(asked) && Explained(old(asked), failure)
    {
      while status == Done
        invariant Valid() && Follows(old(Now()), Now()) && !delivering && status in {Done, MaxUsd} && TakenInTime()
        invariant Dues(taken) + pending == old(pending) && Sorted(pending)
        invariant Explained(old(asked), None)
        invariant turns >= old(turns) && asked >= old(asked) && (status == MaxUsd ==> SawBudgetSpent(old(asked)))
        decreases |plan.timeline| - next, |pending|, TimeLeft(), TickDue()
      {
        var failed, nextDue := AskWakeups();
        ExplainsMore(oracle, old(asked), asked - 1, asked, failed);
        if failed.Some? {
          return failed;
        }
        if Target(nextDue) > plan.end {
          return None;
        }
        ghost var before := asked;
        failure := PlayRound(nextDue);
        ExplainsMore(oracle, old(asked), before, asked, failure);
        if failure.Some? {
          return;
        }
      }
      return None;
    }

    method LastTick() returns (failure: Option<Failure>)
      requires Valid() && !delivering && next == |plan.timeline|
      modifies this`clock, this`next, this`delivering, this`asked, this`labels, this`delivered, this`slept, this`held, this`ticks
      ensures Valid() && Follows(old(Now()), Now()) && clock >= plan.end
      ensures failure.None? ==> ticks != [] && ticks[|ticks| - 1] >= plan.end
      ensures asked >= old(asked) && Explained(old(asked), failure)
    {
      ClockConsistent(plan, Now(), plan.end);
      Set(plan.end);
      failure := DeliverUntil(plan.end);
      if failure.None? {
        ticks := ticks + [clock];
        var _, ticked := Call();
        failure := ticked;
      }
    }

    /** The end of a run: the clock at the end, a last tick, her life, the checkpoints still due. */
    method Finish() returns (failure: Option<Failure>)
      requires Valid() && !delivering && status == Done && next == |plan.timeline| && TakenInTime() && Sorted(pending)
      modifies this
      ensures Valid() && Follows(old(Now()), Now()) && status in {Done, MaxUsd} && TakenInTime()
      ensures next == |plan.timeline|
      ensures failure.None? ==>
        && clock >= plan.end && Dues(taken) + pending == old(Dues(taken) + pending)
        && ticks != [] && ticks[|ticks| - 1] >= plan.end
        && forall t | t in pending :: t > plan.end
      ensures failure.None? && status == Done ==> turns > old(turns)
      ensures status == MaxUsd ==> SawBudgetSpent(old(asked))
      ensures asked >= old(asked) && Explained(old(asked), failure)
    {
      failure := LastTick();
      if failure.Some? {
        return;
      }
      failure := LifeUntilIdle();
      if failure.Some? {
        return;
      }
      failure := RunCheckpoints();
    }

    /** The loop, and what comes after it when it ended in good order. */
    method PlayOut() returns (failure: Option<Failure>)
      requires Valid() && !delivering && status == Done && taken == [] && Sorted(pending)
      modifies this
      ensures Valid() && Follows(old(Now()), Now()) && TakenInTime() && status in {Done, MaxUsd}
      ensures failure.None? && status == Done ==> PlayedOut(old(turns), old(pending))
      ensures status == MaxUsd ==> SawBudgetSpent(old(asked))
      ensures asked >= old(asked) && Explained(old(asked), failure)
    {
      failure := PlayTimeline();
      if failure.None? && status == Done {
        ghost var before := asked;
        failure := Finish();
        ExplainsMore(oracle, old(asked), before, asked, failure);
      }
    }

    /** All events are out, the end is reached, ticked and lived, and every checkpoint up to it is taken. */
    ghost predicate PlayedOut(turnsBefore: nat, checkpoints: seq<int>)
      reads this
    {
      && |delivered| == |plan.timeline| && clock >= plan.end
      && ticks != [] && ticks[|ticks| - 1] >= plan.end && turns > turnsBefore
      && Dues(taken) + pending == checkpoints && forall t | t in pending :: t > plan.end
    }

    /**
     * A whole run ends, whatever the application does; a run that ends done has delivered every event, in
     * order, once and never early, and has taken every checkpoint of the run at its time or later. It ends in
     * error exactly by a failure other than the budget's, and over budget only by that failure or a spent budget.
     */
    method Run() returns (failure: Option<Failure>)
      requires Valid() && !delivering && status == Done && taken == [] && Sorted(pending)
      modifies this
      ensures Valid() && Follows(old(Now()), Now()) && TakenInTime()
      ensures status == Done ==> failure.None? && PlayedOut(old(turns), old(pending))
      ensures status == Error <==> failure == Some(OtherFailure)
      ensures failure == Some(BudgetExceeded) ==> status == MaxUsd
      ensures status == MaxUsd ==> failure == Some(BudgetExceeded) || (failure.None? && SawBudgetSpent(old(asked)))
      ensures Explained(old(asked), failure)
    {
      failure := PlayOut();
      if failure.None? {
        failure := TakeLastCheckpoint(old(asked), old(turns), old(pending));
      }
      if failure.Some? {
        status := if failure.value == BudgetExceeded then MaxUsd else Error;
      }
    }

    /** The checkpoint at the very end. */
    method TakeLastCheckpoint(ghost first: nat, ghost turnsBefore: nat, ghost checkpoints: seq<int>)
      returns (failure: Option<Failure>)
      requires Valid() && TakenInTime() && first <= asked && Explained(first, None)
      requires status == Done ==> PlayedOut(turnsBefore, checkpoints)
      requires status == MaxUsd ==> SawBudgetSpent(first)
      modifies this`asked
      ensures Valid() && TakenInTime() && Now() == old(Now())
      ensures status == Done ==> PlayedOut(turnsBefore, checkpoints)
      ensures status == MaxUsd ==> SawBudgetSpent(first)
      ensures Explained(first, failure)
    {
      var last := oracle(asked);
      asked := asked + 1;
      ExplainsOne(oracle, asked - 1);
      ExplainsMore(oracle, first, asked - 1, asked, last.failure);
      return last.failure;
    }
  }

  /** A run of an accepted scenario finds every reply to a label, unless the message replies to itself. */
  lemma AcceptedRepliesAreFound(world: Cast, plan: Plan, s: Play, k: nat)
    requires Accepted(world, plan.start, plan.end, plan.timeline) && Consistent(plan, s)
    requires k < |s.delivered| && RepliesToLabel(plan.timeline[k])
    ensures s.delivered[k].replyFound <==> plan.timeline[k].kind.replyTo != plan.timeline[k].tag
  {
    RepliesLookBack(world, plan.start, plan.end, plan.timeline, k);
  }
}
