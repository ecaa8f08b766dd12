/** One mutating request: its handler, its abort and its send, with every store call free to fail. */
module Mutations {
  import opened Results

  datatype Status = Prepared | Completed | Reconciled | OutcomeUnknown

  /** The receipt found under the request's idempotency key. */
  datatype Receipt = Absent | Receipt(status: Status, hasResponse: bool, sameBody: bool, recoverable: bool)

  datatype AuditOutcome = AcceptedOutcome | FinalOutcome(code: int) | UnknownOutcome

  /** What a store call does: its work, nothing, or its work with an error all the same. */
  datatype Fate = Works | FailsClean | FailsDirty

  /** Durable effects and visible answers, in the order they happen. */
  datatype Entry =
    | Wrote(status: Status)
    | Withdrew
    | Audited(outcome: AuditOutcome)
    | Started
    | Finalised(byAbort: bool)
    | Released(code: int)

  datatype Main =
    | Reserving | Accepting | Abandoning | Checking | Ready | Handling
    | Recording(code: int) | Completing(code: int) | Releasing(code: int) | Doubting | NotingDoubt
    | Ended

  datatype Abort = Quiet | Marking | Noting | Over

  datatype State = State(
    main: Main, abort: Abort, context: bool, aborted: bool, finalized: bool, created: bool, receipt: Receipt)

  /** What one step leads to and what it leaves in the log. */
  datatype Step = Step(state: State, entry: Option<Entry>)

  function Begin(receipt: Receipt): State {
    State(Reserving, Quiet, false, false, false, false, receipt)
  }

  /** A call resolves for the main path, the handler answers, the client or its signal aborts, the abort path's call resolves. */
  datatype Action = Resolve(fate: Fate) | Answer(code: int) | AbortRequest | ResolveAbort(fate: Fate)

  predicate IsPrepared(receipt: Receipt) {
    receipt.Receipt? && receipt.status == Prepared
  }

  /** Only a prepared receipt is ever rewritten; any other is left as it is, without an error. */
  predicate Rewrites(receipt: Receipt, fate: Fate) {
    IsPrepared(receipt) && fate != FailsClean
  }

  function WriteStatus(s: State, status: Status, fate: Fate): Step {
    if Rewrites(s.receipt, fate) then Step(s.(receipt := s.receipt.(status := status)), Some(Wrote(status))) else Step(s, None)
  }

  function Audit(outcome: AuditOutcome, fate: Fate): Option<Entry> {
    if fate == FailsClean then None else Some(Audited(outcome))
  }

  function Reserve(s: State, fate: Fate): Step {
    match s.receipt
    case Absent =>
      if fate == FailsClean then Step(s.(main := Ended), None)
      else
        var written := s.(receipt := Receipt(Prepared, false, true, false), main := Ended);
        Step(if fate == Works then written.(main := Accepting, created := true) else written, Some(Wrote(Prepared)))
    case Receipt(status, hasResponse, sameBody, recoverable) =>
      if fate == Works && sameBody && !hasResponse && recoverable && status == Completed
      then Step(s.(main := Accepting), None)
      else Step(s.(main := Ended), None)
  }

  function Accept(s: State, fate: Fate): Step {
    Step(if fate == Works then s.(context := true, main := Checking) else s.(main := Abandoning), Audit(AcceptedOutcome, fate))
  }

  /** An abort seen before the handler ends the request there; the abort path takes over. */
  function Check(s: State): Step {
    if !s.aborted then Step(s.(main := Ready), None)
    else if s.finalized then Step(s.(main := Ended), None)
    else Step(s.(finalized := true, abort := Marking, main := Ended), Some(Finalised(true)))
  }

  /** Takes a prepared receipt of this process back; a failure to do so is swallowed. */
  function Abandon(s: State, fate: Fate): Step {
    if s.created && Rewrites(s.receipt, fate) then Step(s.(receipt := Absent, main := Ended), Some(Withdrew))
    else Step(s.(main := Ended), None)
  }

  /** The send hook: whoever comes first finalises. */
  function Send(s: State, code: int): Step {
    if s.finalized then Step(s.(main := Ended), Some(Released(code)))
    else Step(s.(finalized := true, main := Recording(code)), Some(Finalised(false)))
  }

  function Complete(s: State, code: int, reconciled: bool, fate: Fate): Step {
    if s.receipt.Absent? then Step(s.(main := Doubting), None)
    else
      var written := WriteStatus(s, if reconciled then Reconciled else Completed, fate);
      written.(state := written.state.(main := if fate == Works then Releasing(code) else Doubting))
  }

  function Doubt(s: State, fate: Fate): Step {
    var written := WriteStatus(s, OutcomeUnknown, fate);
    written.(state := written.state.(main := NotingDoubt))
  }

  function ResolveMain(s: State, reconciled: bool, fate: Fate): Step {
    match s.main
    case Reserving => Reserve(s, fate)
    case Accepting => Accept(s, fate)
    case Abandoning => Abandon(s, fate)
    case Checking => Check(s)
    case Ready => Step(s.(main := Handling), Some(Started))
    case Recording(code) =>
      Step(s.(main := if fate == Works then Completing(code) else Doubting), Audit(FinalOutcome(code), fate))
    case Completing(code) => Complete(s, code, reconciled, fate)
    case Releasing(code) => Step(s.(main := Ended), Some(Released(code)))
    case Doubting => Doubt(s, fate)
    case NotingDoubt => Step(s.(main := Ended), Audit(UnknownOutcome, fate))
    case _ => Step(s, None)
  }

  /** The abort path goes on only once, and only if nobody finalised before. */
  function RequestAbort(s: State): Step {
    if s.context && !s.finalized
    then Step(s.(aborted := true, finalized := true, abort := Marking), Some(Finalised(true)))
    else Step(s.(aborted := true), None)
  }

  function ResolveAbortPath(s: State, fate: Fate): Step {
    match s.abort
    case Marking =>
      if s.receipt.Absent? then Step(s.(abort := Over), None)
      else
        var written := WriteStatus(s, OutcomeUnknown, fate);
        written.(state := written.state.(abort := if fate == Works then Noting else Over))
    case Noting => Step(s.(abort := Over), Audit(UnknownOutcome, fate))
    case _ => Step(s, None)
  }

  function Next(s: State, reconciled: bool, action: Action): Step {
    match action
    case Resolve(fate) => ResolveMain(s, reconciled, fate)
    case Answer(code) => if s.main == Handling then Send(s, code) else Step(s, None)
    case AbortRequest => RequestAbort(s)
    case ResolveAbort(fate) => ResolveAbortPath(s, fate)
  }

  // ---- what every reachable state keeps -------------------------------------------------------------

  /** The main path has not let the handler start. */
  predicate BeforeHandler(main: Main) {
    main in {Reserving, Accepting, Abandoning, Checking, Ready}
  }

  /** The send hook finalised, and is at work. */
  predicate Sending(main: Main) {
    main.Recording? || main.Completing? || main.Releasing? || main == Doubting || main == NotingDoubt
  }

  /** The receipt may still be rewritten. */
  predicate Open(receipt: Receipt) {
    receipt.Absent? || receipt.status == Prepared
  }

  /** A request goes on past its reservation with the receipt it created, or with a completed one it may recover. */
  predicate Inv(first: Receipt, s: State) {
    && (s.main == Reserving ==> s.receipt == first && !s.created)
    && (s.created ==> first.Absent?)
    && (s.context || s.main in {Accepting, Abandoning} ==>
          if s.created then s.receipt.Receipt? else s.receipt == first && first.Receipt? && first.status == Completed)
    && (s.main in {Reserving, Accepting, Abandoning} ==> !s.context)
    && (s.main in {Checking, Ready, Handling} || Sending(s.main) ==> s.context)
    && (s.finalized ==> s.context)
    && (Sending(s.main) ==> s.finalized && s.abort == Quiet)
    && (s.abort != Quiet ==> s.finalized)
    && (s.finalized && s.main in {Checking, Ready, Handling} ==> s.abort != Quiet)
    && (s.created && s.abort == Quiet && (BeforeHandler(s.main) || s.main == Handling || s.main.Recording? || s.main.Completing?)
        ==> IsPrepared(s.receipt))
    && (s.created && s.main.Releasing? ==> s.receipt.status in {Completed, Reconciled})
  }

  lemma MainKeepsInv(first: Receipt, s: State, reconciled: bool, fate: Fate)
    requires Inv(first, s)
    ensures Inv(first, ResolveMain(s, reconciled, fate).state)
  {
    match s.main
    case Reserving => ReserveKeepsInv(first, s, fate);
    case Completing(code) => CompleteKeepsInv(first, s, code, reconciled, fate);
    case Doubting => DoubtKeepsInv(first, s, fate);
    case _ =>
  }

  lemma ReserveKeepsInv(first: Receipt, s: State, fate: Fate)
    requires Inv(first, s) && s.main == Reserving
    ensures Inv(first, Reserve(s, fate).state)
  {
  }

  lemma CompleteKeepsInv(first: Receipt, s: State, code: int, reconciled: bool, fate: Fate)
    requires Inv(first, s) && s.main == Completing(code)
    ensures Inv(first, Complete(s, code, reconciled, fate).state)
  {
  }

  lemma DoubtKeepsInv(first: Receipt, s: State, fate: Fate)
    requires Inv(first, s) && s.main == Doubting
    ensures Inv(first, Doubt(s, fate).state)
  {
  }

  lemma StepKeepsInv(first: Receipt, s: State, reconciled: bool, action: Action)
    requires Inv(first, s)
    ensures Inv(first, Next(s, reconciled, action).state)
  {
    if action.Resolve? {
      MainKeepsInv(first, s, reconciled, action.fate);
    }
  }

  // ---- kinds of log entries, and their order ---------------------------------------------------------

  predicate IsAccepted(e: Entry) { e == Audited(AcceptedOutcome) }

  predicate IsPreparedWrite(e: Entry) { e == Wrote(Prepared) }

  predicate IsCompletion(e: Entry) { e == Wrote(Completed) || e == Wrote(Reconciled) }

  predicate IsTerminalWrite(e: Entry) { e.Wrote? && e.status != Prepared }

  predicate IsStarted(e: Entry) { e.Started? }

  predicate IsFinalised(e: Entry) { e.Finalised? }

  predicate IsFinalAudit(e: Entry) { e.Audited? && e.outcome.FinalOutcome? }

  predicate IsReleased(e: Entry) { e.Released? }

  predicate IsCompletionOrAbort(e: Entry) { IsCompletion(e) || e == Finalised(true) }

  ghost predicate Has(log: seq<Entry>, kind: Entry -> bool) {
    exists i :: 0 <= i < |log| && kind(log[i])
  }

  /** Every entry of the later kind has one of the earlier kind before it. */
  ghost predicate Precedes(log: seq<Entry>, earlier: Entry -> bool, later: Entry -> bool) {
    forall i | 0 <= i < |log| && later(log[i]) :: Has(log[..i], earlier)
  }

  predicate AtMostOne(log: seq<Entry>, kind: Entry -> bool) {
    forall i, j | 0 <= i < j < |log| :: !(kind(log[i]) && kind(log[j]))
  }

  function Log(log: seq<Entry>, entry: Option<Entry>): seq<Entry> {
    if entry.None? then log else log + [entry.value]
  }

  predicate Leaves(step: Step, kind: Entry -> bool) {
    step.entry.Some? && kind(step.entry.value)
  }

  lemma HasLog(log: seq<Entry>, step: Step, kind: Entry -> bool)
    ensures Has(Log(log, step.entry), kind) <==> Has(log, kind) || Leaves(step, kind)
  {
    var longer := Log(log, step.entry);
    if Has(log, kind) {
      var i :| 0 <= i < |log| && kind(log[i]);
      assert kind(longer[i]);
    }
    if Leaves(step, kind) {
      assert kind(longer[|log|]);
    }
  }

  lemma AtMostOneLog(log: seq<Entry>, step: Step, kind: Entry -> bool)
    requires AtMostOne(log, kind) && (Leaves(step, kind) ==> !Has(log, kind))
    ensures AtMostOne(Log(log, step.entry), kind)
  {
  }

  lemma PrecedesLog(log: seq<Entry>, step: Step, earlier: Entry -> bool, later: Entry -> bool)
    requires Precedes(log, earlier, later) && (Leaves(step, later) ==> Has(log, earlier))
    ensures Precedes(Log(log, step.entry), earlier, later)
  {
    var longer := Log(log, step.entry);
    forall i | 0 <= i < |longer| && later(longer[i]) ensures Has(longer[..i], earlier) {
      if i < |log| {
        assert longer[..i] == log[..i];
      } else {
        assert longer[..i] == log;
      }
    }
  }

  // ---- what one step can leave in the log ------------------------------------------------------------

  /** What a step of the main path may do, by the entry it leaves. */
  predicate Explained(s: State, step: Step) {
    && (Leaves(step, IsStarted) ==> s.main == Ready && step.state.main == Handling)
    && (BeforeHandler(step.state.main) ==> BeforeHandler(s.main))
    && (Leaves(step, IsTerminalWrite) ==> Open(s.receipt) && !Open(step.state.receipt))
    && (Open(step.state.receipt) ==> Open(s.receipt))
    && (step.state.abort == s.abort || step.entry == Some(Finalised(true)))
    && (step.state.main.Completing? ==> s.main.Completing? || Leaves(step, IsFinalAudit))
    && (Leaves(step, IsCompletion) ==> s.main.Completing?)
    && (Leaves(step, IsReleased) ==> s.main.Releasing?)
  }

  lemma ReserveIsExplained(s: State, fate: Fate)
    requires s.main == Reserving
    ensures Explained(s, Reserve(s, fate))
  {
  }

  lemma WriteIsExplained(s: State, status: Status, fate: Fate)
    requires status != Prepared
    ensures var step := WriteStatus(s, status, fate);
      && (step.entry.None? ==> step.state == s)
      && (step.entry.Some? ==>
        step.entry == Some(Wrote(status)) && Open(s.receipt) && step.state == s.(receipt := step.state.receipt)
        && !Open(step.state.receipt))
  {
  }

  lemma CompleteIsExplained(s: State, code: int, reconciled: bool, fate: Fate)
    requires s.main == Completing(code)
    ensures Explained(s, Complete(s, code, reconciled, fate))
  {
    WriteIsExplained(s, if reconciled then Reconciled else Completed, fate);
  }

  lemma DoubtIsExplained(s: State, fate: Fate)
    requires s.main == Doubting
    ensures Explained(s, Doubt(s, fate))
  {
    WriteIsExplained(s, OutcomeUnknown, fate);
  }

  lemma EarlyIsExplained(s: State, fate: Fate)
    requires s.main in {Accepting, Abandoning, Checking}
    ensures Explained(
      s, if s.main == Accepting then Accept(s, fate) else if s.main == Abandoning then Abandon(s, fate) else Check(s))
  {
  }

  lemma MainIsExplained(s: State, reconciled: bool, fate: Fate)
    ensures Explained(s, ResolveMain(s, reconciled, fate))
  {
    match s.main
    case Reserving => ReserveIsExplained(s, fate);
    case Completing(code) => CompleteIsExplained(s, code, reconciled, fate);
    case Doubting => DoubtIsExplained(s, fate);
    case Accepting => EarlyIsExplained(s, fate);
    case Abandoning => EarlyIsExplained(s, fate);
    case Checking => EarlyIsExplained(s, fate);
    case _ =>
  }

  lemma StartsFromReady(s: State, reconciled: bool, action: Action)
    ensures var step := Next(s, reconciled, action);
      && (Leaves(step, IsStarted) ==> s.main == Ready && step.state.main == Handling)
      && (BeforeHandler(step.state.main) ==> BeforeHandler(s.main))
  {
    if action.Resolve? {
      MainIsExplained(s, reconciled, action.fate);
    }
  }

  lemma FinalisesOnce(s: State, reconciled: bool, action: Action)
    ensures var step := Next(s, reconciled, action);
      && (Leaves(step, IsFinalised) ==> !s.finalized && step.state.finalized)
      && (s.finalized ==> step.state.finalized)
  {
  }

  lemma RewritesOnlyOpen(s: State, reconciled: bool, action: Action)
    ensures var step := Next(s, reconciled, action);
      && (Leaves(step, IsTerminalWrite) ==> Open(s.receipt) && !Open(step.state.receipt))
      && (Open(step.state.receipt) ==> Open(s.receipt))
  {
    if action.Resolve? {
      MainIsExplained(s, reconciled, action.fate);
    }
  }

  lemma AcceptanceLeavesAudit(s: State, reconciled: bool, action: Action)
    ensures var step := Next(s, reconciled, action); step.state.context ==> s.context || Leaves(step, IsAccepted)
  {
  }

  lemma CreationLeavesWrite(s: State, reconciled: bool, action: Action)
    ensures var step := Next(s, reconciled, action); step.state.created ==> s.created || Leaves(step, IsPreparedWrite)
  {
  }

  lemma AbortPathLeavesRecord(s: State, reconciled: bool, action: Action)
    ensures var step := Next(s, reconciled, action);
      step.state.abort != Quiet ==> s.abort != Quiet || step.entry == Some(Finalised(true))
  {
    if action.Resolve? {
      MainIsExplained(s, reconciled, action.fate);
    }
  }

  lemma SendingLeavesRecords(s: State, reconciled: bool, action: Action)
    ensures var step := Next(s, reconciled, action);
      && (step.state.main.Completing? ==> s.main.Completing? || Leaves(step, IsFinalAudit))
      && (Leaves(step, IsCompletion) ==> s.main.Completing?)
      && (Leaves(step, IsReleased) ==> s.main.Releasing? || (s.main == Handling && s.finalized))
  {
    if action.Resolve? {
      MainIsExplained(s, reconciled, action.fate);
    }
  }

  lemma ReleasingMeansCompleted(first: Receipt, s: State, reconciled: bool, action: Action)
    requires Inv(first, s) && s.created
    ensures var step := Next(s, reconciled, action);
      step.state.main.Releasing? ==> s.main.Releasing? || Leaves(step, IsCompletion)
  {
  }

  // ---- whole runs ------------------------------------------------------------------------------------

  datatype Trace = Trace(state: State, log: seq<Entry>)

  /** Every interleaving of the main path with aborts, every store call with any fate. */
  function Run(first: Receipt, reconciled: bool, actions: seq<Action>): Trace
    decreases |actions|
  {
    if actions == [] then Trace(Begin(first), [])
    else
      var before := Run(first, reconciled, actions[..|actions| - 1]);
      var step := Next(before.state, reconciled, actions[|actions| - 1]);
      Trace(step.state, Log(before.log, step.entry))
  }

  /** The log as far as the state remembers it. */
  ghost predicate Remembered(t: Trace) {
    && (t.state.context ==> Has(t.log, IsAccepted))
    && (t.state.created ==> Has(t.log, IsPreparedWrite))
    && (BeforeHandler(t.state.main) ==> !Has(t.log, IsStarted))
    && (!t.state.finalized ==> !Has(t.log, IsFinalised))
    && (Open(t.state.receipt) ==> !Has(t.log, IsTerminalWrite))
  }

  /** What the sending path has left behind. */
  ghost predicate Recorded(t: Trace) {
    && (t.state.main.Completing? ==> Has(t.log, IsFinalAudit))
    && (t.state.abort != Quiet ==> Has(t.log, IsCompletionOrAbort))
    && (t.state.created && t.state.main.Releasing? ==> Has(t.log, IsCompletionOrAbort))
  }

  ghost predicate Once(log: seq<Entry>) {
    AtMostOne(log, IsStarted) && AtMostOne(log, IsFinalised) && AtMostOne(log, IsTerminalWrite)
  }

  ghost predicate TraceInv(first: Receipt, t: Trace) {
    Inv(first, t.state) && Remembered(t) && Once(t.log)
  }

  lemma StepKeepsTraceInv(first: Receipt, t: Trace, reconciled: bool, action: Action)
    requires TraceInv(first, t)
    ensures var step := Next(t.state, reconciled, action);
      TraceInv(first, Trace(step.state, Log(t.log, step.entry)))
  {
    var step := Next(t.state, reconciled, action);
    StepKeepsInv(first, t.state, reconciled, action);
    StartsFromReady(t.state, reconciled, action);
    FinalisesOnce(t.state, reconciled, action);
    RewritesOnlyOpen(t.state, reconciled, action);
    AcceptanceLeavesAudit(t.state, reconciled, action);
    CreationLeavesWrite(t.state, reconciled, action);
    HasLog(t.log, step, IsAccepted);
    HasLog(t.log, step, IsPreparedWrite);
    HasLog(t.log, step, IsStarted);
    HasLog(t.log, step, IsFinalised);
    HasLog(t.log, step, IsTerminalWrite);
    AtMostOneLog(t.log, step, IsStarted);
    AtMostOneLog(t.log, step, IsFinalised);
    AtMostOneLog(t.log, step, IsTerminalWrite);
  }

  /**
   * In every run the handler starts at most once, finalisation is entered at most once, and the receipt is
   * settled at most once: never both completed and marked unknown.
   */
  lemma {:induction false} OnceEach(first: Receipt, reconciled: bool, actions: seq<Action>)
    ensures TraceInv(first, Run(first, reconciled, actions))
    ensures Once(Run(first, reconciled, actions).log)
    decreases |actions|
  {
    if actions != [] {
      var n := |actions| - 1;
      OnceEach(first, reconciled, actions[..n]);
      StepKeepsTraceInv(first, Run(first, reconciled, actions[..n]), reconciled, actions[n]);
    }
  }

  /** The handler starts only after a persisted accepted audit, itself only after the receipt was prepared or found. */
  lemma {:induction false} HandlerStartsAfterAudit(first: Receipt, reconciled: bool, actions: seq<Action>)
    ensures var log := Run(first, reconciled, actions).log;
      Precedes(log, IsAccepted, IsStarted) && (first.Absent? ==> Precedes(log, IsPreparedWrite, IsStarted))
    decreases |actions|
  {
    if actions != [] {
      var n := |actions| - 1;
      HandlerStartsAfterAudit(first, reconciled, actions[..n]);
      OnceEach(first, reconciled, actions[..n]);
      var t := Run(first, reconciled, actions[..n]);
      var step := Next(t.state, reconciled, actions[n]);
      StartsFromReady(t.state, reconciled, actions[n]);
      PrecedesLog(t.log, step, IsAccepted, IsStarted);
      if first.Absent? {
        PrecedesLog(t.log, step, IsPreparedWrite, IsStarted);
      }
    }
  }

  /** Under an existing receipt nothing is prepared and nothing rewritten unless it was still prepared. */
  lemma FoundReceiptIsNotPrepared(first: Receipt, s: State, reconciled: bool, action: Action)
    requires Inv(first, s) && first.Receipt?
    ensures !Leaves(Next(s, reconciled, action), IsPreparedWrite)
  {
  }

  /** A receipt under which the handler may run again: completed, recoverable, of the same body, its response not stored. */
  predicate MayRecover(receipt: Receipt) {
    receipt.Receipt? && receipt.status == Completed && receipt.sameBody && receipt.recoverable && !receipt.hasResponse
  }

  /** Under any other receipt found, nothing whatever happens: it is answered from the receipt, or refused. */
  lemma {:induction false} OtherReceiptsLeaveNothing(first: Receipt, reconciled: bool, actions: seq<Action>)
    requires first.Receipt? && !MayRecover(first)
    ensures var t := Run(first, reconciled, actions);
      t.log == [] && t.state.receipt == first && !t.state.context && t.state.main in {Reserving, Ended} && t.state.abort == Quiet
    decreases |actions|
  {
    if actions != [] {
      OtherReceiptsLeaveNothing(first, reconciled, actions[..|actions| - 1]);
    }
  }

  /**
   * A handler run of which this request never prepared a receipt: exactly under an existing receipt, which
   * then is a completed, recoverable one of the same body whose response was not stored.
   */
  lemma {:induction false} UnpreparedStartIsRecovery(first: Receipt, reconciled: bool, actions: seq<Action>)
    ensures var log := Run(first, reconciled, actions).log;
      && (first.Receipt? ==> !Has(log, IsPreparedWrite))
      && (Has(log, IsStarted) ==> (Has(log, IsPreparedWrite) <==> first.Absent?))
      && (Has(log, IsStarted) && first.Receipt? ==> MayRecover(first))
    decreases |actions|
  {
    if first.Receipt? && !MayRecover(first) {
      OtherReceiptsLeaveNothing(first, reconciled, actions);
    } else if actions != [] {
      var n := |actions| - 1;
      UnpreparedStartIsRecovery(first, reconciled, actions[..n]);
      OnceEach(first, reconciled, actions[..n]);
      var t := Run(first, reconciled, actions[..n]);
      var step := Next(t.state, reconciled, actions[n]);
      StartsFromReady(t.state, reconciled, actions[n]);
      HasLog(t.log, step, IsStarted);
      HasLog(t.log, step, IsPreparedWrite);
      if first.Receipt? {
        FoundReceiptIsNotPrepared(first, t.state, reconciled, actions[n]);
      }
    }
  }

  /** A completed receipt without a stored response, of a recoverable kind: the handler runs on it again. */
  lemma RecoveryRunsHandlerAgain(reconciled: bool)
    ensures var t := Run(Receipt(Completed, false, true, true), reconciled, [Resolve(Works), Resolve(Works), Resolve(Works), Resolve(Works)]);
      t.state.main == Handling && t.log == [Audited(AcceptedOutcome), Started]
  {
    var go := Resolve(Works);
    var first := Receipt(Completed, false, true, true);
    var once, twice, thrice := [go], [go, go], [go, go, go];
    RecoveryIsAccepted(reconciled, go);
    RunOneMore(first, reconciled, twice, go);
    assert Run(first, reconciled, thrice) ==
      Trace(State(Ready, Quiet, true, false, false, false, first), [Audited(AcceptedOutcome)]) by { assert twice + [go] == thrice; }
    RunOneMore(first, reconciled, thrice, go);
    assert thrice + [go] == [go, go, go, go];
  }

  lemma RecoveryIsAccepted(reconciled: bool, go: Action)
    requires go == Resolve(Works)
    ensures var first := Receipt(Completed, false, true, true);
      Run(first, reconciled, [go, go]) ==
        Trace(State(Checking, Quiet, true, false, false, false, first), [Audited(AcceptedOutcome)])
  {
    var first := Receipt(Completed, false, true, true);
    RunOneMore(first, reconciled, [], go);
    RunOneMore(first, reconciled, [go], go);
    assert [] + [go] == [go] && [go] + [go] == [go, go];
  }

  lemma RunOneMore(first: Receipt, reconciled: bool, actions: seq<Action>, action: Action)
    ensures var t := Run(first, reconciled, actions);
      var step := Next(t.state, reconciled, action);
      Run(first, reconciled, actions + [action]) == Trace(step.state, Log(t.log, step.entry))
  {
    assert (actions + [action])[..|actions|] == actions;
  }

  /** The sending path's records, for a request that created its receipt. */
  lemma {:induction false} RecordsKept(first: Receipt, reconciled: bool, actions: seq<Action>)
    requires first.Absent?
    ensures Recorded(Run(first, reconciled, actions))
    decreases |actions|
  {
    if actions != [] {
      var n := |actions| - 1;
      RecordsKept(first, reconciled, actions[..n]);
      OnceEach(first, reconciled, actions[..n]);
      var t := Run(first, reconciled, actions[..n]);
      var step := Next(t.state, reconciled, actions[n]);
      HasLog(t.log, step, IsFinalAudit);
      HasLog(t.log, step, IsCompletionOrAbort);
      SendingLeavesRecords(t.state, reconciled, actions[n]);
      AbortPathLeavesRecord(t.state, reconciled, actions[n]);
      if t.state.created {
        ReleasingMeansCompleted(first, t.state, reconciled, actions[n]);
      }
    }
  }

  /**
   * For a request that created its receipt: the handler's answer goes out only after the receipt was
   * completed, or an abort finalised first; and the receipt is completed only after the final audit.
   */
  lemma {:induction false} AnswerFollowsCompletion(first: Receipt, reconciled: bool, actions: seq<Action>)
    requires first.Absent?
    ensures var log := Run(first, reconciled, actions).log;
      Precedes(log, IsCompletionOrAbort, IsReleased) && Precedes(log, IsFinalAudit, IsCompletion)
    decreases |actions|
  {
    if actions != [] {
      var n := |actions| - 1;
      AnswerFollowsCompletion(first, reconciled, actions[..n]);
      RecordsKept(first, reconciled, actions[..n]);
      OnceEach(first, reconciled, actions[..n]);
      var t := Run(first, reconciled, actions[..n]);
      var step := Next(t.state, reconciled, actions[n]);
      SendingLeavesRecords(t.state, reconciled, actions[n]);
      PrecedesLog(t.log, step, IsCompletionOrAbort, IsReleased);
      PrecedesLog(t.log, step, IsFinalAudit, IsCompletion);
    }
  }

  // ---- what does happen ----------------------------------------------------------------------------------

  /** The actions that follow a trace. */
  function Continue(t: Trace, reconciled: bool, actions: seq<Action>): Trace
    decreases |actions|
  {
    if actions == [] then t
    else
      var step := Next(t.state, reconciled, actions[0]);
      Continue(Trace(step.state, Log(t.log, step.entry)), reconciled, actions[1..])
  }

  lemma {:induction false} ContinueMore(t: Trace, reconciled: bool, actions: seq<Action>, action: Action)
    ensures var u := Continue(t, reconciled, actions);
      var step := Next(u.state, reconciled, action);
      Continue(t, reconciled, actions + [action]) == Trace(step.state, Log(u.log, step.entry))
    decreases |actions|
  {
    var all := actions + [action];
    if actions == [] {
      assert all[1..] == [];
    } else {
      var step := Next(t.state, reconciled, actions[0]);
      ContinueMore(Trace(step.state, Log(t.log, step.entry)), reconciled, actions[1..], action);
      assert all[1..] == actions[1..] + [action];
    }
  }

  lemma {:induction false} RunContinues(first: Receipt, reconciled: bool, actions: seq<Action>)
    ensures Run(first, reconciled, actions) == Continue(Trace(Begin(first), []), reconciled, actions)
    decreases |actions|
  {
    if actions != [] {
      var n := |actions| - 1;
      RunContinues(first, reconciled, actions[..n]);
      ContinueMore(Trace(Begin(first), []), reconciled, actions[..n], actions[n]);
      RunOneMore(first, reconciled, actions[..n], actions[n]);
      assert actions == actions[..n] + [actions[n]];
    }
  }

  lemma ContinueOne(t: Trace, reconciled: bool, a: Action, rest: seq<Action>)
    ensures var step := Next(t.state, reconciled, a);
      Continue(t, reconciled, [a] + rest) == Continue(Trace(step.state, Log(t.log, step.entry)), reconciled, rest)
  {
    assert ([a] + rest)[1..] == rest;
  }

  lemma ContinueTwo(t: Trace, reconciled: bool, a: Action, b: Action)
    ensures Continue(t, reconciled, [a, b]) == Continue(Continue(t, reconciled, [a]), reconciled, [b])
  {
    ContinueOne(t, reconciled, a, []);
    ContinueOne(t, reconciled, a, [b]);
    assert [a] + [] == [a] && [a] + [b] == [a, b];
  }

  lemma {:induction false} ContinueConcat(t: Trace, reconciled: bool, a: seq<Action>, b: seq<Action>)
    ensures Continue(t, reconciled, a + b) == Continue(Continue(t, reconciled, a), reconciled, b)
    decreases |a|
  {
    if a == [] {
      assert a + b == b;
    } else {
      var step := Next(t.state, reconciled, a[0]);
      ContinueConcat(Trace(step.state, Log(t.log, step.entry)), reconciled, a[1..], b);
      assert (a + b)[1..] == a[1..] + b;
    }
  }

  /** The reservation and the accepted audit: past them exactly when both calls work and the receipt allows it. */
  lemma AcceptedExactlyWhen(first: Receipt, reconciled: bool, reserved: Fate, accepted: Fate)
    ensures var s := Continue(Trace(Begin(first), []), reconciled, [Resolve(reserved), Resolve(accepted)]).state;
      && (s.main == Checking <==> (first.Absent? || MayRecover(first)) && reserved == Works && accepted == Works)
      && s.main in {Checking, Abandoning, Ended}
      && (s.main == Checking ==> !s.aborted && !s.finalized)
  {
    ContinueTwo(Trace(Begin(first), []), reconciled, Resolve(reserved), Resolve(accepted));
  }

  lemma CheckedThenStarts(t: Trace, reconciled: bool, checked: Fate, ready: Fate)
    requires t.state.main in {Checking, Abandoning, Ended}
    requires t.state.main == Checking ==> !t.state.aborted && !t.state.finalized
    ensures var u := Continue(t, reconciled, [Resolve(checked), Resolve(ready)]);
      (u.state.main == Handling <==> t.state.main == Checking) && (u.state.main == Handling ==> u.log == t.log + [Started])
  {
    ContinueTwo(t, reconciled, Resolve(checked), Resolve(ready));
  }

  /**
   * Left alone, the handler starts exactly when there was no receipt, or one it may recover, and both the
   * reservation and the accepted audit worked.
   */
  lemma StartsExactlyWhen(first: Receipt, reconciled: bool, reserved: Fate, accepted: Fate, checked: Fate, ready: Fate)
    ensures var t := Run(first, reconciled, [Resolve(reserved), Resolve(accepted), Resolve(checked), Resolve(ready)]);
      t.state.main == Handling <==> (first.Absent? || MayRecover(first)) && reserved == Works && accepted == Works
  {
    var early, late := [Resolve(reserved), Resolve(accepted)], [Resolve(checked), Resolve(ready)];
    var begin := Trace(Begin(first), []);
    RunContinues(first, reconciled, early + late);
    ContinueConcat(begin, reconciled, early, late);
    AcceptedExactlyWhen(first, reconciled, reserved, accepted);
    CheckedThenStarts(Continue(begin, reconciled, early), reconciled, checked, ready);
    assert early + late == [Resolve(reserved), Resolve(accepted), Resolve(checked), Resolve(ready)];
  }

  /** When the accepted audit fails, the receipt this request prepared is taken back, unless that fails too. */
  lemma FailedAuditWithdraws(reconciled: bool, accepted: Fate, withdrawn: Fate)
    requires accepted != Works
    ensures var t := Continue(Trace(Begin(Absent), []), reconciled, [Resolve(Works), Resolve(accepted), Resolve(withdrawn)]);
      && t.state.main == Ended && (t.state.receipt.Absent? <==> withdrawn != FailsClean)
      && (Has(t.log, (e: Entry) => e == Withdrew) <==> withdrawn != FailsClean)
  {
    var begin, early := Trace(Begin(Absent), []), [Resolve(Works), Resolve(accepted)];
    ContinueConcat(begin, reconciled, early, [Resolve(withdrawn)]);
    assert early + [Resolve(withdrawn)] == [Resolve(Works), Resolve(accepted), Resolve(withdrawn)];
    ContinueTwo(begin, reconciled, Resolve(Works), Resolve(accepted));
    var u := Continue(begin, reconciled, early);
    var t := Continue(u, reconciled, [Resolve(withdrawn)]);
    assert u.state.main == Abandoning && u.state.created;
    if withdrawn != FailsClean {
      assert t.log[|u.log|] == Withdrew;
    }
  }

  predicate NotToStart(s: State) {
    s.aborted && s.main in {Reserving, Accepting, Abandoning, Checking, Ended}
  }

  lemma AbortedStaysUnstarted(s: State, reconciled: bool, action: Action)
    requires NotToStart(s)
    ensures var step := Next(s, reconciled, action); NotToStart(step.state) && !Leaves(step, IsStarted)
  {
  }

  lemma {:induction false} NeverStarts(t: Trace, reconciled: bool, actions: seq<Action>)
    requires NotToStart(t.state) && !Has(t.log, IsStarted)
    ensures !Has(Continue(t, reconciled, actions).log, IsStarted)
    decreases |actions|
  {
    if actions != [] {
      var step := Next(t.state, reconciled, actions[0]);
      AbortedStaysUnstarted(t.state, reconciled, actions[0]);
      HasLog(t.log, step, IsStarted);
      NeverStarts(Trace(step.state, Log(t.log, step.entry)), reconciled, actions[1..]);
    }
  }

  /** The client's request is over before the handler may start: then it never does, whatever follows. */
  lemma AbortedBeforeCheckNeverStarts(first: Receipt, reconciled: bool, before: seq<Action>, after: seq<Action>)
    requires var s := Run(first, reconciled, before).state; s.aborted && s.main in {Reserving, Accepting, Abandoning, Checking}
    ensures !Has(Run(first, reconciled, before + after).log, IsStarted)
  {
    OnceEach(first, reconciled, before);
    RunContinues(first, reconciled, before);
    RunContinues(first, reconciled, before + after);
    ContinueConcat(Trace(Begin(first), []), reconciled, before, after);
    NeverStarts(Run(first, reconciled, before), reconciled, after);
  }

  /** The handler is at work on a receipt of this request, and nobody finalised. */
  predicate AtWork(t: Trace) {
    t.state.main == Handling && t.state.context && !t.state.finalized && t.state.abort == Quiet && IsPrepared(t.state.receipt)
  }

  function DoneStatus(reconciled: bool): Status {
    if reconciled then Reconciled else Completed
  }

  predicate HasStatus(t: Trace, status: Status) {
    t.state.receipt.Receipt? && t.state.receipt.status == status
  }

  lemma AnswerIsAudited(t: Trace, reconciled: bool, code: int, audited: Fate)
    requires AtWork(t)
    ensures var u := Continue(t, reconciled, [Answer(code), Resolve(audited)]);
      && u.log == t.log + [Finalised(false)] + (if audited == FailsClean then [] else [Audited(FinalOutcome(code))])
      && u.state.receipt == t.state.receipt && u.state.main == if audited == Works then Completing(code) else Doubting
  {
    ContinueTwo(t, reconciled, Answer(code), Resolve(audited));
  }

  lemma AuditedIsCompleted(u: Trace, reconciled: bool, code: int, completed: Fate, last: Fate)
    requires u.state.main == Completing(code) && IsPrepared(u.state.receipt)
    ensures var v := Continue(u, reconciled, [Resolve(completed), Resolve(last)]);
      && (completed == Works ==>
        v.log == u.log + [Wrote(DoneStatus(reconciled)), Released(code)] && HasStatus(v, DoneStatus(reconciled)))
      && (completed == FailsDirty ==> v.log == u.log + [Wrote(DoneStatus(reconciled))] && HasStatus(v, DoneStatus(reconciled)))
      && (completed == FailsClean && last != FailsClean ==>
        v.log == u.log + [Wrote(OutcomeUnknown)] && HasStatus(v, OutcomeUnknown))
      && (completed == FailsClean && last == FailsClean ==> v.log == u.log && v.state.receipt == u.state.receipt)
  {
    ContinueTwo(u, reconciled, Resolve(completed), Resolve(last));
  }

  lemma DoubtIsMarked(u: Trace, reconciled: bool, marked: Fate, noted: Fate)
    requires u.state.main == Doubting && IsPrepared(u.state.receipt)
    ensures var v := Continue(u, reconciled, [Resolve(marked), Resolve(noted)]);
      && v.log == u.log + (if marked == FailsClean then [] else [Wrote(OutcomeUnknown)])
                        + (if noted == FailsClean then [] else [Audited(UnknownOutcome)])
      && v.state.main == Ended && HasStatus(v, if marked == FailsClean then Prepared else OutcomeUnknown)
  {
    ContinueTwo(u, reconciled, Resolve(marked), Resolve(noted));
  }

  /**
   * The whole sending path, for every fate of its calls: the answer goes out exactly when the final audit and the
   * completion worked; when the audit failed, or the completion did nothing, the receipt is marked unknown if that works.
   */
  lemma SendingSettles(t: Trace, reconciled: bool, code: int, audited: Fate, completed: Fate, last: Fate)
    requires AtWork(t)
    ensures var v := Continue(t, reconciled, [Answer(code), Resolve(audited), Resolve(completed), Resolve(last)]);
      && (audited == Works && completed == Works ==>
        v.log == t.log + [Finalised(false), Audited(FinalOutcome(code)), Wrote(DoneStatus(reconciled)), Released(code)])
      && (audited == Works && completed != FailsClean ==> HasStatus(v, DoneStatus(reconciled)))
      && (audited == Works && completed == FailsClean ==>
        HasStatus(v, if last == FailsClean then Prepared else OutcomeUnknown))
      && (audited != Works ==> HasStatus(v, if completed == FailsClean then Prepared else OutcomeUnknown))
      && (audited != Works || completed != Works ==> forall i | |t.log| <= i < |v.log| :: !IsReleased(v.log[i]))
  {
    var early, late := [Answer(code), Resolve(audited)], [Resolve(completed), Resolve(last)];
    ContinueConcat(t, reconciled, early, late);
    assert early + late == [Answer(code), Resolve(audited), Resolve(completed), Resolve(last)];
    AnswerIsAudited(t, reconciled, code, audited);
    var u := Continue(t, reconciled, early);
    if audited == Works {
      AuditedIsCompleted(u, reconciled, code, completed, last);
    } else {
      DoubtIsMarked(u, reconciled, completed, last);
    }
  }

  /** A client that goes away while the handler is at work: the receipt is marked unknown and audited so, if those work. */
  lemma AbortMarksUnknown(t: Trace, reconciled: bool, marked: Fate, noted: Fate)
    requires AtWork(t)
    ensures var v := Continue(t, reconciled, [AbortRequest, ResolveAbort(marked), ResolveAbort(noted)]);
      && v.log == t.log + [Finalised(true)] + (if marked == FailsClean then [] else [Wrote(OutcomeUnknown)])
                        + (if marked == Works && noted != FailsClean then [Audited(UnknownOutcome)] else [])
      && HasStatus(v, if marked == FailsClean then Prepared else OutcomeUnknown)
      && v.state.main == Handling && v.state.finalized
  {
    ContinueOne(t, reconciled, AbortRequest, [ResolveAbort(marked), ResolveAbort(noted)]);
    var step := Next(t.state, reconciled, AbortRequest);
    ContinueTwo(Trace(step.state, Log(t.log, step.entry)), reconciled, ResolveAbort(marked), ResolveAbort(noted));
    assert [AbortRequest] + [ResolveAbort(marked), ResolveAbort(noted)] == [AbortRequest, ResolveAbort(marked), ResolveAbort(noted)];
  }

  /** An answer after somebody finalised goes out as it is, and touches neither receipt nor audit. */
  lemma LateAnswerIsReleased(s: State, reconciled: bool, code: int)
    requires s.main == Handling && s.finalized
    ensures Next(s, reconciled, Answer(code)) == Step(s.(main := Ended), Some(Released(code)))
  {
  }

  /** An abort of a request without a context, or already finalised, leaves nothing behind. */
  lemma LateAbortLeavesNothing(s: State, reconciled: bool)
    requires !s.context || s.finalized
    ensures Next(s, reconciled, AbortRequest) == Step(s.(aborted := true), None)
  {
  }

  predicate IsDurable(e: Entry) { e.Wrote? || e.Withdrew? || e.Audited? }

  /** A store call that fails clean leaves nothing durable. */
  lemma CleanFailureLeavesNothing(s: State, reconciled: bool)
    ensures var step := ResolveMain(s, reconciled, FailsClean); !Leaves(step, IsDurable) && step.state.receipt == s.receipt
    ensures var step := ResolveAbortPath(s, FailsClean); !Leaves(step, IsDurable) && step.state.receipt == s.receipt
  {
  }

  /** One that fails after its work leaves what it would have left. */
  lemma DirtyFailureLeavesTheSame(s: State, reconciled: bool)
    ensures var dirty, works := ResolveMain(s, reconciled, FailsDirty), ResolveMain(s, reconciled, Works);
      dirty.entry == works.entry && dirty.state.receipt == works.state.receipt
    ensures var dirty, works := ResolveAbortPath(s, FailsDirty), ResolveAbortPath(s, Works);
      dirty.entry == works.entry && dirty.state.receipt == works.state.receipt
  {
  }

  /** An abort that came before the request had a context is dealt with at the check, as one that came later. */
  lemma EarlyAbortIsMarkedAtCheck(t: Trace, reconciled: bool, checked: Fate, marked: Fate, noted: Fate)
    requires t.state.main == Checking && t.state.aborted && !t.state.finalized && IsPrepared(t.state.receipt)
    ensures var v := Continue(t, reconciled, [Resolve(checked), ResolveAbort(marked), ResolveAbort(noted)]);
      && v.log == t.log + [Finalised(true)] + (if marked == FailsClean then [] else [Wrote(OutcomeUnknown)])
                        + (if marked == Works && noted != FailsClean then [Audited(UnknownOutcome)] else [])
      && HasStatus(v, if marked == FailsClean then Prepared else OutcomeUnknown) && v.state.main == Ended
  {
    ContinueOne(t, reconciled, Resolve(checked), [ResolveAbort(marked), ResolveAbort(noted)]);
    var step := Next(t.state, reconciled, Resolve(checked));
    ContinueTwo(Trace(step.state, Log(t.log, step.entry)), reconciled, ResolveAbort(marked), ResolveAbort(noted));
    assert [Resolve(checked)] + [ResolveAbort(marked), ResolveAbort(noted)] == [Resolve(checked), ResolveAbort(marked), ResolveAbort(noted)];
  }

  /** A receipt that disappeared cannot be completed: no answer goes out. */
  lemma DisappearedReceiptIsDoubted(u: Trace, reconciled: bool, code: int, completed: Fate, last: Fate)
    requires u.state.main == Completing(code) && u.state.receipt.Absent?
    ensures Continue(u, reconciled, [Resolve(completed), Resolve(last)]).log == u.log
  {
    ContinueTwo(u, reconciled, Resolve(completed), Resolve(last));
  }

  /** Nor marked: the abort path ends there, without an audit. */
  lemma DisappearedReceiptEndsAbort(s: State, fate: Fate)
    requires s.abort == Marking && s.receipt.Absent?
    ensures ResolveAbortPath(s, fate) == Step(s.(abort := Over), None)
  {
  }
}
