/**
 What an attempt's state and its outcome say, read off the events that were accepted:
 nothing here mentions how a transition computes them.
 */
module LifecycleRecord {
  import opened Wrappers
  import opened Lifecycle

  // ----- what the accepted events tell -----

  predicate IsStep(e: LifecycleEvent, step: ExecutionStep) { e.StepSucceeded? && e.step == step }

  /** The blockhash of a transaction that was never submitted has expired, or a submitted one is
      finally not landed. */
  predicate OpensGeneration(e: LifecycleEvent) {
    e == BlockhashExpired(BeforeSubmit) || e == SubmittedNotLandedFinalized
  }

  function Generations(events: seq<LifecycleEvent>): nat {
    if events == [] then 0
    else Generations(events[..|events| - 1]) + if OpensGeneration(events[|events| - 1]) then 1 else 0
  }

  /** The last signature of the current generation. */
  function LastSign(events: seq<LifecycleEvent>): (sign: Option<LifecycleEvent>)
    ensures sign.Some? ==> IsStep(sign.value, Sign)
  {
    if events == [] || OpensGeneration(events[|events| - 1]) then None
    else if IsStep(events[|events| - 1], Sign) then Some(events[|events| - 1])
    else LastSign(events[..|events| - 1])
  }

  /** The slot in which the current generation was seen to land. */
  function LandedSlot(events: seq<LifecycleEvent>): Option<nat> {
    if events == [] || OpensGeneration(events[|events| - 1]) then None
    else if IsStep(events[|events| - 1], Confirm) then events[|events| - 1].slot
    else if events[|events| - 1].SubmittedLanded? then Some(events[|events| - 1].landedSlot)
    else LandedSlot(events[..|events| - 1])
  }

  /** The reason that goes with a lost race. */
  predicate NamesRace(reason: ReasonCode, race: ExpectedRace) {
    || (race == AccountChanged && reason == StateChanged)
    || (race == TriggerNoLongerMet && reason == BoundsNotMet)
    || (race == LeaseContended && reason == LeaseNotAcquired)
    || (race in {AccountClosed, PositionAlreadyClosed, OrderAlreadyClosed, ObligationNoLongerLiquidatable,
                 AuctionAlreadySettled, DuplicateSignatureConfirmed} && reason == AlreadyResolved)
  }

  /** What the event that settled an attempt makes its outcome say. */
  predicate Settles(e: LifecycleEvent, status: OutcomeStatus, reason: ReasonCode, race: Option<ExpectedRace>) {
    || (IsStep(e, Postcondition) && status == Executed && reason == Confirmed && race == None)
    || (e.RaceLost? && status == Skipped && race == Some(e.race) && NamesRace(reason, e.race))
    || (e.Failure? && race == None && reason == e.reason
        && status == if e.failureClass == Retryable then RetryableFailure else TerminalFailure)
  }

  /** The outcome is that of `settling`, which came after `events`. */
  predicate OutcomeSays(start: Attempt, o: ExecutionOutcome, events: seq<LifecycleEvent>, settling: LifecycleEvent) {
    && o.attemptId == start.attemptId && o.attemptNumber == 1 && o.workKey == start.workKey
    && o.candidate == start.candidate
    && Settles(settling, o.status, o.reason, o.race)
    && o.signature == (if LastSign(events).Some? then LastSign(events).value.signature else None)
    && o.finalizedSlot == LandedSlot(events) && o.signingGeneration == Generations(events)
  }

  /** The fields of the state but for its phase and outcome. */
  predicate FieldsSay(start: Attempt, s: Attempt, events: seq<LifecycleEvent>) {
    var sign := LastSign(events);
    && s.attemptId == start.attemptId && s.attemptNumber == 1 && s.workKey == start.workKey
    && s.candidate == start.candidate
    && s.eventSequence == |events| && s.signingGeneration == Generations(events)
    && s.blockhash == (if sign.Some? then sign.value.blockhash else None)
    && s.lastValidBlockHeight == (if sign.Some? then sign.value.lastValidBlockHeight else None)
    && s.signature == (if sign.Some? then sign.value.signature else None)
    && s.confirmedSlot == LandedSlot(events)
  }

  predicate PhaseSays(start: Attempt, s: Attempt, events: seq<LifecycleEvent>) {
    match s.phase
    case OutcomePendingJournal =>
      events != [] && s.outcome.Some?
      && OutcomeSays(start, s.outcome.value, events[..|events| - 1], events[|events| - 1])
    case Complete =>
      |events| > 1 && s.outcome.Some? && IsStep(events[|events| - 1], Journal)
      && OutcomeSays(start, s.outcome.value, events[..|events| - 2], events[|events| - 2])
    case _ => s.outcome == None
  }

  /** Every field of the state, told by the events. */
  predicate StateSays(start: Attempt, s: Attempt, events: seq<LifecycleEvent>) {
    FieldsSay(start, s, events) && PhaseSays(start, s, events)
  }

  // ----- it is so after every trace -----

  lemma LastOf(events: seq<LifecycleEvent>, e: LifecycleEvent)
    ensures (events + [e])[..|events|] == events && (events + [e])[|events|] == e
  {
  }

  lemma ToldByOneMore(events: seq<LifecycleEvent>, e: LifecycleEvent)
    ensures Generations(events + [e]) == Generations(events) + if OpensGeneration(e) then 1 else 0
    ensures LastSign(events + [e]) ==
            if OpensGeneration(e) then None else if IsStep(e, Sign) then Some(e) else LastSign(events)
    ensures LandedSlot(events + [e]) ==
            if OpensGeneration(e) then None
            else if IsStep(e, Confirm) then e.slot
            else if e.SubmittedLanded? then Some(e.landedSlot)
            else LandedSlot(events)
  {
    LastOf(events, e);
  }

  /** An event that settles the attempt. */
  lemma SettlingSays(d: Dialect, start: Attempt, s: Attempt, events: seq<LifecycleEvent>, e: LifecycleEvent)
    requires Shape(s) && FieldsSay(start, s, events) && Transition(d, s, e).Ok?
    requires Transition(d, s, e).value.phase == OutcomePendingJournal
    ensures OutcomeSays(start, Transition(d, s, e).value.outcome.value, events, e)
  {
  }

  lemma OneMoreTells(d: Dialect, start: Attempt, s: Attempt, events: seq<LifecycleEvent>, e: LifecycleEvent)
    requires Shape(s) && FieldsSay(start, s, events) && Transition(d, s, e).Ok?
    ensures FieldsSay(start, Transition(d, s, e).value, events + [e])
  {
    ToldByOneMore(events, e);
  }

  lemma OneMoreSays(d: Dialect, start: Attempt, s: Attempt, events: seq<LifecycleEvent>, e: LifecycleEvent)
    requires Shape(s) && StateSays(start, s, events) && Transition(d, s, e).Ok?
    ensures StateSays(start, Transition(d, s, e).value, events + [e])
  {
    OneMoreTells(d, start, s, events, e);
    LastOf(events, e);
    var s' := Transition(d, s, e).value;
    if s'.phase == OutcomePendingJournal {
      SettlingSays(d, start, s, events, e);
    } else if s'.phase == Complete {
      assert (events + [e])[..|events| - 1] == events[..|events| - 1];
    }
  }

  /** After any trace the state is what the accepted events tell, field by field. */
  lemma {:induction false} StateTold(d: Dialect, start: Attempt, events: seq<LifecycleEvent>)
    requires Fresh(start)
    ensures var h := Replay(d, start, events); StateSays(start, h.state, h.accepted)
  {
    if events != [] {
      var earlier, e := events[..|events| - 1], events[|events| - 1];
      StateTold(d, start, earlier);
      ReachableShape(d, start, earlier);
      var h := Replay(d, start, earlier);
      if Transition(d, h.state, e).Ok? {
        OneMoreSays(d, start, h.state, h.accepted, e);
      }
    }
  }

  /** The event that settled an attempt with an outcome: the last accepted one but for a journal
      entry. */
  function SettledAt(s: Attempt, events: seq<LifecycleEvent>): int {
    if s.phase == Complete then |events| - 2 else |events| - 1
  }

  /** What an outcome says after any trace.  It is a retryable or terminal failure exactly if a
      failure of that class settled the attempt, with its reason; skipped exactly if a lost race
      did, with that race and the reason that goes with it; and executed exactly if a postcondition
      did, and then with the signature of the last accepted signing, the slot of the accepted
      landing, and the number of new generations. */
  lemma OutcomeTold(d: Dialect, start: Attempt, events: seq<LifecycleEvent>)
    requires Fresh(start)
    ensures var h := Replay(d, start, events); var at := SettledAt(h.state, h.accepted);
            h.state.outcome.Some? ==>
              && 0 <= at < |h.accepted|
              && var o, settling, before := h.state.outcome.value, h.accepted[at], h.accepted[..at];
                 && (o.status == RetryableFailure <==> settling.Failure? && settling.failureClass == Retryable)
                 && (o.status == TerminalFailure <==> settling.Failure? && settling.failureClass == Terminal)
                 && (settling.Failure? ==> o.reason == settling.reason && o.race == None)
                 && (o.status == Skipped <==> settling.RaceLost?)
                 && (settling.RaceLost? ==> o.race == Some(settling.race) && NamesRace(o.reason, settling.race))
                 && (o.status == Executed <==> IsStep(settling, Postcondition))
                 && (o.status == Executed ==>
                       && o.reason == Confirmed && o.race == None
                       && LastSign(before).Some? && LandedSlot(before).Some?
                       && o.signature == LastSign(before).value.signature
                       && o.finalizedSlot == LandedSlot(before))
                 && o.signingGeneration == Generations(before)
  {
    StateTold(d, start, events);
    ReachableShape(d, start, events);
    var h := Replay(d, start, events);
    if h.state.outcome.Some? && h.state.outcome.value.status == Executed {
      ExecutedHasLanded(d, start, events);
    }
  }

  /** In every outcome that is executed a signature and a slot are told. */
  lemma {:induction false} ExecutedHasLanded(d: Dialect, start: Attempt, events: seq<LifecycleEvent>)
    requires Fresh(start)
    ensures var h := Replay(d, start, events);
            h.state.outcome.Some? && h.state.outcome.value.status == Executed ==>
              h.state.outcome.value.signature.Some? && h.state.outcome.value.finalizedSlot.Some?
  {
    if events != [] {
      var earlier := events[..|events| - 1];
      ExecutedHasLanded(d, start, earlier);
      ReachableShape(d, start, earlier);
    }
  }

  // ----- why an event is refused -----

  predicate DueAnd(s: Attempt, e: LifecycleEvent, step: ExecutionStep) {
    s.phase != Complete && s.nextStep == Some(step) && IsStep(e, step)
  }

  /** The reasons for which an attempt refuses an event, one by one. */
  predicate RefusedFor(d: Dialect, s: Attempt, e: LifecycleEvent, code: ErrorCode) {
    match code
    case InvalidPhase =>
      || (e.StepSucceeded? && s.phase == Complete)
      || (e.RaceLost? && s.phase != Active)
      || (e.Failure? && (s.phase == OutcomePendingJournal || s.phase == Complete))
      || ((e.SubmittedNotLandedFinalized? || e.SubmittedLanded?) && s.phase != AwaitingReconciliation)
    case UnexpectedStep =>
      || (e.StepSucceeded? && s.phase != Complete && s.nextStep != Some(e.step))
      || (e.RaceLost? && s.phase == Active && s.nextStep != Some(e.step))
      || (e.Failure? && (s.phase == Active || s.phase == AwaitingReconciliation) && s.nextStep != Some(e.step))
      || (e == BlockhashExpired(BeforeSubmit) && !(s.phase == Active && s.nextStep == Some(Submit)))
      || (e == BlockhashExpired(AfterSubmitUnknown) && !(s.phase == Active && s.nextStep == Some(Confirm)))
    case MissingSigningMetadata =>
      && DueAnd(s, e, Sign)
      && !(e.lastValidBlockHeight.Some? && Present(d, e.blockhash) && Present(d, e.signature))
    case MissingConfirmationSlot => DueAnd(s, e, Confirm) && e.slot == None
    case MissingSignature =>
      && (DueAnd(s, e, Postcondition) || (e.SubmittedLanded? && s.phase == AwaitingReconciliation))
      && !Present(d, s.signature)
    case OutcomeMissing => false
  }

  /** After any trace an event is refused with a code exactly for that code's reasons. */
  lemma RefusedExactly(d: Dialect, start: Attempt, events: seq<LifecycleEvent>, e: LifecycleEvent, code: ErrorCode)
    requires Fresh(start)
    ensures var s := Replay(d, start, events).state; Transition(d, s, e) == Err(code) <==> RefusedFor(d, s, e, code)
  {
    ReachableShape(d, start, events);
  }
}
