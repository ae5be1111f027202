/** The TypeScript reducer: the helpers assign the fields of a copied record, and a
    string is missing when it is absent or empty. */
module TypeScriptReducer {
  import opened Wrappers
  import opened Lifecycle

  type Outcome = Result<Attempt, ErrorCode>

  predicate Falsy(text: Option<string>) {
    text == None || text == Some("")
  }

  /** Returns a new state; the given one is never changed. */
  method ApplyLifecycleEvent(state: Attempt, event: LifecycleEvent) returns (r: Outcome)
    ensures r == Transition(TypeScript, state, event)
  {
    var next := state;
    r := Reduce(next, event);
    if r.Ok? {
      next := r.value;
      next := next.(eventSequence := next.eventSequence + 1);
      r := Ok(next);
    }
  }

  method Reduce(state: Attempt, event: LifecycleEvent) returns (r: Outcome)
    ensures r == match Refusal(TypeScript, state, event)
                 case Some(code) => Err(code) case None => Ok(Effect(state, event))
  {
    var next := state;
    match event
    case StepSucceeded(_, _, _, _, _) =>
      r := StepDone(next, event);
    case RaceLost(step, race) =>
      if next.phase != Active {
        return Err(InvalidPhase);
      }
      if next.nextStep == None {
        return Err(InvalidPhase);
      }
      if next.nextStep != Some(step) {
        return Err(UnexpectedStep);
      }
      next := next.(outcome := Some(OutcomeOf(next, Skipped, RaceReason(race), Some(race))));
      next := next.(phase := OutcomePendingJournal);
      next := next.(nextStep := Some(Journal));
      r := Ok(next);
    case Failure(step, failureClass, reason) =>
      if next.phase != Active && next.phase != AwaitingReconciliation {
        return Err(InvalidPhase);
      }
      if next.nextStep == None {
        return Err(InvalidPhase);
      }
      if next.nextStep != Some(step) {
        return Err(UnexpectedStep);
      }
      var status := if failureClass == Retryable then RetryableFailure else TerminalFailure;
      next := next.(outcome := Some(OutcomeOf(next, status, reason, None)));
      next := next.(phase := OutcomePendingJournal);
      next := next.(nextStep := Some(Journal));
      r := Ok(next);
    case BlockhashExpired(timing) =>
      r := ExpireBlockhash(next, timing);
    case SubmittedNotLandedFinalized =>
      if next.phase != AwaitingReconciliation {
        return Err(InvalidPhase);
      }
      next := StartNewSigningGeneration(next);
      r := Ok(next);
    case SubmittedLanded(slot) =>
      if next.phase != AwaitingReconciliation {
        return Err(InvalidPhase);
      }
      if Falsy(next.signature) {
        return Err(MissingSignature);
      }
      next := next.(confirmedSlot := Some(slot));
      next := next.(phase := Active);
      next := next.(nextStep := Some(Postcondition));
      r := Ok(next);
  }

  method StepDone(state: Attempt, event: LifecycleEvent) returns (r: Outcome)
    requires event.StepSucceeded?
    ensures r == match Refusal(TypeScript, state, event)
                 case Some(code) => Err(code) case None => Ok(Effect(state, event))
  {
    var next := state;
    if next.nextStep == None {
      return Err(InvalidPhase);
    }
    if next.nextStep != Some(event.step) {
      return Err(UnexpectedStep);
    }
    if next.phase == Complete {
      return Err(InvalidPhase);
    }
    if next.phase == OutcomePendingJournal && event.step != Journal {
      return Err(UnexpectedStep);
    }
    if next.phase == AwaitingReconciliation && event.step != Confirm {
      return Err(UnexpectedStep);
    }
    match event.step {
      case Sign =>
        if Falsy(event.blockhash) || event.lastValidBlockHeight == None || Falsy(event.signature) {
          return Err(MissingSigningMetadata);
        }
        next := next.(blockhash := event.blockhash);
        next := next.(lastValidBlockHeight := event.lastValidBlockHeight);
        next := next.(signature := event.signature);
        next := next.(nextStep := Some(Submit));
      case Confirm =>
        if event.slot == None {
          return Err(MissingConfirmationSlot);
        }
        next := next.(confirmedSlot := event.slot);
        next := next.(phase := Active);
        next := next.(nextStep := Some(Postcondition));
      case Postcondition =>
        if Falsy(next.signature) {
          return Err(MissingSignature);
        }
        if next.confirmedSlot == None {
          return Err(MissingConfirmationSlot);
        }
        next := next.(outcome := Some(OutcomeOf(next, Executed, Confirmed, None)));
        next := next.(phase := OutcomePendingJournal);
        next := next.(nextStep := Some(Journal));
      case Journal =>
        if next.phase != OutcomePendingJournal || next.outcome == None {
          return Err(OutcomeMissing);
        }
        next := next.(phase := Complete);
        next := next.(nextStep := None);
      case _ =>
        if next.phase != Active {
          return Err(InvalidPhase);
        }
        var following := NextExecutionStep(event.step);
        next := next.(nextStep := following);
    }
    r := Ok(next);
  }

  method ExpireBlockhash(state: Attempt, timing: ExpiryTiming) returns (r: Outcome)
    ensures r == match Refusal(TypeScript, state, BlockhashExpired(timing))
                 case Some(code) => Err(code)
                 case None => Ok(Effect(state, BlockhashExpired(timing)))
  {
    var next := state;
    if timing == BeforeSubmit {
      if next.phase != Active || next.nextStep != Some(Submit) {
        return Err(UnexpectedStep);
      }
      next := StartNewSigningGeneration(next);
      return Ok(next);
    }
    if next.phase != Active || next.nextStep != Some(Confirm) {
      return Err(UnexpectedStep);
    }
    next := next.(phase := AwaitingReconciliation);
    next := next.(nextStep := Some(Confirm));
    r := Ok(next);
  }

  method StartNewSigningGeneration(state: Attempt) returns (next: Attempt)
    ensures next == NewGeneration(state)
  {
    next := state.(signingGeneration := state.signingGeneration + 1);
    next := next.(blockhash := None);
    next := next.(lastValidBlockHeight := None);
    next := next.(signature := None);
    next := next.(confirmedSlot := None);
    next := next.(outcome := None);
    next := next.(phase := Active);
    next := next.(nextStep := Some(Revalidate));
  }

  /** The successor by position in the list of steps. */
  method NextExecutionStep(step: ExecutionStep) returns (next: Option<ExecutionStep>)
    ensures next == if Index(step) + 1 < |STEPS| then Some(STEPS[Index(step) + 1]) else None
  {
    var index := 0;
    while STEPS[index] != step
      invariant 0 <= index <= Index(step)
      invariant STEPS[Index(step)] == step
      decreases Index(step) - index
    {
      index := index + 1;
    }
    assert Index(STEPS[index]) == index;
    next := if index + 1 < |STEPS| then Some(STEPS[index + 1]) else None;
  }
}
