/** The Rust reducer: a struct whose methods assign its fields. */
module RustReducer {
  import opened Wrappers
  import opened Lifecycle

  class AttemptState {
    const attemptId: string
    const attemptNumber: nat
    const workKey: string
    const candidate: Candidate
    var phase: AttemptPhase
    var nextStep: Option<ExecutionStep>
    var eventSequence: nat
    var signingGeneration: nat
    var blockhash: Option<string>
    var lastValidBlockHeight: Option<nat>
    var signature: Option<string>
    var confirmedSlot: Option<nat>
    var outcome: Option<ExecutionOutcome>

    ghost function View(): Attempt reads this {
      Attempt(attemptId, attemptNumber, workKey, candidate, phase, nextStep, eventSequence, signingGeneration,
              blockhash, lastValidBlockHeight, signature, confirmedSlot, outcome)
    }

    constructor (attemptId: string, workKey: string, candidate: Candidate)
      ensures View() == NewAttempt(attemptId, workKey, candidate)
    {
      this.attemptId, this.attemptNumber, this.workKey, this.candidate := attemptId, 1, workKey, candidate;
      phase, nextStep, eventSequence, signingGeneration := Active, Some(Discover), 0, 0;
      blockhash, lastValidBlockHeight, signature, confirmedSlot, outcome := None, None, None, None, None;
    }

    /** The fields the reducer never assigns. */
    predicate SameAttempt(other: AttemptState) {
      && attemptId == other.attemptId && attemptNumber == other.attemptNumber && workKey == other.workKey
      && candidate == other.candidate
    }

    constructor Clone(other: AttemptState)
      ensures View() == other.View() && SameAttempt(other)
    {
      attemptId, attemptNumber := other.attemptId, other.attemptNumber;
      workKey, candidate := other.workKey, other.candidate;
      phase, nextStep, eventSequence := other.phase, other.nextStep, other.eventSequence;
      signingGeneration, blockhash := other.signingGeneration, other.blockhash;
      lastValidBlockHeight, signature := other.lastValidBlockHeight, other.signature;
      confirmedSlot, outcome := other.confirmedSlot, other.outcome;
    }

    /** `*self = next` */
    method Assign(other: AttemptState)
      requires other != this && SameAttempt(other)
      modifies this
      ensures View() == other.View()
    {
      phase, nextStep, eventSequence := other.phase, other.nextStep, other.eventSequence;
      signingGeneration, blockhash := other.signingGeneration, other.blockhash;
      lastValidBlockHeight, signature := other.lastValidBlockHeight, other.signature;
      confirmedSlot, outcome := other.confirmedSlot, other.outcome;
    }

    /** One observed fact.  A refused event leaves every field as it was. */
    method Apply(event: LifecycleEvent) returns (error: Option<ErrorCode>)
      modifies this
      ensures match Transition(Rust, old(View()), event)
              case Ok(s) => error == None && View() == s
              case Err(code) => error == Some(code) && View() == old(View())
    {
      var next := new AttemptState.Clone(this);
      error := next.Reduce(event);
      if error != None {
        return;
      }
      next.eventSequence := next.eventSequence + 1;
      Assign(next);
    }

    /** On an error the fields of the clone are of no further use. */
    method Reduce(event: LifecycleEvent) returns (error: Option<ErrorCode>)
      modifies this
      ensures error == Refusal(Rust, old(View()), event)
      ensures error == None ==> View() == Effect(old(View()), event)
    {
      match event
      case StepSucceeded(step, hash, height, sig, slot) =>
        error := StepDone(step, hash, height, sig, slot);
      case RaceLost(step, race) =>
        error := RequireActive();
        if error != None {
          return;
        }
        error := RequireStep(step);
        if error != None {
          return;
        }
        outcome := Some(MakeOutcome(Skipped, RaceReason(race), Some(race)));
        phase := OutcomePendingJournal;
        nextStep := Some(Journal);
      case Failure(step, failureClass, reason) =>
        if phase != Active && phase != AwaitingReconciliation {
          return Some(InvalidPhase);
        }
        error := RequireStep(step);
        if error != None {
          return;
        }
        var status := match failureClass case Retryable => RetryableFailure case Terminal => TerminalFailure;
        outcome := Some(MakeOutcome(status, reason, None));
        phase := OutcomePendingJournal;
        nextStep := Some(Journal);
      case BlockhashExpired(timing) =>
        error := ExpireBlockhash(timing);
      case SubmittedNotLandedFinalized =>
        if phase != AwaitingReconciliation {
          return Some(InvalidPhase);
        }
        StartNewSigningGeneration();
        error := None;
      case SubmittedLanded(slot) =>
        if phase != AwaitingReconciliation {
          return Some(InvalidPhase);
        }
        if signature == None {
          return Some(MissingSignature);
        }
        confirmedSlot := Some(slot);
        phase := Active;
        nextStep := Some(Postcondition);
        error := None;
    }

    method StepDone(step: ExecutionStep, hash: Option<string>, height: Option<nat>, sig: Option<string>,
                    slot: Option<nat>)
      returns (error: Option<ErrorCode>)
      modifies this
      ensures error == Refusal(Rust, old(View()), StepSucceeded(step, hash, height, sig, slot))
      ensures error == None ==> View() == Effect(old(View()), StepSucceeded(step, hash, height, sig, slot))
    {
      if nextStep == None {
        return Some(InvalidPhase);
      }
      if step != nextStep.value {
        return Some(UnexpectedStep);
      }
      match phase {
        case Complete => return Some(InvalidPhase);
        case OutcomePendingJournal =>
          if step != Journal {
            return Some(UnexpectedStep);
          }
        case AwaitingReconciliation =>
          if step != Confirm {
            return Some(UnexpectedStep);
          }
        case Active =>
      }
      error := TakeStep(step, hash, height, sig, slot);
    }

    /** The step is the next one and the phase allows it. */
    method TakeStep(step: ExecutionStep, hash: Option<string>, height: Option<nat>, sig: Option<string>,
                    slot: Option<nat>)
      returns (error: Option<ErrorCode>)
      requires nextStep == Some(step) && phase != Complete
      requires phase == OutcomePendingJournal ==> step == Journal
      requires phase == AwaitingReconciliation ==> step == Confirm
      modifies this
      ensures error == Refusal(Rust, old(View()), StepSucceeded(step, hash, height, sig, slot))
      ensures error == None ==> View() == Effect(old(View()), StepSucceeded(step, hash, height, sig, slot))
    {
      error := None;
      match step
      case Sign =>
        if hash == None || height == None || sig == None {
          return Some(MissingSigningMetadata);
        }
        blockhash := hash;
        lastValidBlockHeight := height;
        signature := sig;
        nextStep := Some(Submit);
      case Confirm =>
        if slot == None {
          return Some(MissingConfirmationSlot);
        }
        confirmedSlot := slot;
        phase := Active;
        nextStep := Some(Postcondition);
      case Postcondition =>
        if signature == None {
          return Some(MissingSignature);
        }
        if confirmedSlot == None {
          return Some(MissingConfirmationSlot);
        }
        outcome := Some(MakeOutcome(Executed, Confirmed, None));
        phase := OutcomePendingJournal;
        nextStep := Some(Journal);
      case Journal =>
        if phase != OutcomePendingJournal || outcome == None {
          return Some(OutcomeMissing);
        }
        phase := Complete;
        nextStep := None;
      case _ =>
        error := RequireActive();
        if error != None {
          return;
        }
        nextStep := NextOf(step);
    }

    method ExpireBlockhash(timing: ExpiryTiming) returns (error: Option<ErrorCode>)
      modifies this
      ensures error == Refusal(Rust, old(View()), BlockhashExpired(timing))
      ensures error == None ==> View() == Effect(old(View()), BlockhashExpired(timing))
    {
      match timing
      case BeforeSubmit =>
        if phase != Active || nextStep != Some(Submit) {
          return Some(UnexpectedStep);
        }
        StartNewSigningGeneration();
        error := None;
      case AfterSubmitUnknown =>
        if phase != Active || nextStep != Some(Confirm) {
          return Some(UnexpectedStep);
        }
        phase := AwaitingReconciliation;
        nextStep := Some(Confirm);
        error := None;
    }

    method StartNewSigningGeneration()
      modifies this
      ensures View() == NewGeneration(old(View()))
    {
      signingGeneration := signingGeneration + 1;
      blockhash := None;
      lastValidBlockHeight := None;
      signature := None;
      confirmedSlot := None;
      outcome := None;
      phase := Active;
      nextStep := Some(Revalidate);
    }

    method RequireActive() returns (error: Option<ErrorCode>)
      ensures error == if phase == Active then None else Some(InvalidPhase)
    {
      error := if phase == Active then None else Some(InvalidPhase);
    }

    method RequireStep(actual: ExecutionStep) returns (error: Option<ErrorCode>)
      ensures error == if nextStep == None then Some(InvalidPhase)
                       else if nextStep == Some(actual) then None else Some(UnexpectedStep)
    {
      if nextStep == None {
        return Some(InvalidPhase);
      }
      error := if actual == nextStep.value then None else Some(UnexpectedStep);
    }

    function MakeOutcome(status: OutcomeStatus, reason: ReasonCode, race: Option<ExpectedRace>): (o: ExecutionOutcome)
      reads this
      ensures o == OutcomeOf(View(), status, reason, race)
    {
      ExecutionOutcome(attemptId, attemptNumber, workKey, candidate, status, reason, race,
                       confirmedSlot, signature, signingGeneration)
    }
  }

  /** ExecutionStep::next */
  function NextOf(step: ExecutionStep): (next: Option<ExecutionStep>)
    ensures next == if Index(step) + 1 < |STEPS| then Some(STEPS[Index(step) + 1]) else None
  {
    match step
    case Discover => Some(Revalidate)
    case Revalidate => Some(Evaluate)
    case Evaluate => Some(Policy)
    case Policy => Some(Simulate)
    case Simulate => Some(Lease)
    case Lease => Some(Sign)
    case Sign => Some(Submit)
    case Submit => Some(Confirm)
    case Confirm => Some(Postcondition)
    case Postcondition => Some(Journal)
    case Journal => None
  }
}
