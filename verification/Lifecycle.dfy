/**
 The execution lifecycle of one attempt: the transition table both reducers
 implement, and what it promises over whole event traces.
 */
module Lifecycle {
  import opened Wrappers

  datatype ExecutionStep =
    | Discover | Revalidate | Evaluate | Policy | Simulate | Lease
    | Sign | Submit | Confirm | Postcondition | Journal

  datatype AttemptPhase = Active | AwaitingReconciliation | OutcomePendingJournal | Complete

  datatype ExpectedRace =
    | AccountChanged | AccountClosed | PositionAlreadyClosed | OrderAlreadyClosed | TriggerNoLongerMet
    | ObligationNoLongerLiquidatable | AuctionAlreadySettled | LeaseContended | DuplicateSignatureConfirmed

  datatype ReasonCode =
    | Confirmed | ShadowMode | StaleObservation | StateChanged | AlreadyResolved | BoundsNotMet | PolicyDenied
    | LeaseNotAcquired | SimulationRejected | SigningDenied | RpcUnavailable | BlockhashExpiredReason
    | ConfirmationUnknown | PostconditionFailed | InsufficientSignerBalance | ProtocolRevisionMismatch
    | UnsupportedProtocol | Unknown

  datatype OutcomeStatus = Executed | Skipped | RetryableFailure | TerminalFailure

  datatype FailureClass = Retryable | Terminal

  datatype ExpiryTiming = BeforeSubmit | AfterSubmitUnknown

  datatype LifecycleEvent =
    | StepSucceeded(step: ExecutionStep, blockhash: Option<string>, lastValidBlockHeight: Option<nat>,
                    signature: Option<string>, slot: Option<nat>)
    | RaceLost(step: ExecutionStep, race: ExpectedRace)
    | Failure(step: ExecutionStep, failureClass: FailureClass, reason: ReasonCode)
    | BlockhashExpired(timing: ExpiryTiming)
    | SubmittedNotLandedFinalized
    | SubmittedLanded(landedSlot: nat)

  datatype ErrorCode =
    | InvalidPhase | UnexpectedStep | MissingSigningMetadata
    | MissingConfirmationSlot | MissingSignature | OutcomeMissing

  /** The fields of a candidate that an outcome copies. */
  datatype Candidate = Candidate(candidateId: string, jobKind: string, conflictKey: string,
                                 observedSlot: nat, protocolRevision: string)

  datatype ExecutionOutcome = ExecutionOutcome(attemptId: string, attemptNumber: nat, workKey: string,
                                               candidate: Candidate, status: OutcomeStatus, reason: ReasonCode,
                                               race: Option<ExpectedRace>, finalizedSlot: Option<nat>,
                                               signature: Option<string>, signingGeneration: nat)

  datatype Attempt = Attempt(attemptId: string, attemptNumber: nat, workKey: string, candidate: Candidate,
                             phase: AttemptPhase, nextStep: Option<ExecutionStep>, eventSequence: nat,
                             signingGeneration: nat, blockhash: Option<string>, lastValidBlockHeight: Option<nat>,
                             signature: Option<string>, confirmedSlot: Option<nat>, outcome: Option<ExecutionOutcome>)

  function NewAttempt(attemptId: string, workKey: string, candidate: Candidate): Attempt {
    Attempt(attemptId, 1, workKey, candidate, Active, Some(Discover), 0, 0, None, None, None, None, None)
  }

  function RaceReason(race: ExpectedRace): ReasonCode {
    match race
    case AccountChanged => StateChanged
    case TriggerNoLongerMet => BoundsNotMet
    case LeaseContended => LeaseNotAcquired
    case _ => AlreadyResolved
  }

  function OutcomeOf(s: Attempt, status: OutcomeStatus, reason: ReasonCode,
                     race: Option<ExpectedRace>): ExecutionOutcome {
    ExecutionOutcome(s.attemptId, s.attemptNumber, s.workKey, s.candidate, status, reason, race,
                     s.confirmedSlot, s.signature, s.signingGeneration)
  }

  // ----- the order of the steps -----

  function Index(step: ExecutionStep): nat {
    match step
    case Discover => 0
    case Revalidate => 1
    case Evaluate => 2
    case Policy => 3
    case Simulate => 4
    case Lease => 5
    case Sign => 6
    case Submit => 7
    case Confirm => 8
    case Postcondition => 9
    case Journal => 10
  }

  const STEPS: seq<ExecutionStep> :=
    [Discover, Revalidate, Evaluate, Policy, Simulate, Lease, Sign, Submit, Confirm, Postcondition, Journal]

  // ----- the transition table -----

  /** The two implementations differ only in what counts as a missing string. */
  datatype Dialect = Rust | TypeScript

  predicate Present(d: Dialect, text: Option<string>) {
    text.Some? && (d.TypeScript? ==> text.value != "")
  }

  function Settle(s: Attempt, outcome: ExecutionOutcome): Attempt {
    s.(outcome := Some(outcome), phase := OutcomePendingJournal, nextStep := Some(Journal))
  }

  function NewGeneration(s: Attempt): Attempt {
    s.(signingGeneration := s.signingGeneration + 1, blockhash := None, lastValidBlockHeight := None, signature := None,
       confirmedSlot := None, outcome := None, phase := Active, nextStep := Some(Revalidate))
  }

  /** Why an event is refused in a state, if it is. */
  function Refusal(d: Dialect, s: Attempt, e: LifecycleEvent): Option<ErrorCode> {
    match e
    case StepSucceeded(step, blockhash, height, signature, slot) =>
      if s.nextStep == None then Some(InvalidPhase)
      else if s.nextStep != Some(step) then Some(UnexpectedStep)
      else if s.phase == Complete then Some(InvalidPhase)
      else if s.phase == OutcomePendingJournal && step != Journal then Some(UnexpectedStep)
      else if s.phase == AwaitingReconciliation && step != Confirm then Some(UnexpectedStep)
      else if step == Sign && !(Present(d, blockhash) && height.Some? && Present(d, signature)) then
        Some(MissingSigningMetadata)
      else if step == Confirm && slot == None then Some(MissingConfirmationSlot)
      else if step == Postcondition && !Present(d, s.signature) then Some(MissingSignature)
      else if step == Postcondition && s.confirmedSlot == None then Some(MissingConfirmationSlot)
      else if step == Journal && (s.phase != OutcomePendingJournal || s.outcome == None) then Some(OutcomeMissing)
      else None
    case RaceLost(step, _) =>
      if s.phase != Active || s.nextStep == None then Some(InvalidPhase)
      else if s.nextStep != Some(step) then Some(UnexpectedStep)
      else None
    case Failure(step, _, _) =>
      if (s.phase != Active && s.phase != AwaitingReconciliation) || s.nextStep == None then Some(InvalidPhase)
      else if s.nextStep != Some(step) then Some(UnexpectedStep)
      else None
    case BlockhashExpired(timing) =>
      if s.phase == Active && s.nextStep == Some(if timing == BeforeSubmit then Submit else Confirm) then None
      else Some(UnexpectedStep)
    case SubmittedNotLandedFinalized =>
      if s.phase != AwaitingReconciliation then Some(InvalidPhase) else None
    case SubmittedLanded(_) =>
      if s.phase != AwaitingReconciliation then Some(InvalidPhase)
      else if !Present(d, s.signature) then Some(MissingSignature)
      else None
  }

  /** What an accepted event makes of the state, before the sequence number. */
  function Effect(s: Attempt, e: LifecycleEvent): Attempt {
    match e
    case StepSucceeded(step, blockhash, height, signature, slot) =>
      (match step
       case Sign =>
         s.(blockhash := blockhash, lastValidBlockHeight := height, signature := signature, nextStep := Some(Submit))
       case Confirm => s.(confirmedSlot := slot, phase := Active, nextStep := Some(Postcondition))
       case Postcondition => Settle(s, OutcomeOf(s, Executed, Confirmed, None))
       case Journal => s.(phase := Complete, nextStep := None)
       case _ => s.(nextStep := Some(STEPS[Index(step) + 1])))
    case RaceLost(_, race) => Settle(s, OutcomeOf(s, Skipped, RaceReason(race), Some(race)))
    case Failure(_, failureClass, reason) =>
      Settle(s, OutcomeOf(s, if failureClass == Retryable then RetryableFailure else TerminalFailure, reason, None))
    case BlockhashExpired(timing) =>
      if timing == BeforeSubmit then NewGeneration(s)
      else s.(phase := AwaitingReconciliation, nextStep := Some(Confirm))
    case SubmittedNotLandedFinalized => NewGeneration(s)
    case SubmittedLanded(slot) => s.(confirmedSlot := Some(slot), phase := Active, nextStep := Some(Postcondition))
  }

  function Transition(d: Dialect, s: Attempt, e: LifecycleEvent): Result<Attempt, ErrorCode> {
    match Refusal(d, s, e)
    case Some(code) => Err(code)
    case None => Ok(Effect(s, e).(eventSequence := s.eventSequence + 1))
  }

  // ----- traces -----

  /** What a trace of events has led to: the state and the events it accepted. */
  datatype History = History(state: Attempt, accepted: seq<LifecycleEvent>)

  function Record(d: Dialect, h: History, e: LifecycleEvent): History {
    match Transition(d, h.state, e)
    case Ok(next) => History(next, h.accepted + [e])
    case Err(_) => h
  }

  /** Any events in any order; refused ones leave no mark. */
  function Replay(d: Dialect, start: Attempt, events: seq<LifecycleEvent>): History {
    if events == [] then History(start, [])
    else Record(d, Replay(d, start, events[..|events| - 1]), events[|events| - 1])
  }

  predicate Fresh(s: Attempt) {
    s == NewAttempt(s.attemptId, s.workKey, s.candidate)
  }

  // ----- reachable states -----

  /** The phase determines the next step, the outcome, the signature and the slot. */
  predicate Shape(s: Attempt) {
    match s.phase
    case Active =>
      && s.nextStep.Some? && s.nextStep != Some(Journal) && s.outcome == None
      && (s.nextStep == Some(Discover) ==> s.signingGeneration == 0)
      && (s.signature.Some? <==> Index(s.nextStep.value) > Index(Sign))
      && (s.blockhash.Some? <==> s.signature.Some?) && (s.lastValidBlockHeight.Some? <==> s.signature.Some?)
      && (s.confirmedSlot.Some? <==> s.nextStep == Some(Postcondition))
    case AwaitingReconciliation =>
      s.nextStep == Some(Confirm) && s.outcome == None && s.signature.Some? && s.blockhash.Some?
      && s.lastValidBlockHeight.Some? && s.confirmedSlot == None
    case OutcomePendingJournal => s.nextStep == Some(Journal) && s.outcome.Some?
    case Complete => s.nextStep == None && s.outcome.Some?
  }

  /** Progress within a generation. */
  function Rank(s: Attempt): nat {
    match s.phase
    case Active =>
      if s.nextStep == None then 0
      else if s.nextStep == Some(Postcondition) then 10
      else Index(s.nextStep.value)
    case AwaitingReconciliation => 9
    case OutcomePendingJournal => 11
    case Complete => 12
  }

  /** The sequence number lies between what the generations must and may have taken. */
  predicate Paced(s: Attempt) {
    && (s.phase == Active || s.phase == AwaitingReconciliation ==>
          s.nextStep.Some? && 7 * s.signingGeneration + Index(s.nextStep.value) <= s.eventSequence)
    && 7 * s.signingGeneration <= s.eventSequence <= 9 * s.signingGeneration + Rank(s)
  }

  /** A signature accepted by a dialect is present to it ever after. */
  predicate Kept(d: Dialect, s: Attempt) {
    s.signature.Some? ==> Present(d, s.signature)
  }

  lemma TransitionKeepsShape(d: Dialect, s: Attempt, e: LifecycleEvent)
    requires Shape(s) && Transition(d, s, e).Ok?
    ensures Shape(Transition(d, s, e).value)
  {
  }

  lemma TransitionKeepsPace(d: Dialect, s: Attempt, e: LifecycleEvent)
    requires Shape(s) && Paced(s) && Transition(d, s, e).Ok?
    ensures Paced(Transition(d, s, e).value)
  {
  }

  lemma TransitionKeepsSignature(d: Dialect, s: Attempt, e: LifecycleEvent)
    requires Kept(d, s) && Transition(d, s, e).Ok?
    ensures Kept(d, Transition(d, s, e).value)
  {
  }

  lemma {:induction false} ReachableShape(d: Dialect, start: Attempt, events: seq<LifecycleEvent>)
    requires Fresh(start)
    ensures var h := Replay(d, start, events);
            Shape(h.state) && Paced(h.state) && Kept(d, h.state) && h.state.eventSequence == |h.accepted|
  {
    if events != [] {
      ReachableShape(d, start, events[..|events| - 1]);
      var h, e := Replay(d, start, events[..|events| - 1]), events[|events| - 1];
      if Transition(d, h.state, e).Ok? {
        TransitionKeepsShape(d, h.state, e);
        TransitionKeepsPace(d, h.state, e);
        TransitionKeepsSignature(d, h.state, e);
      }
    }
  }

  /** Two of the six errors cannot happen after any trace, a third only to a
      confirmation without a slot, and a complete attempt accepts nothing. */
  lemma UnreachableErrors(d: Dialect, start: Attempt, events: seq<LifecycleEvent>, e: LifecycleEvent)
    requires Fresh(start)
    ensures var s := Replay(d, start, events).state; var r := Transition(d, s, e);
            && r != Err(MissingSignature)
            && r != Err(OutcomeMissing)
            && (r == Err(MissingConfirmationSlot) ==> e.StepSucceeded? && e.step == Confirm && e.slot == None)
            && (s.phase == Complete ==> r.Err?)
  {
    ReachableShape(d, start, events);
  }

  lemma {:induction false} AcceptsSome(d: Dialect, start: Attempt, events: seq<LifecycleEvent>)
    ensures |Replay(d, start, events).accepted| <= |events|
  {
    if events != [] {
      AcceptsSome(d, start, events[..|events| - 1]);
    }
  }

  /** The Rust counters are a u32 and a u64.  Each generation takes at least seven events, so
      neither overflows in fewer than 7 * 2^32 events. */
  lemma CountersFit(d: Dialect, start: Attempt, events: seq<LifecycleEvent>)
    requires Fresh(start) && |events| < 7 * 0x1_0000_0000
    ensures var s := Replay(d, start, events).state;
            s.signingGeneration < 0x1_0000_0000 && s.eventSequence < 0x1_0000_0000_0000_0000
  {
    ReachableShape(d, start, events);
    AcceptsSome(d, start, events);
  }

  // ----- the events of one generation -----

  /** An event without its payload. */
  datatype Kind =
    | Did(step: ExecutionStep)
    | Raced
    | Failed
    | Expired(timing: ExpiryTiming)
    | NotLanded
    | LandedLate

  function KindOf(e: LifecycleEvent): Kind {
    match e
    case StepSucceeded(step, _, _, _, _) => Did(step)
    case RaceLost(_, _) => Raced
    case Failure(_, _, _) => Failed
    case BlockhashExpired(timing) => Expired(timing)
    case SubmittedNotLandedFinalized => NotLanded
    case SubmittedLanded(_) => LandedLate
  }

  function Kinds(events: seq<LifecycleEvent>): (ks: seq<Kind>)
    ensures |ks| == |events|
  {
    if events == [] then [] else Kinds(events[..|events| - 1]) + [KindOf(events[|events| - 1])]
  }

  /** The events that open a new signing generation. */
  predicate Bumps(k: Kind) {
    k == Expired(BeforeSubmit) || k == NotLanded
  }

  /** The events since the last new generation. */
  function Current(ks: seq<Kind>): seq<Kind> {
    if ks == [] || Bumps(ks[|ks| - 1]) then [] else Current(ks[..|ks| - 1]) + [ks[|ks| - 1]]
  }

  /** The steps numbered from .. to, each done once and in order. */
  function Steps(from: nat, to: nat): seq<Kind>
    requires from <= to <= |STEPS|
  {
    if from == to then [] else Steps(from, to - 1) + [Did(STEPS[to - 1])]
  }

  function First(s: Attempt): nat { if s.signingGeneration == 0 then 0 else 1 }

  /** Everything up to and including the submission, then one of the three ways a
      transaction is seen to land. */
  predicate LandedWord(first: nat, w: seq<Kind>)
    requires first <= 1
  {
    var submitted := Steps(first, 8);
    || w == submitted + [Did(Confirm)]
    || w == submitted + [Expired(AfterSubmitUnknown), Did(Confirm)]
    || w == submitted + [Expired(AfterSubmitUnknown), LandedLate]
  }

  /** What the events of the current generation are, given the state. */
  predicate Word(s: Attempt, w: seq<Kind>) {
    && |w| <= Rank(s)
    && match s.phase
       case Active =>
         s.nextStep.Some? &&
         (if s.nextStep == Some(Postcondition) then LandedWord(First(s), w)
          else First(s) <= Index(s.nextStep.value) <= 8 && w == Steps(First(s), Index(s.nextStep.value)))
       case AwaitingReconciliation => w == Steps(First(s), 8) + [Expired(AfterSubmitUnknown)]
       case OutcomePendingJournal =>
         s.outcome.Some? && (s.outcome.value.status == Executed ==> ExecutedWord(First(s), w))
       case Complete =>
         s.outcome.Some? && (s.outcome.value.status == Executed ==>
                               |w| > 0 && w[|w| - 1] == Did(Journal) && ExecutedWord(First(s), w[..|w| - 1]))
  }

  predicate ExecutedWord(first: nat, w: seq<Kind>)
    requires first <= 1
  {
    |w| > 0 && w[|w| - 1] == Did(Postcondition) && LandedWord(first, w[..|w| - 1])
  }

  /** The word of an outcome grows by the event that settled it. */
  lemma SettlingWord(d: Dialect, s: Attempt, e: LifecycleEvent, w: seq<Kind>)
    requires Shape(s) && Word(s, w) && Transition(d, s, e).Ok?
    requires var s' := Transition(d, s, e).value; s'.phase == OutcomePendingJournal || s'.phase == Complete
    ensures Word(Transition(d, s, e).value, w + [KindOf(e)])
  {
    assert (w + [KindOf(e)])[..|w|] == w;
  }

  lemma WaitingWord(d: Dialect, s: Attempt, e: LifecycleEvent, w: seq<Kind>)
    requires Shape(s) && Word(s, w) && Transition(d, s, e).Ok? && s.phase == AwaitingReconciliation
    requires Transition(d, s, e).value.phase == Active && !Bumps(KindOf(e))
    ensures Word(Transition(d, s, e).value, w + [KindOf(e)])
  {
    assert w + [KindOf(e)] == Steps(First(s), 8) + [Expired(AfterSubmitUnknown), KindOf(e)];
  }

  lemma StepsNext(from: nat, step: ExecutionStep)
    requires from <= Index(step)
    ensures Steps(from, Index(step) + 1) == Steps(from, Index(step)) + [Did(step)]
    ensures step != Journal ==> Index(STEPS[Index(step) + 1]) == Index(step) + 1
  {
  }

  lemma ActiveWord(d: Dialect, s: Attempt, e: LifecycleEvent, w: seq<Kind>)
    requires Shape(s) && Word(s, w) && Transition(d, s, e).Ok? && s.phase == Active
    requires var s' := Transition(d, s, e).value; s'.phase == Active || s'.phase == AwaitingReconciliation
    requires !Bumps(KindOf(e))
    ensures Word(Transition(d, s, e).value, w + [KindOf(e)])
  {
    if e.StepSucceeded? && e.step != Confirm {
      StepsNext(First(s), e.step);
      PreparedWord(s, e, w);
    }
  }

  lemma PreparedWord(s: Attempt, e: LifecycleEvent, w: seq<Kind>)
    requires Shape(s) && Word(s, w) && s.phase == Active
    requires e.StepSucceeded? && s.nextStep == Some(e.step) && Index(e.step) < 8
    ensures Word(Effect(s, e).(eventSequence := s.eventSequence + 1), w + [KindOf(e)])
  {
    StepsNext(First(s), e.step);
  }

  lemma TransitionExtendsWord(d: Dialect, s: Attempt, e: LifecycleEvent, w: seq<Kind>)
    requires Shape(s) && Word(s, w) && Transition(d, s, e).Ok?
    ensures Word(Transition(d, s, e).value, if Bumps(KindOf(e)) then [] else w + [KindOf(e)])
  {
    var s' := Transition(d, s, e).value;
    if Bumps(KindOf(e)) {
      assert Steps(1, 1) == [];
    } else if s'.phase == OutcomePendingJournal || s'.phase == Complete {
      SettlingWord(d, s, e, w);
    } else if s.phase == Active {
      ActiveWord(d, s, e, w);
    } else {
      WaitingWord(d, s, e, w);
    }
  }

  lemma KindsAppend(events: seq<LifecycleEvent>, e: LifecycleEvent)
    ensures Kinds(events + [e]) == Kinds(events) + [KindOf(e)]
  {
    assert (events + [e])[..|events|] == events;
  }

  lemma CurrentAppend(ks: seq<Kind>, k: Kind)
    ensures Current(ks + [k]) == if Bumps(k) then [] else Current(ks) + [k]
  {
    assert (ks + [k])[..|ks|] == ks;
  }

  lemma {:induction false} CurrentWord(d: Dialect, start: Attempt, events: seq<LifecycleEvent>)
    requires Fresh(start)
    ensures var h := Replay(d, start, events); Word(h.state, Current(Kinds(h.accepted)))
  {
    if events == [] {
    } else {
      var earlier, e := events[..|events| - 1], events[|events| - 1];
      CurrentWord(d, start, earlier);
      ReachableShape(d, start, earlier);
      var h := Replay(d, start, earlier);
      if Transition(d, h.state, e).Ok? {
        KindsAppend(h.accepted, e);
        CurrentAppend(Kinds(h.accepted), KindOf(e));
        TransitionExtendsWord(d, h.state, e, Current(Kinds(h.accepted)));
      }
    }
  }

  /** Executed means: since the last new generation every step from revalidation to
      submission was accepted once and in order, then the transaction was seen to
      land, then its postcondition held.  Nothing else was accepted in between. */
  lemma ExecutedWasEarned(d: Dialect, start: Attempt, events: seq<LifecycleEvent>)
    requires Fresh(start)
    ensures var h := Replay(d, start, events);
            var w := Current(Kinds(h.accepted));
            h.state.outcome.Some? && h.state.outcome.value.status == Executed ==>
              var word := if h.state.phase == Complete && |w| > 0 then w[..|w| - 1] else w;
              |word| > 0 && word[|word| - 1] == Did(Postcondition) && LandedWord(First(h.state), word[..|word| - 1])
  {
    CurrentWord(d, start, events);
    ReachableShape(d, start, events);
  }

  /** No generation accepts more than twelve events. */
  lemma TwelvePerGeneration(d: Dialect, start: Attempt, events: seq<LifecycleEvent>)
    requires Fresh(start)
    ensures |Current(Kinds(Replay(d, start, events).accepted))| <= 12
  {
    CurrentWord(d, start, events);
  }

  // ----- between two signatures -----

  /** The events since the last signature, if there is one. */
  function SinceSign(ks: seq<Kind>): Option<seq<Kind>> {
    if ks == [] then None
    else if ks[|ks| - 1] == Did(Sign) then Some([])
    else match SinceSign(ks[..|ks| - 1])
      case None => None
      case Some(tail) => Some(tail + [ks[|ks| - 1]])
  }

  /** A signature is given up only unsubmitted, or submitted and finally not landed. */
  predicate GivenUp(w: seq<Kind>) {
    || w == [Expired(BeforeSubmit)]
    || w == [Did(Submit), Expired(AfterSubmitUnknown), NotLanded]
  }

  predicate Renewal(w: seq<Kind>, prepared: nat)
    requires 1 <= prepared <= 6
  {
    var steps := Steps(1, prepared);
    |w| >= |steps| && w[|w| - |steps|..] == steps && GivenUp(w[..|w| - |steps|])
  }

  predicate SignedWord(s: Attempt, w: seq<Kind>) {
    match s.phase
    case Active =>
      s.nextStep.Some? &&
      (match s.nextStep.value
       case Discover => false
       case Submit => w == []
       case Confirm => w == [Did(Submit)]
       case Postcondition => true
       case Journal => false
       case step => Renewal(w, Index(step)))
    case AwaitingReconciliation => w == [Did(Submit), Expired(AfterSubmitUnknown)]
    case _ => true
  }

  lemma RenewalGrows(w: seq<Kind>, prepared: nat)
    requires 1 <= prepared < 6 && Renewal(w, prepared)
    ensures Renewal(w + [Did(STEPS[prepared])], prepared + 1)
  {
    var steps, w' := Steps(1, prepared), w + [Did(STEPS[prepared])];
    assert Steps(1, prepared + 1) == steps + [Did(STEPS[prepared])];
    assert w'[|w'| - |steps| - 1..] == w[|w| - |steps|..] + [Did(STEPS[prepared])];
    assert w'[..|w'| - |steps| - 1] == w[..|w| - |steps|];
  }

  lemma TransitionExtendsSignedWord(d: Dialect, s: Attempt, e: LifecycleEvent, w: seq<Kind>)
    requires Shape(s) && SignedWord(s, w) && Transition(d, s, e).Ok? && KindOf(e) != Did(Sign)
    ensures SignedWord(Transition(d, s, e).value, w + [KindOf(e)])
  {
    var s' := Transition(d, s, e).value;
    if Bumps(KindOf(e)) {
      var w' := w + [KindOf(e)];
      assert Steps(1, 1) == [] && w'[..|w'|] == w' && w'[|w'|..] == [];
    } else if s'.phase == Active && s'.nextStep.Some? && 1 <= Index(s'.nextStep.value) <= 6 {
      RenewalGrows(w, Index(s.nextStep.value));
    }
  }

  lemma SinceSignAppend(ks: seq<Kind>, k: Kind)
    ensures SinceSign(ks + [k]) == if k == Did(Sign) then Some([])
                                   else match SinceSign(ks) case None => None case Some(tail) => Some(tail + [k])
  {
    assert (ks + [k])[..|ks|] == ks;
  }

  predicate Signed(h: History) {
    var tail := SinceSign(Kinds(h.accepted));
    tail.Some? ==> SignedWord(h.state, tail.value)
  }

  lemma RecordKeepsSigned(d: Dialect, h: History, e: LifecycleEvent)
    requires Shape(h.state) && Signed(h)
    ensures Signed(Record(d, h, e))
  {
    if Transition(d, h.state, e).Ok? {
      var ks := Kinds(h.accepted);
      KindsAppend(h.accepted, e);
      SinceSignAppend(ks, KindOf(e));
      if KindOf(e) != Did(Sign) && SinceSign(ks).Some? {
        TransitionExtendsSignedWord(d, h.state, e, SinceSign(ks).value);
      }
    }
  }

  lemma {:induction false} SignedSoFar(d: Dialect, start: Attempt, events: seq<LifecycleEvent>)
    requires Fresh(start)
    ensures Signed(Replay(d, start, events))
  {
    if events != [] {
      var earlier := events[..|events| - 1];
      SignedSoFar(d, start, earlier);
      ReachableShape(d, start, earlier);
      RecordKeepsSigned(d, Replay(d, start, earlier), events[|events| - 1]);
    }
  }

  lemma {:induction false} SinceSignIsSuffix(ks: seq<Kind>, i: nat)
    requires i < |ks| && ks[i] == Did(Sign) && Did(Sign) !in ks[i + 1..]
    ensures SinceSign(ks) == Some(ks[i + 1..])
  {
    var shorter, last := ks[..|ks| - 1], ks[|ks| - 1];
    if i + 1 < |ks| {
      assert ks[i + 1..] == shorter[i + 1..] + [last];
      assert last in ks[i + 1..];
      var tail := shorter[i + 1..];
      assert forall k :: k in tail ==> k in ks[i + 1..];
      SinceSignIsSuffix(shorter, i);
    } else {
      assert ks[i + 1..] == [];
    }
  }

  /** No re-sign while unknown.  Between two signatures accepted one after the other
      lie exactly one new generation and one complete preparation; and if the first
      was submitted, its expiry and its finalized absence were both accepted first. */
  lemma {:induction false} NoResignWhileUnknown(d: Dialect, start: Attempt, events: seq<LifecycleEvent>, i: nat, j: nat)
    requires Fresh(start)
    requires ConsecutiveSigns(Kinds(Replay(d, start, events).accepted), i, j)
    ensures var between := Kinds(Replay(d, start, events).accepted)[i + 1..j];
            var preparation := [Did(Revalidate), Did(Evaluate), Did(Policy), Did(Simulate), Did(Lease)];
            || between == [Expired(BeforeSubmit)] + preparation
            || between == [Did(Submit), Expired(AfterSubmitUnknown), NotLanded] + preparation
  {
    var earlier, e := events[..|events| - 1], events[|events| - 1];
    var h := Replay(d, start, earlier);
    var ks := Kinds(h.accepted);
    if Transition(d, h.state, e).Ok? {
      KindsAppend(h.accepted, e);
      if j < |ks| {
        ConsecutiveInPrefix(ks, KindOf(e), i, j);
        NoResignWhileUnknown(d, start, earlier, i, j);
      } else {
        assert (ks + [KindOf(e)])[i + 1..j] == ks[i + 1..];
        SinceSignIsSuffix(ks, i);
        SigningAgain(d, start, earlier, e);
        RenewalIsComplete(ks[i + 1..]);
      }
    } else {
      NoResignWhileUnknown(d, start, earlier, i, j);
    }
  }

  predicate ConsecutiveSigns(ks: seq<Kind>, i: nat, j: nat) {
    i < j < |ks| && ks[i] == Did(Sign) && ks[j] == Did(Sign) && Did(Sign) !in ks[i + 1..j]
  }

  lemma ConsecutiveInPrefix(ks: seq<Kind>, k: Kind, i: nat, j: nat)
    requires ConsecutiveSigns(ks + [k], i, j) && j < |ks|
    ensures ConsecutiveSigns(ks, i, j) && (ks + [k])[i + 1..j] == ks[i + 1..j]
  {
    assert (ks + [k])[i + 1..j] == ks[i + 1..j];
  }

  lemma SigningAgain(d: Dialect, start: Attempt, events: seq<LifecycleEvent>, e: LifecycleEvent)
    requires Fresh(start)
    requires var h := Replay(d, start, events);
             Transition(d, h.state, e).Ok? && KindOf(e) == Did(Sign) && SinceSign(Kinds(h.accepted)).Some?
    ensures Renewal(SinceSign(Kinds(Replay(d, start, events).accepted)).value, 6)
  {
    SignedSoFar(d, start, events);
    ReachableShape(d, start, events);
  }

  lemma RenewalIsComplete(w: seq<Kind>)
    requires Renewal(w, 6)
    ensures var preparation := [Did(Revalidate), Did(Evaluate), Did(Policy), Did(Simulate), Did(Lease)];
            || w == [Expired(BeforeSubmit)] + preparation
            || w == [Did(Submit), Expired(AfterSubmitUnknown), NotLanded] + preparation
  {
    var preparation := [Did(Revalidate), Did(Evaluate), Did(Policy), Did(Simulate), Did(Lease)];
    assert Steps(1, 6) == preparation by {
      assert Steps(1, 2) == [Did(Revalidate)];
      assert Steps(1, 3) == [Did(Revalidate), Did(Evaluate)];
      assert Steps(1, 4) == [Did(Revalidate), Did(Evaluate), Did(Policy)];
      assert Steps(1, 5) == [Did(Revalidate), Did(Evaluate), Did(Policy), Did(Simulate)];
    }
    assert w == w[..|w| - 5] + w[|w| - 5..];
  }

  // ----- the two dialects -----

  /** A signature that is due, with all its metadata, one of whose strings is empty. */
  predicate EmptyMetadata(s: Attempt, e: LifecycleEvent) {
    && s.phase == Active && s.nextStep == Some(Sign)
    && e.StepSucceeded? && e.step == Sign
    && e.blockhash.Some? && e.lastValidBlockHeight.Some? && e.signature.Some?
    && (e.blockhash.value == "" || e.signature.value == "")
  }

  /** A recorded signature is the empty string, and the event is one that asks for it: a landing
      while its outcome is awaited, or the postcondition when that is due. */
  predicate EmptySignatureTells(s: Attempt, e: LifecycleEvent) {
    && s.signature == Some("")
    && (if s.phase == AwaitingReconciliation then e.SubmittedLanded?
        else s.phase == Active && s.nextStep == Some(Postcondition) && e.StepSucceeded? && e.step == Postcondition)
  }

  /** In every state of the shape that either reducer keeps, the two agree on an event, on the new
      state or on the error code, exactly when it is of neither kind. */
  lemma DialectsAgreeExactly(s: Attempt, e: LifecycleEvent)
    requires Shape(s)
    ensures Transition(Rust, s, e) == Transition(TypeScript, s, e)
            <==> !EmptyMetadata(s, e) && !EmptySignatureTells(s, e)
  {
  }

  /** After every event of a trace the two reducers have the same history. */
  predicate AlwaysAgree(start: Attempt, events: seq<LifecycleEvent>) {
    && Replay(Rust, start, events) == Replay(TypeScript, start, events)
    && (events == [] || AlwaysAgree(start, events[..|events| - 1]))
  }

  /** No signature with an empty string was due when it came. */
  predicate NeverEmpty(start: Attempt, events: seq<LifecycleEvent>) {
    events == [] ||
    (var before := events[..|events| - 1];
     NeverEmpty(start, before) && !EmptyMetadata(Replay(Rust, start, before).state, events[|events| - 1]))
  }

  /** The first difference on a trace is always a due signature with an empty string. */
  lemma {:induction false} TracesAgreeExactly(start: Attempt, events: seq<LifecycleEvent>)
    requires Fresh(start)
    ensures AlwaysAgree(start, events) <==> NeverEmpty(start, events)
  {
    if events != [] {
      var before, e := events[..|events| - 1], events[|events| - 1];
      TracesAgreeExactly(start, before);
      if AlwaysAgree(start, before) {
        var s := Replay(Rust, start, before).state;
        ReachableShape(TypeScript, start, before);
        DialectsAgreeExactly(s, e);
        assert EmptyMetadata(s, e) ==> Transition(Rust, s, e).Ok? && Transition(TypeScript, s, e).Err?;
      }
    }
  }

  predicate NonEmptyStrings(e: LifecycleEvent) {
    e.StepSucceeded? ==> e.blockhash != Some("") && e.signature != Some("")
  }

  lemma {:induction false} DialectsAgreeOnTraces(start: Attempt, events: seq<LifecycleEvent>)
    requires Fresh(start)
    requires forall i :: 0 <= i < |events| ==> NonEmptyStrings(events[i])
    ensures Replay(Rust, start, events) == Replay(TypeScript, start, events)
  {
    if events != [] {
      var earlier := events[..|events| - 1];
      DialectsAgreeOnTraces(start, earlier);
      ReachableShape(TypeScript, start, earlier);
      DialectsAgreeExactly(Replay(TypeScript, start, earlier).state, events[|events| - 1]);
    }
  }

  /** The next event of such a trace gets the same answer, error code included. */
  lemma DialectsAgreeOnErrors(start: Attempt, events: seq<LifecycleEvent>, e: LifecycleEvent)
    requires Fresh(start)
    requires NonEmptyStrings(e) && forall i :: 0 <= i < |events| ==> NonEmptyStrings(events[i])
    ensures Transition(Rust, Replay(Rust, start, events).state, e)
         == Transition(TypeScript, Replay(TypeScript, start, events).state, e)
  {
    DialectsAgreeOnTraces(start, events);
    ReachableShape(TypeScript, start, events);
    DialectsAgreeExactly(Replay(TypeScript, start, events).state, e);
  }
}
