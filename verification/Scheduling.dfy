/**
 The in-memory scheduler: at most one pending candidate per conflict key, and a
 key that has been handed out stays locked until it is finished.
 */
module Scheduling {
  datatype JobKind =
    | LeverageLiquidation
    | LendingLiquidationBid
    | LendingLiquidationSettle
    | HlpRecovery
    | StopLoss
    | TakeProfit
    | LimitEntry
    | HlpOrder
    | AuctionBid
    | Lifecycle
    | Sentinel

  function Priority(kind: JobKind): nat {
    match kind
    case LeverageLiquidation => 500
    case LendingLiquidationBid => 200
    case LendingLiquidationSettle => 500
    case HlpRecovery => 500
    case StopLoss => 400
    case TakeProfit => 300
    case LimitEntry => 250
    case HlpOrder => 400
    case AuctionBid => 200
    case Lifecycle => 100
    case Sentinel => 0
  }

  datatype Candidate = Candidate(
    id: string,
    kind: JobKind,
    conflictKey: string,
    market: string,
    target: string,
    observedSlot: nat,
    protocolRevision: string,
    expectedStateHash: string)

  /** How a language orders strings: two strings compare as their places do. Any order of
      strings has such places; Rust gives different strings different places, a locale
      need not. */
  type Collation = string -> real

  /** Priority first, then the slot, then the id. */
  predicate Above(order: Collation, a: Candidate, b: Candidate) {
    || Priority(a.kind) > Priority(b.kind)
    || (Priority(a.kind) == Priority(b.kind)
        && (a.observedSlot > b.observedSlot || (a.observedSlot == b.observedSlot && order(a.id) > order(b.id))))
  }

  predicate SameRank(order: Collation, a: Candidate, b: Candidate) {
    !Above(order, a, b) && !Above(order, b, a)
  }

  datatype State = State(pending: map<string, Candidate>, inFlight: set<string>)

  const EMPTY: State := State(map[], {})

  datatype EnqueueResult = Accepted | Superseded | ConflictLocked | RevisionMismatch

  /** What a caller does and what it is told. */
  datatype Action =
    | Enqueued(candidate: Candidate, result: EnqueueResult)
    | Popped(candidate: Candidate)
    | FoundNothing
    | Marked(key: string)
    | Finished(key: string, was: bool)

  function ResultOf(revision: string, order: Collation, s: State, c: Candidate): EnqueueResult {
    if c.protocolRevision != revision then RevisionMismatch
    else if c.conflictKey in s.inFlight then ConflictLocked
    else if c.conflictKey !in s.pending || Above(order, c, s.pending[c.conflictKey]) then Accepted
    else Superseded
  }

  /** Nothing pending ranks above the candidate. */
  predicate IsTop(order: Collation, s: State, c: Candidate) {
    && c.conflictKey in s.pending && s.pending[c.conflictKey] == c
    && forall key :: key in s.pending ==> !Above(order, s.pending[key], c)
  }

  predicate Possible(revision: string, order: Collation, s: State, a: Action) {
    match a
    case Enqueued(c, result) => result == ResultOf(revision, order, s, c)
    case Popped(c) => IsTop(order, s, c)
    case FoundNothing => s.pending == map[]
    case Marked(_) => true
    case Finished(key, was) => was == (key in s.inFlight)
  }

  function After(s: State, a: Action): State {
    match a
    case Enqueued(c, result) =>
      if result == Accepted then s.(pending := s.pending[c.conflictKey := c]) else s
    case Popped(c) => State(s.pending - {c.conflictKey}, s.inFlight + {c.conflictKey})
    case FoundNothing => s
    case Marked(key) => State(s.pending - {key}, s.inFlight + {key})
    case Finished(key, _) => s.(inFlight := s.inFlight - {key})
  }

  // ----- what ranks higher, in the candidates' own fields -----

  /** The kinds of jobs, the most urgent first. */
  const CLASSES: seq<set<JobKind>> :=
    [{LeverageLiquidation, LendingLiquidationSettle, HlpRecovery},
     {StopLoss, HlpOrder},
     {TakeProfit},
     {LimitEntry},
     {LendingLiquidationBid, AuctionBid},
     {Lifecycle},
     {Sentinel}]

  predicate SameClass(a: JobKind, b: JobKind) {
    exists i :: 0 <= i < |CLASSES| && a in CLASSES[i] && b in CLASSES[i]
  }

  predicate MoreUrgent(a: JobKind, b: JobKind) {
    exists i, j :: 0 <= i < j < |CLASSES| && a in CLASSES[i] && b in CLASSES[j]
  }

  /** Of a more urgent class; or of the same class and observed later; or of the same class and
      slot, and then the id decides. */
  predicate Outranks(order: Collation, a: Candidate, b: Candidate) {
    || MoreUrgent(a.kind, b.kind)
    || (SameClass(a.kind, b.kind)
        && (a.observedSlot > b.observedSlot || (a.observedSlot == b.observedSlot && order(a.id) > order(b.id))))
  }

  function ClassOf(kind: JobKind): (i: nat)
    ensures i < |CLASSES| && kind in CLASSES[i]
  {
    match kind
    case LeverageLiquidation => 0
    case LendingLiquidationSettle => 0
    case HlpRecovery => 0
    case StopLoss => 1
    case HlpOrder => 1
    case TakeProfit => 2
    case LimitEntry => 3
    case LendingLiquidationBid => 4
    case AuctionBid => 4
    case Lifecycle => 5
    case Sentinel => 6
  }

  lemma ClassIsOne(kind: JobKind, i: nat)
    requires i < |CLASSES| && kind in CLASSES[i]
    ensures i == ClassOf(kind)
  {
  }

  lemma ClassesCompare(a: JobKind, b: JobKind)
    ensures SameClass(a, b) <==> ClassOf(a) == ClassOf(b)
    ensures MoreUrgent(a, b) <==> ClassOf(a) < ClassOf(b)
    ensures ClassOf(a) < ClassOf(b) <==> Priority(a) > Priority(b)
    ensures ClassOf(a) == ClassOf(b) <==> Priority(a) == Priority(b)
  {
    var i, j := ClassOf(a), ClassOf(b);
    assert a in CLASSES[i] && b in CLASSES[j];
    if x :| 0 <= x < |CLASSES| && a in CLASSES[x] && b in CLASSES[x] {
      ClassIsOne(a, x);
      ClassIsOne(b, x);
    }
    if x, y :| 0 <= x < y < |CLASSES| && a in CLASSES[x] && b in CLASSES[y] {
      ClassIsOne(a, x);
      ClassIsOne(b, y);
    }
    PriorityOfClass(a);
    PriorityOfClass(b);
  }

  lemma PriorityOfClass(kind: JobKind)
    ensures Priority(kind) == [500, 400, 300, 250, 200, 100, 0][ClassOf(kind)]
  {
  }

  lemma AboveIsOutranking(order: Collation, a: Candidate, b: Candidate)
    ensures Above(order, a, b) <==> Outranks(order, a, b)
  {
    ClassesCompare(a.kind, b.kind);
  }

  /** What a caller who offers a candidate is told, and why. */
  predicate AnswersOffer(revision: string, order: Collation, s: State, c: Candidate, result: EnqueueResult) {
    match result
    case RevisionMismatch => c.protocolRevision != revision
    case ConflictLocked => c.protocolRevision == revision && c.conflictKey in s.inFlight
    case Superseded =>
      && c.protocolRevision == revision && c.conflictKey !in s.inFlight && c.conflictKey in s.pending
      && !Outranks(order, c, s.pending[c.conflictKey])
    case Accepted =>
      && c.protocolRevision == revision && c.conflictKey !in s.inFlight
      && (c.conflictKey in s.pending ==> Outranks(order, c, s.pending[c.conflictKey]))
  }

  lemma OfferAnswered(revision: string, order: Collation, s: State, c: Candidate, result: EnqueueResult)
    ensures Possible(revision, order, s, Enqueued(c, result)) <==> AnswersOffer(revision, order, s, c, result)
  {
    if c.conflictKey in s.pending {
      AboveIsOutranking(order, c, s.pending[c.conflictKey]);
    }
  }

  /** Of a job's own kind a fresher observation replaces the pending one and an older one does
      not. */
  lemma FresherReplaces(revision: string, order: Collation, s: State, c: Candidate, result: EnqueueResult)
    requires Possible(revision, order, s, Enqueued(c, result))
    requires c.protocolRevision == revision && c.conflictKey !in s.inFlight && c.conflictKey in s.pending
    requires s.pending[c.conflictKey].kind == c.kind
    ensures c.observedSlot > s.pending[c.conflictKey].observedSlot ==> result == Accepted
    ensures c.observedSlot < s.pending[c.conflictKey].observedSlot ==> result == Superseded
  {
    OfferAnswered(revision, order, s, c, result);
    ClassesCompare(c.kind, c.kind);
  }

  /** Nothing pending is of a more urgent class than a popped candidate; nothing of its class was
      observed later; and nothing of its class and slot has a greater id. */
  ghost predicate MostUrgent(order: Collation, s: State, c: Candidate) {
    forall key :: key in s.pending ==>
      && !MoreUrgent(s.pending[key].kind, c.kind)
      && (SameClass(s.pending[key].kind, c.kind) ==>
            && s.pending[key].observedSlot <= c.observedSlot
            && (s.pending[key].observedSlot == c.observedSlot ==> order(s.pending[key].id) <= order(c.id)))
  }

  lemma PoppedIsMostUrgent(revision: string, order: Collation, s: State, c: Candidate)
    requires Possible(revision, order, s, Popped(c))
    ensures MostUrgent(order, s, c)
  {
    forall key | key in s.pending ensures !Outranks(order, s.pending[key], c) {
      AboveIsOutranking(order, s.pending[key], c);
    }
  }

  // ----- every sequence of operations -----

  function StateAfter(actions: seq<Action>): State {
    if actions == [] then EMPTY else After(StateAfter(actions[..|actions| - 1]), actions[|actions| - 1])
  }

  predicate IsRun(revision: string, order: Collation, actions: seq<Action>) {
    actions == [] ||
    (var before := actions[..|actions| - 1];
     IsRun(revision, order, before) && Possible(revision, order, StateAfter(before), actions[|actions| - 1]))
  }

  /** A key is never both pending and in flight, and is filed under its own candidate. */
  predicate Consistent(revision: string, s: State) {
    && s.pending.Keys !! s.inFlight
    && forall key :: key in s.pending ==>
         s.pending[key].conflictKey == key && s.pending[key].protocolRevision == revision
  }

  lemma {:induction false} RunIsConsistent(revision: string, order: Collation, actions: seq<Action>)
    requires IsRun(revision, order, actions)
    ensures Consistent(revision, StateAfter(actions))
  {
    if actions != [] {
      RunIsConsistent(revision, order, actions[..|actions| - 1]);
    }
  }

  lemma {:induction false} PrefixIsRun(revision: string, order: Collation, actions: seq<Action>, n: nat)
    requires IsRun(revision, order, actions) && n <= |actions|
    ensures IsRun(revision, order, actions[..n])
  {
    if n < |actions| {
      var before := actions[..|actions| - 1];
      PrefixIsRun(revision, order, before, n);
      assert before[..n] == actions[..n];
    } else {
      assert actions[..n] == actions;
    }
  }

  predicate Takes(a: Action, key: string) {
    (a.Popped? && a.candidate.conflictKey == key) || (a.Marked? && a.key == key)
  }

  predicate FinishedBetween(actions: seq<Action>, from: nat, to: nat, key: string) {
    exists m :: from < m < to && m < |actions| && actions[m] == Finished(key, true)
  }

  /** Once taken, a key stays in flight until it is finished. */
  lemma {:induction false} TakenStaysInFlight(revision: string, order: Collation, actions: seq<Action>, i: nat,
                                              key: string)
    requires IsRun(revision, order, actions) && i < |actions| && Takes(actions[i], key)
    requires !FinishedBetween(actions, i, |actions|, key)
    ensures key in StateAfter(actions).inFlight
  {
    var last := |actions| - 1;
    if i < last {
      var before := actions[..last];
      assert before[i] == actions[i];
      TakenStaysInFlight(revision, order, before, i, key);
    }
  }

  /** No candidate of a key is handed out twice without the key being finished in between. */
  lemma NoSecondPop(revision: string, order: Collation, actions: seq<Action>, i: nat, j: nat, key: string)
    requires IsRun(revision, order, actions) && i < j < |actions|
    requires Takes(actions[i], key) && actions[j].Popped? && actions[j].candidate.conflictKey == key
    ensures FinishedBetween(actions, i, j, key)
  {
    var before := actions[..j];
    PrefixIsRun(revision, order, actions, j);
    PrefixIsRun(revision, order, actions, j + 1);
    assert actions[..j + 1][..j] == before;
    RunIsConsistent(revision, order, before);
    if !FinishedBetween(before, i, j, key) {
      TakenStaysInFlight(revision, order, before, i, key);
      assert false;
    }
  }

  // ----- what is pending is the best offer -----

  /** The candidates offered for a key since it was last taken. */
  function Offers(actions: seq<Action>, key: string): seq<Candidate> {
    if actions == [] then []
    else
      var earlier, last := Offers(actions[..|actions| - 1], key), actions[|actions| - 1];
      if Takes(last, key) then []
      else if last.Enqueued? && last.candidate.conflictKey == key && last.result in {Accepted, Superseded}
      then earlier + [last.candidate]
      else earlier
  }

  /** Nothing offered ranks above it, and whatever was offered before it ranks below. */
  predicate FirstBest(order: Collation, offers: seq<Candidate>, c: Candidate) {
    exists n :: 0 <= n < |offers| && IsFirstBest(order, offers, c, n)
  }

  predicate IsFirstBest(order: Collation, offers: seq<Candidate>, c: Candidate, n: nat)
    requires n < |offers|
  {
    && offers[n] == c
    && (forall i :: 0 <= i < |offers| ==> !Above(order, offers[i], c))
    && (forall i :: 0 <= i < n ==> Above(order, c, offers[i]))
  }

  lemma AboveIsOrder(order: Collation, a: Candidate, b: Candidate, c: Candidate)
    ensures !Above(order, a, a) && !(Above(order, a, b) && Above(order, b, a))
    ensures Above(order, a, b) && !Above(order, c, b) ==> Above(order, a, c)
    ensures Above(order, a, b) && Above(order, b, c) ==> Above(order, a, c)
  {
  }

  lemma BetterOffer(order: Collation, offers: seq<Candidate>, best: Candidate, c: Candidate)
    requires FirstBest(order, offers, best)
    ensures FirstBest(order, offers + [c], if Above(order, c, best) then c else best)
  {
    var n :| 0 <= n < |offers| && IsFirstBest(order, offers, best, n);
    var more := offers + [c];
    if Above(order, c, best) {
      forall i | 0 <= i < |offers| ensures Above(order, c, more[i]) && !Above(order, more[i], c) {
        AboveIsOrder(order, c, best, offers[i]);
        AboveIsOrder(order, c, offers[i], c);
      }
      AboveIsOrder(order, c, c, c);
      assert IsFirstBest(order, more, c, |offers|);
    } else {
      assert IsFirstBest(order, more, best, n);
    }
  }

  lemma {:induction false} PendingIsBestOffer(revision: string, order: Collation, actions: seq<Action>, key: string)
    requires IsRun(revision, order, actions)
    ensures var s := StateAfter(actions);
            && (key in s.pending <==> Offers(actions, key) != [])
            && (key in s.pending ==> FirstBest(order, Offers(actions, key), s.pending[key]))
  {
    if actions != [] {
      var last := actions[|actions| - 1];
      var before := actions[..|actions| - 1];
      PendingIsBestOffer(revision, order, before, key);
      RunIsConsistent(revision, order, before);
      if last.Enqueued? && last.candidate.conflictKey == key && last.result in {Accepted, Superseded} {
        var s := StateAfter(before);
        if key in s.pending {
          BetterOffer(order, Offers(before, key), s.pending[key], last.candidate);
        } else {
          AboveIsOrder(order, last.candidate, last.candidate, last.candidate);
          assert IsFirstBest(order, [] + [last.candidate], last.candidate, 0);
        }
      }
    }
  }

  // ----- the same calls give the same answers -----

  /** Of two different candidates one ranks above the other. */
  predicate TellsApart(order: Collation, candidates: set<Candidate>) {
    forall a, b :: a in candidates && b in candidates && a != b ==> Above(order, a, b) || Above(order, b, a)
  }

  /** Two collations rank the candidates in the same way. */
  predicate RanksAlike(left: Collation, right: Collation, candidates: set<Candidate>) {
    forall a, b :: a in candidates && b in candidates ==> (Above(left, a, b) <==> Above(right, a, b))
  }

  /** The candidates that are not refused for their revision. */
  function Eligible(revision: string, candidates: seq<Candidate>): set<Candidate> {
    set c | c in candidates && c.protocolRevision == revision
  }

  predicate SameCall(a: Action, b: Action) {
    match a
    case Enqueued(c, _) => b.Enqueued? && b.candidate == c
    case Popped(_) => b.Popped? || b.FoundNothing?
    case FoundNothing => b.Popped? || b.FoundNothing?
    case Marked(key) => b == a
    case Finished(key, _) => b.Finished? && b.key == key
  }

  predicate SameCalls(a: seq<Action>, b: seq<Action>) {
    |a| == |b| && forall i :: 0 <= i < |a| ==> SameCall(a[i], b[i])
  }

  predicate OffersOnly(revision: string, actions: seq<Action>, pool: set<Candidate>) {
    forall i :: 0 <= i < |actions| && actions[i].Enqueued? && actions[i].candidate.protocolRevision == revision ==>
      actions[i].candidate in pool
  }

  lemma {:induction false} PendingWasOffered(revision: string, order: Collation, actions: seq<Action>,
                                             pool: set<Candidate>, key: string)
    requires IsRun(revision, order, actions) && OffersOnly(revision, actions, pool)
    requires key in StateAfter(actions).pending
    ensures StateAfter(actions).pending[key] in pool
  {
    var before, last := actions[..|actions| - 1], actions[|actions| - 1];
    if last.Enqueued? && last.result == Accepted && last.candidate.conflictKey == key {
      assert StateAfter(actions).pending[key] == last.candidate;
    } else {
      PendingWasOffered(revision, order, before, pool, key);
    }
  }

  /** The two schedulers, given the same calls, answer every one of them alike, as long as
      their collations tell the offered candidates apart and rank them alike. */
  lemma {:induction false} SameCallsSameAnswers(revision: string, left: Collation, right: Collation,
                                                pool: set<Candidate>, a: seq<Action>, b: seq<Action>)
    requires IsRun(revision, left, a) && IsRun(revision, right, b) && SameCalls(a, b)
    requires OffersOnly(revision, a, pool) && TellsApart(left, pool) && RanksAlike(left, right, pool)
    ensures a == b
  {
    if a != [] {
      var n := |a| - 1;
      SameCallsSameAnswers(revision, left, right, pool, a[..n], b[..n]);
      var s := StateAfter(a[..n]);
      forall key | key in s.pending ensures s.pending[key] in pool {
        PendingWasOffered(revision, left, a[..n], pool, key);
      }
      SameAnswer(revision, left, right, pool, s, a[n], b[n]);
      assert a == a[..n] + [a[n]] && b == b[..n] + [b[n]];
    }
  }

  lemma SameAnswer(revision: string, left: Collation, right: Collation, pool: set<Candidate>, s: State, a: Action,
                   b: Action)
    requires SameCall(a, b) && Possible(revision, left, s, a) && Possible(revision, right, s, b)
    requires TellsApart(left, pool) && RanksAlike(left, right, pool)
    requires forall key :: key in s.pending ==> s.pending[key] in pool
    requires a.Enqueued? && a.candidate.protocolRevision == revision ==> a.candidate in pool
    ensures a == b
  {
    if a.Popped? && b.Popped? {
      var c, d := a.candidate, b.candidate;
      assert s.pending[d.conflictKey] == d && s.pending[c.conflictKey] == c;
    }
  }

  // ----- draining -----

  function EnqueueAll(revision: string, order: Collation, candidates: seq<Candidate>): State {
    if candidates == [] then EMPTY
    else
      var s, c := EnqueueAll(revision, order, candidates[..|candidates| - 1]), candidates[|candidates| - 1];
      After(s, Enqueued(c, ResultOf(revision, order, s, c)))
  }

  /** Popping until nothing is pending can give this list. */
  predicate Drains(order: Collation, s: State, out: seq<Candidate>)
    decreases out
  {
    if out == [] then s.pending == map[]
    else IsTop(order, s, out[0]) && Drains(order, After(s, Popped(out[0])), out[1..])
  }

  predicate Filed(s: State) {
    forall key :: key in s.pending ==> s.pending[key].conflictKey == key
  }

  ghost predicate Descends(order: Collation, out: seq<Candidate>) {
    forall i, j :: 0 <= i < j < |out| ==> Above(order, out[i], out[j])
  }

  lemma AfterPop(order: Collation, s: State, top: Candidate, c: Candidate)
    requires Filed(s) && IsTop(order, s, top)
    ensures c in After(s, Popped(top)).pending.Values <==> c in s.pending.Values && c != top
  {
    var rest := After(s, Popped(top)).pending;
    if c in s.pending.Values && c != top {
      assert c.conflictKey in rest && rest[c.conflictKey] == c;
    }
    if c in rest.Values {
      assert c.conflictKey in rest && s.pending[c.conflictKey] == c;
    }
  }

  /** A drained list holds exactly what was pending. */
  lemma {:induction false} DrainHolds(order: Collation, s: State, out: seq<Candidate>, c: Candidate)
    requires Filed(s) && Drains(order, s, out)
    ensures c in out <==> c in s.pending.Values
    decreases out
  {
    if out != [] {
      AfterPop(order, s, out[0], c);
      DrainHolds(order, After(s, Popped(out[0])), out[1..], c);
      assert out == [out[0]] + out[1..];
    }
  }

  /** And holds it highest first. */
  lemma {:induction false} DrainSorts(order: Collation, s: State, out: seq<Candidate>)
    requires Filed(s) && TellsApart(order, s.pending.Values) && Drains(order, s, out)
    ensures Descends(order, out)
    decreases out
  {
    if out != [] {
      var rest := After(s, Popped(out[0]));
      forall c ensures c in rest.pending.Values <==> c in s.pending.Values && c != out[0] {
        AfterPop(order, s, out[0], c);
      }
      DrainSorts(order, rest, out[1..]);
      forall i, j | 0 <= i < j < |out| ensures Above(order, out[i], out[j]) {
        var c := out[1..][j - 1];
        if i > 0 {
          assert out[i] == out[1..][i - 1];
        } else {
          DrainHolds(order, rest, out[1..], c);
          TopIsAbove(order, s, out[0], c);
        }
      }
    }
  }

  lemma TopIsAbove(order: Collation, s: State, top: Candidate, c: Candidate)
    requires Filed(s) && IsTop(order, s, top) && c in s.pending.Values && c != top
    requires TellsApart(order, s.pending.Values)
    ensures Above(order, top, c)
  {
    assert s.pending[c.conflictKey] == c;
    assert top in s.pending.Values;
  }

  /** There is one descending list of given candidates. */
  lemma {:induction false} DescentIsUnique(order: Collation, left: seq<Candidate>, right: seq<Candidate>)
    requires Descends(order, left) && Descends(order, right)
    requires forall c :: c in left <==> c in right
    ensures left == right
  {
    assert (left != [] ==> left[0] in left) && (right != [] ==> right[0] in right);
    if left != [] {
      SameHead(order, left, right);
      forall c ensures c in left[1..] <==> c in right[1..] {
        TailOf(order, left, c);
        TailOf(order, right, c);
      }
      DescentIsUnique(order, left[1..], right[1..]);
      assert left == [left[0]] + left[1..] && right == [right[0]] + right[1..];
    }
  }

  lemma SameHead(order: Collation, left: seq<Candidate>, right: seq<Candidate>)
    requires left != [] && right != [] && Descends(order, left) && Descends(order, right)
    requires forall c :: c in left <==> c in right
    ensures left[0] == right[0]
  {
    assert right[0] in right && left[0] in left;
    var i :| 0 <= i < |left| && left[i] == right[0];
    var j :| 0 <= j < |right| && right[j] == left[0];
    AboveIsOrder(order, left[0], right[0], left[0]);
  }

  lemma TailOf(order: Collation, out: seq<Candidate>, c: Candidate)
    requires out != [] && Descends(order, out)
    ensures c in out[1..] <==> c in out && c != out[0]
  {
    assert out == [out[0]] + out[1..];
    if c in out[1..] {
      var i :| 0 <= i < |out[1..]| && out[1..][i] == c;
      assert Above(order, out[0], out[i + 1]);
      AboveIsOrder(order, c, c, c);
    }
  }

  /** The candidates that survive: each beats every other one offered for its key. */
  predicate Wins(revision: string, order: Collation, candidates: seq<Candidate>, c: Candidate) {
    && c in candidates && c.protocolRevision == revision
    && forall d :: d in candidates && d.protocolRevision == revision && d.conflictKey == c.conflictKey && d != c ==>
         Above(order, c, d)
  }

  lemma {:induction false} EnqueuedWinners(revision: string, order: Collation, candidates: seq<Candidate>)
    requires TellsApart(order, Eligible(revision, candidates))
    ensures var s := EnqueueAll(revision, order, candidates);
            && s.inFlight == {} && Filed(s)
            && (forall key :: key in s.pending ==> Wins(revision, order, candidates, s.pending[key]))
            && (forall c :: c in candidates && c.protocolRevision == revision ==> c.conflictKey in s.pending)
  {
    if candidates != [] {
      var earlier, c := candidates[..|candidates| - 1], candidates[|candidates| - 1];
      assert candidates == earlier + [c];
      EnqueuedWinners(revision, order, earlier);
      var s, t := EnqueueAll(revision, order, earlier), EnqueueAll(revision, order, candidates);
      forall key | key in t.pending ensures Wins(revision, order, candidates, t.pending[key]) {
        var w := t.pending[key];
        forall d | d in candidates && d.protocolRevision == revision && d.conflictKey == w.conflictKey && d != w
          ensures Above(order, w, d)
        {
          if key in s.pending {
            AboveIsOrder(order, w, s.pending[key], d);
          }
        }
      }
    }
  }

  lemma PendingAreWinners(revision: string, order: Collation, candidates: seq<Candidate>, c: Candidate)
    requires TellsApart(order, Eligible(revision, candidates))
    ensures c in EnqueueAll(revision, order, candidates).pending.Values <==> Wins(revision, order, candidates, c)
  {
    EnqueuedWinners(revision, order, candidates);
    var s := EnqueueAll(revision, order, candidates);
    if Wins(revision, order, candidates, c) {
      var w := s.pending[c.conflictKey];
      AboveIsOrder(order, c, w, c);
    }
  }

  /** Whatever order the same candidates arrive in, and whichever language drains them, they
      come out in the same order, highest rank first. */
  lemma DrainIgnoresArrival(revision: string, left: Collation, right: Collation, xs: seq<Candidate>, ys: seq<Candidate>,
      outX: seq<Candidate>, outY: seq<Candidate>)
    requires multiset(xs) == multiset(ys)
    requires TellsApart(left, Eligible(revision, xs)) && RanksAlike(left, right, Eligible(revision, xs))
    requires Drains(left, EnqueueAll(revision, left, xs), outX)
    requires Drains(right, EnqueueAll(revision, right, ys), outY)
    ensures outX == outY && Descends(left, outX)
    ensures forall c :: c in outX <==> Wins(revision, left, xs, c)
  {
    assert forall c :: c in xs <==> c in multiset(xs);
    assert forall c :: c in ys <==> c in multiset(ys);
    DrainGives(revision, left, xs, outX);
    assert Eligible(revision, xs) == Eligible(revision, ys);
    DrainGives(revision, right, ys, outY);
    forall c ensures Wins(revision, left, xs, c) <==> Wins(revision, right, ys, c) {
    }
    assert Descends(left, outY) by {
      forall i, j | 0 <= i < j < |outY| ensures Above(left, outY[i], outY[j]) {
        assert Wins(revision, right, ys, outY[i]) && Wins(revision, right, ys, outY[j]);
      }
    }
    DescentIsUnique(left, outX, outY);
  }

  lemma DrainGives(revision: string, order: Collation, candidates: seq<Candidate>, out: seq<Candidate>)
    requires TellsApart(order, Eligible(revision, candidates))
    requires Drains(order, EnqueueAll(revision, order, candidates), out)
    ensures Descends(order, out)
    ensures forall c :: c in out <==> Wins(revision, order, candidates, c)
  {
    var s := EnqueueAll(revision, order, candidates);
    EnqueuedWinners(revision, order, candidates);
    forall c ensures c in s.pending.Values <==> Wins(revision, order, candidates, c) {
      PendingAreWinners(revision, order, candidates, c);
    }
    forall c ensures c in out <==> c in s.pending.Values {
      DrainHolds(order, s, out, c);
    }
    DrainSorts(order, s, out);
  }
}
