/** The TypeScript scheduler: a map that remembers insertion order, and a set. */
module TypeScriptScheduler {
  import opened Wrappers
  import opened Scheduling
  import opened SchedulerRuns

  class Scheduler {
    const protocolRevision: string
    const order: Collation
    var keys: seq<string>
    var pending: map<string, Candidate>
    var inFlight: set<string>

    ghost predicate Valid()
      reads this
    {
      && NoRepeats(keys) && (forall key :: key in keys <==> key in pending)
      && Consistent(protocolRevision, Now())
    }

    ghost function Now(): State
      reads this
    {
      State(pending, inFlight)
    }

    constructor (protocolRevision: string, order: Collation)
      ensures Valid() && Now() == EMPTY && keys == []
      ensures this.protocolRevision == protocolRevision && this.order == order
    {
      this.protocolRevision := protocolRevision;
      this.order := order;
      keys := [];
      pending := map[];
      inFlight := {};
    }

    method Enqueue(candidate: Candidate) returns (result: EnqueueResult)
      requires Valid()
      modifies this
      ensures Valid()
      ensures TypeScriptStep(protocolRevision, order, old(Now()), old(keys), Enqueued(candidate, result))
      ensures Now() == After(old(Now()), Enqueued(candidate, result))
      ensures AnswersOffer(protocolRevision, order, old(Now()), candidate, result)
      ensures keys == KeysNext(old(keys), Enqueued(candidate, result))
    {
      OfferAnswered(protocolRevision, order, Now(), candidate, ResultOf(protocolRevision, order, Now(), candidate));
      if candidate.protocolRevision != protocolRevision {
        return RevisionMismatch;
      }
      var key := candidate.conflictKey;
      if key in inFlight {
        return ConflictLocked;
      }
      if key in pending && !Above(order, candidate, pending[key]) {
        return Superseded;
      }
      keys := if key in pending then keys else keys + [key];
      pending := pending[key := candidate];
      result := Accepted;
    }

    /** The map is walked in insertion order; of equal candidates the first one wins. */
    method PopNext() returns (popped: Option<Candidate>)
      requires Valid()
      modifies this
      ensures Valid()
      ensures popped.Some? ==> MostUrgent(order, old(Now()), popped.value)
      ensures var action := match popped case Some(c) => Popped(c) case None => FoundNothing;
              && TypeScriptStep(protocolRevision, order, old(Now()), old(keys), action)
              && Now() == After(old(Now()), action) && keys == KeysNext(old(keys), action)
    {
      var selected := SelectFirst(order, pending, keys);
      if selected.None? {
        return None;
      }
      PoppedIsMostUrgent(protocolRevision, order, Now(), selected.value);
      var conflictKey := selected.value.conflictKey;
      keys, pending := Without(keys, conflictKey), pending - {conflictKey};
      inFlight := inFlight + {conflictKey};
      popped := selected;
    }

    method MarkInFlight(conflictKey: string)
      requires Valid()
      modifies this
      ensures Valid() && Now() == After(old(Now()), Marked(conflictKey))
      ensures keys == KeysNext(old(keys), Marked(conflictKey))
    {
      keys, pending := Without(keys, conflictKey), pending - {conflictKey};
      inFlight := inFlight + {conflictKey};
    }

    method Finish(conflictKey: string) returns (was: bool)
      requires Valid()
      modifies this
      ensures Valid()
      ensures TypeScriptStep(protocolRevision, order, old(Now()), old(keys), Finished(conflictKey, was))
      ensures Now() == After(old(Now()), Finished(conflictKey, was)) && keys == old(keys)
    {
      was := conflictKey in inFlight;
      inFlight := inFlight - {conflictKey};
    }
  }

  /** Nothing among the first `m` keys ranks above the candidate. */
  ghost predicate TopUpTo(order: Collation, pending: map<string, Candidate>, keys: seq<string>, m: nat, c: Candidate)
    requires m <= |keys|
  {
    forall i :: 0 <= i < m && keys[i] in pending ==> !Above(order, pending[keys[i]], c)
  }

  lemma NextKey(order: Collation, pending: map<string, Candidate>, keys: seq<string>, m: nat, best: Candidate)
    requires m < |keys| && keys[m] in pending && TopUpTo(order, pending, keys, m, best)
    ensures Above(order, pending[keys[m]], best) ==>
              BestAt(order, pending, keys, m, pending[keys[m]])
              && TopUpTo(order, pending, keys, m + 1, pending[keys[m]])
    ensures !Above(order, pending[keys[m]], best) ==> TopUpTo(order, pending, keys, m + 1, best)
  {
    var c := pending[keys[m]];
    AboveIsOrder(order, c, c, c);
    if Above(order, c, best) {
      forall i | 0 <= i < m && keys[i] in pending
        ensures Above(order, c, pending[keys[i]]) && !Above(order, pending[keys[i]], c)
      {
        AboveIsOrder(order, c, best, pending[keys[i]]);
        AboveIsOrder(order, c, pending[keys[i]], c);
      }
    }
  }

  /** The loop of `popNext`: only a strictly higher candidate replaces the selected one. */
  method SelectFirst(order: Collation, pending: map<string, Candidate>, keys: seq<string>)
    returns (selected: Option<Candidate>)
    requires Filed(State(pending, {})) && forall key :: key in keys <==> key in pending
    ensures selected.None? ==> pending == map[]
    ensures selected.Some? ==> IsTop(order, State(pending, {}), selected.value)
    ensures selected.Some? ==> FirstOfBest(order, pending, keys, selected.value)
  {
    selected := None;
    ghost var at := 0;
    for m := 0 to |keys|
      invariant selected.None? ==> m == 0
      invariant selected.Some? ==> at < m && BestAt(order, pending, keys, at, selected.value)
      invariant selected.Some? ==> TopUpTo(order, pending, keys, m, selected.value)
    {
      assert keys[m] in keys;
      var candidate := pending[keys[m]];
      if selected.None? {
        AboveIsOrder(order, candidate, candidate, candidate);
      } else {
        NextKey(order, pending, keys, m, selected.value);
      }
      if selected.None? || Above(order, candidate, selected.value) {
        selected, at := Some(candidate), m;
      }
    }
    if selected.Some? {
      forall key | key in pending ensures !Above(order, pending[key], selected.value) {
        assert key in keys;
      }
      assert keys[at] in pending;
    }
  }
}
