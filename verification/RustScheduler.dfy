/** The Rust scheduler: an ordered map of pending candidates and a set of locked keys. */
module RustScheduler {
  import opened Wrappers
  import opened Scheduling
  import opened SchedulerRuns

  class Scheduler {
    const protocolRevision: string
    const order: Collation
    var pending: map<string, Candidate>
    var inFlight: set<string>

    ghost predicate Valid()
      reads this
    {
      Consistent(protocolRevision, Now())
    }

    ghost function Now(): State
      reads this
    {
      State(pending, inFlight)
    }

    constructor (protocolRevision: string, order: Collation)
      ensures Valid() && Now() == EMPTY
      ensures this.protocolRevision == protocolRevision && this.order == order
    {
      this.protocolRevision := protocolRevision;
      this.order := order;
      pending := map[];
      inFlight := {};
    }

    method Enqueue(candidate: Candidate) returns (result: EnqueueResult)
      requires Valid()
      modifies this
      ensures Valid()
      ensures RustStep(protocolRevision, order, old(Now()), Enqueued(candidate, result))
      ensures Now() == After(old(Now()), Enqueued(candidate, result))
      ensures AnswersOffer(protocolRevision, order, old(Now()), candidate, result)
    {
      OfferAnswered(protocolRevision, order, Now(), candidate, ResultOf(protocolRevision, order, Now(), candidate));
      if candidate.protocolRevision != protocolRevision {
        return RevisionMismatch;
      }
      if candidate.conflictKey in inFlight {
        return ConflictLocked;
      }
      var replace := if candidate.conflictKey !in pending then true
                     else Above(order, candidate, pending[candidate.conflictKey]);
      if replace {
        pending := pending[candidate.conflictKey := candidate];
        result := Accepted;
      } else {
        result := Superseded;
      }
    }

    /** The map is walked in the order of its keys; of equal candidates the last one wins. */
    method PopNext() returns (popped: Option<Candidate>)
      requires Valid()
      modifies this
      ensures Valid()
      ensures popped.Some? ==> MostUrgent(order, old(Now()), popped.value)
      ensures var action := match popped case Some(c) => Popped(c) case None => FoundNothing;
              RustStep(protocolRevision, order, old(Now()), action) && Now() == After(old(Now()), action)
    {
      var selected := MaxBy(order, pending);
      if selected.None? {
        return None;
      }
      PoppedIsMostUrgent(protocolRevision, order, Now(), selected.value);
      var conflictKey := selected.value.conflictKey;
      pending := pending - {conflictKey};
      inFlight := inFlight + {conflictKey};
      popped := selected;
    }

    method MarkInFlight(conflictKey: string)
      requires Valid()
      modifies this
      ensures Valid() && Now() == After(old(Now()), Marked(conflictKey))
    {
      pending := pending - {conflictKey};
      inFlight := inFlight + {conflictKey};
    }

    method Finish(conflictKey: string) returns (was: bool)
      requires Valid()
      modifies this
      ensures Valid()
      ensures RustStep(protocolRevision, order, old(Now()), Finished(conflictKey, was))
      ensures Now() == After(old(Now()), Finished(conflictKey, was))
    {
      was := conflictKey in inFlight;
      inFlight := inFlight - {conflictKey};
    }
  }

  /** The keys of an ordered map, as it is walked. */
  ghost predicate InOrder(order: Collation, pending: map<string, Candidate>, keys: seq<string>) {
    && (forall key :: key in keys <==> key in pending)
    && (forall i, j :: 0 <= i < j < |keys| ==> order(keys[i]) <= order(keys[j]))
  }

  /** The last of the highest candidates among the first `n` keys. */
  ghost predicate LastBest(order: Collation, pending: map<string, Candidate>, keys: seq<string>, n: nat, c: Candidate)
    requires n <= |keys|
  {
    && c.conflictKey in pending && pending[c.conflictKey] == c
    && forall i :: 0 <= i < n && keys[i] in pending ==>
         !Above(order, pending[keys[i]], c)
         && (SameRank(order, pending[keys[i]], c) ==> order(keys[i]) <= order(c.conflictKey))
  }

  lemma LastBestGrows(order: Collation, pending: map<string, Candidate>, keys: seq<string>, n: nat, best: Candidate)
    requires Filed(State(pending, {})) && InOrder(order, pending, keys)
    requires n < |keys| && keys[n] in pending && LastBest(order, pending, keys, n, best)
    ensures LastBest(order, pending, keys, n + 1,
                     if Above(order, best, pending[keys[n]]) then best else pending[keys[n]])
  {
    var c := pending[keys[n]];
    forall i | 0 <= i < n && keys[i] in pending ensures Above(order, best, c) || !Above(order, pending[keys[i]], c) {
      AboveIsOrder(order, pending[keys[i]], c, best);
    }
    AboveIsOrder(order, c, c, best);
  }

  /** `max_by` over the map: a later equal candidate replaces an earlier one. */
  method MaxBy(order: Collation, pending: map<string, Candidate>) returns (selected: Option<Candidate>)
    requires Filed(State(pending, {}))
    ensures selected.None? ==> pending == map[]
    ensures selected.Some? ==> IsTop(order, State(pending, {}), selected.value)
    ensures selected.Some? ==> LastOfBest(order, pending, selected.value)
  {
    var keys := KeysInOrder(order, pending);
    selected := None;
    for n := 0 to |keys|
      invariant selected.None? ==> n == 0
      invariant selected.Some? ==> LastBest(order, pending, keys, n, selected.value)
    {
      var candidate := pending[keys[n]];
      if selected.Some? {
        LastBestGrows(order, pending, keys, n, selected.value);
      } else {
        AboveIsOrder(order, candidate, candidate, candidate);
      }
      if selected.None? || !Above(order, selected.value, candidate) {
        selected := Some(candidate);
      }
    }
    if selected.Some? {
      forall key | key in pending
        ensures !Above(order, pending[key], selected.value)
        ensures SameRank(order, pending[key], selected.value) ==> order(key) <= order(selected.value.conflictKey)
      {
        assert key in keys;
      }
    }
  }

  method KeysInOrder(order: Collation, pending: map<string, Candidate>) returns (keys: seq<string>)
    ensures InOrder(order, pending, keys)
  {
    keys := [];
    var remaining := pending.Keys;
    while remaining != {}
      invariant forall key :: key in pending <==> key in keys || key in remaining
      invariant forall i, j :: 0 <= i < j < |keys| ==> order(keys[i]) <= order(keys[j])
      invariant forall i, key :: 0 <= i < |keys| && key in remaining ==> order(keys[i]) <= order(key)
      decreases |remaining|
    {
      var key := FirstKey(order, remaining);
      keys, remaining := keys + [key], remaining - {key};
    }
  }

  /** The first key of an ordered map. */
  method FirstKey(order: Collation, keys: set<string>) returns (first: string)
    requires keys != {}
    ensures first in keys && forall k :: k in keys ==> order(first) <= order(k)
  {
    first :| first in keys;
    var others := keys - {first};
    while others != {}
      invariant first in keys && others <= keys
      invariant forall k :: k in keys && k !in others ==> order(first) <= order(k)
    {
      var k :| k in others;
      if order(k) < order(first) {
        first := k;
      }
      others := others - {k};
    }
  }
}
