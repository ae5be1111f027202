/**
 What each language's scheduler does with equal candidates, and when the two can be
 told apart by their callers.
 */
module SchedulerRuns {
  import opened Scheduling

  // ----- the order in which a map was filled -----

  predicate NoRepeats(keys: seq<string>) {
    forall i, j :: 0 <= i < j < |keys| ==> keys[i] != keys[j]
  }

  /** Deleting a key leaves the others in their order. */
  function Without(keys: seq<string>, key: string): (others: seq<string>)
    requires NoRepeats(keys)
    ensures NoRepeats(others) && forall k :: k in others <==> k in keys && k != key
  {
    if keys == [] then []
    else if keys[0] == key then keys[1..]
    else
      assert keys == [keys[0]] + keys[1..];
      var rest := Without(keys[1..], key);
      assert keys[0] !in keys[1..];
      assert forall j :: 0 <= j < |rest| ==> rest[j] in keys[1..];
      [keys[0]] + rest
  }

  /** The keys of the pending candidates in the order in which a JavaScript map keeps them: a
      replaced candidate stays where the first one was. */
  function KeysNext(keys: seq<string>, a: Action): (next: seq<string>)
    requires NoRepeats(keys)
    ensures NoRepeats(next)
  {
    match a
    case Enqueued(c, result) => if result == Accepted && c.conflictKey !in keys then keys + [c.conflictKey] else keys
    case Popped(c) => Without(keys, c.conflictKey)
    case FoundNothing => keys
    case Marked(key) => Without(keys, key)
    case Finished(_, _) => keys
  }

  function KeysAfter(actions: seq<Action>): (keys: seq<string>)
    ensures NoRepeats(keys)
  {
    if actions == [] then [] else KeysNext(KeysAfter(actions[..|actions| - 1]), actions[|actions| - 1])
  }

  /** How many calls had been made when the key's present offers began. */
  function ArrivedAt(actions: seq<Action>, key: string): (n: nat)
    ensures n < |actions| || actions == []
  {
    if actions == [] then 0
    else if Offers(actions[..|actions| - 1], key) == [] then |actions| - 1
    else ArrivedAt(actions[..|actions| - 1], key)
  }

  lemma {:induction false} WithoutKeepsOrder(keys: seq<string>, key: string, i: nat, j: nat) returns (x: nat, y: nat)
    requires NoRepeats(keys) && i < j < |Without(keys, key)|
    ensures x < y < |keys| && keys[x] == Without(keys, key)[i] && keys[y] == Without(keys, key)[j]
  {
    var others := Without(keys, key);
    assert keys[0] != key ==> others == [keys[0]] + Without(keys[1..], key);
    if keys[0] == key {
      x, y := i + 1, j + 1;
    } else if i > 0 {
      x, y := WithoutKeepsOrder(keys[1..], key, i - 1, j - 1);
      x, y := x + 1, y + 1;
    } else {
      assert others[j] in others && others[j] != others[0] == keys[0];
      assert others[j] in keys;
      var k :| 0 <= k < |keys| && keys[k] == others[j];
      x, y := 0, k;
    }
  }

  ghost predicate ByArrival(actions: seq<Action>, keys: seq<string>) {
    && (forall key :: key in keys ==> Offers(actions, key) != [])
    && (forall i, j :: 0 <= i < j < |keys| ==> ArrivedAt(actions, keys[i]) < ArrivedAt(actions, keys[j]))
  }

  /** The insertion order is that in which the pending keys' offers began: a replacement does not
      move its key. */
  lemma {:induction false} KeysByArrival(revision: string, order: Collation, actions: seq<Action>)
    requires IsRun(revision, order, actions)
    ensures forall key :: key in KeysAfter(actions) <==> key in StateAfter(actions).pending
    ensures ByArrival(actions, KeysAfter(actions))
  {
    if actions != [] {
      var before, last := actions[..|actions| - 1], actions[|actions| - 1];
      KeysByArrival(revision, order, before);
      forall key
        ensures key in StateAfter(actions).pending <==> Offers(actions, key) != []
        ensures key in StateAfter(before).pending <==> Offers(before, key) != []
      {
        PendingIsBestOffer(revision, order, actions, key);
        PendingIsBestOffer(revision, order, before, key);
      }
      var keys, next := KeysAfter(before), KeysAfter(actions);
      forall i, j | 0 <= i < j < |next| ensures ArrivedAt(actions, next[i]) < ArrivedAt(actions, next[j]) {
        if last.Popped? || last.Marked? {
          var x, y := WithoutKeepsOrder(keys, if last.Popped? then last.candidate.conflictKey else last.key, i, j);
        } else {
          assert next[i] in keys;
        }
      }
    }
  }

  // ----- which of equal candidates is popped -----

  /** Of the candidates of its rank it has the last key. */
  predicate LastOfBest(order: Collation, pending: map<string, Candidate>, c: Candidate) {
    forall key :: key in pending && SameRank(order, pending[key], c) ==> order(key) <= order(c.conflictKey)
  }

  predicate BestAt(order: Collation, pending: map<string, Candidate>, keys: seq<string>, n: nat, c: Candidate)
    requires n < |keys|
  {
    && keys[n] in pending && pending[keys[n]] == c
    && forall i :: 0 <= i < n && keys[i] in pending ==> Above(order, c, pending[keys[i]])
  }

  /** Every candidate inserted before it ranks below it. */
  predicate FirstOfBest(order: Collation, pending: map<string, Candidate>, keys: seq<string>, c: Candidate) {
    exists n :: 0 <= n < |keys| && BestAt(order, pending, keys, n, c)
  }

  predicate RustStep(revision: string, order: Collation, s: State, a: Action) {
    Possible(revision, order, s, a) && (a.Popped? ==> LastOfBest(order, s.pending, a.candidate))
  }

  predicate TypeScriptStep(revision: string, order: Collation, s: State, keys: seq<string>, a: Action) {
    Possible(revision, order, s, a) && (a.Popped? ==> FirstOfBest(order, s.pending, keys, a.candidate))
  }

  predicate IsRustRun(revision: string, order: Collation, actions: seq<Action>) {
    actions == [] ||
    (var before := actions[..|actions| - 1];
     IsRustRun(revision, order, before) && RustStep(revision, order, StateAfter(before), actions[|actions| - 1]))
  }

  predicate IsTypeScriptRun(revision: string, order: Collation, actions: seq<Action>) {
    actions == [] ||
    (var before := actions[..|actions| - 1];
     && IsTypeScriptRun(revision, order, before)
     && TypeScriptStep(revision, order, StateAfter(before), KeysAfter(before), actions[|actions| - 1]))
  }

  lemma {:induction false} RustRunIsRun(revision: string, order: Collation, actions: seq<Action>)
    requires IsRustRun(revision, order, actions)
    ensures IsRun(revision, order, actions)
  {
    if actions != [] {
      RustRunIsRun(revision, order, actions[..|actions| - 1]);
    }
  }

  lemma {:induction false} TypeScriptRunIsRun(revision: string, order: Collation, actions: seq<Action>)
    requires IsTypeScriptRun(revision, order, actions)
    ensures IsRun(revision, order, actions)
  {
    if actions != [] {
      TypeScriptRunIsRun(revision, order, actions[..|actions| - 1]);
    }
  }

  // ----- when the schedulers agree -----

  /** Rust pops `a` rather than `b`, candidates of two keys. */
  predicate PopsBefore(order: Collation, a: Candidate, b: Candidate) {
    Above(order, a, b) || (SameRank(order, a, b) && order(a.conflictKey) > order(b.conflictKey))
  }

  /** Under one key both collations replace a candidate by another or both do not; of
      candidates under two keys TypeScript ranks the one higher that Rust pops first. */
  predicate Alike(left: Collation, right: Collation, a: Candidate, b: Candidate) {
    if a.conflictKey == b.conflictKey then Above(left, a, b) <==> Above(right, a, b)
    else PopsBefore(left, a, b) <==> Above(right, a, b)
  }

  ghost predicate AllAlike(left: Collation, right: Collation, pool: set<Candidate>) {
    forall a, b :: a in pool && b in pool ==> Alike(left, right, a, b)
  }

  /** Different keys have different places, as they do in Rust. */
  ghost predicate KeysApart(order: Collation, pool: set<Candidate>) {
    forall a, b :: a in pool && b in pool && a.conflictKey != b.conflictKey ==>
      order(a.conflictKey) != order(b.conflictKey)
  }

  lemma SameStep(revision: string, left: Collation, right: Collation, pool: set<Candidate>, s: State,
                 a: Action, b: Action)
    requires SameCall(a, b) && RustStep(revision, left, s, a) && Possible(revision, right, s, b)
    requires AllAlike(left, right, pool) && KeysApart(left, pool)
    requires forall key :: key in s.pending ==> s.pending[key] in pool && s.pending[key].conflictKey == key
    requires a.Enqueued? && a.candidate.protocolRevision == revision ==> a.candidate in pool
    ensures a == b
  {
    if a.Enqueued? && a.candidate.conflictKey in s.pending && a.candidate.protocolRevision == revision {
      assert Alike(left, right, a.candidate, s.pending[a.candidate.conflictKey]);
    }
    if a.Popped? && b.Popped? {
      var c, d := a.candidate, b.candidate;
      assert s.pending[d.conflictKey] == d && s.pending[c.conflictKey] == c;
      assert Alike(left, right, c, d);
    }
  }

  lemma {:induction false} AlikeAgree(revision: string, left: Collation, right: Collation, pool: set<Candidate>,
                                      a: seq<Action>, b: seq<Action>)
    requires IsRustRun(revision, left, a) && IsTypeScriptRun(revision, right, b) && SameCalls(a, b)
    requires OffersOnly(revision, a, pool) && AllAlike(left, right, pool) && KeysApart(left, pool)
    ensures a == b
  {
    if a != [] {
      var n := |a| - 1;
      AlikeAgree(revision, left, right, pool, a[..n], b[..n]);
      var s := StateAfter(a[..n]);
      RustRunIsRun(revision, left, a[..n]);
      RunIsConsistent(revision, left, a[..n]);
      forall key | key in s.pending ensures s.pending[key] in pool {
        PendingWasOffered(revision, left, a[..n], pool, key);
      }
      SameStep(revision, left, right, pool, s, a[n], b[n]);
      assert a == a[..n] + [a[n]] && b == b[..n] + [b[n]];
    }
  }

  // ----- runs that tell them apart -----

  /** Some calls, with no other candidates, get different answers from the two schedulers. */
  ghost predicate CanDiffer(revision: string, left: Collation, right: Collation, pool: set<Candidate>) {
    exists x, y :: RunsDiffer(revision, left, right, pool, x, y)
  }

  ghost predicate RunsDiffer(revision: string, left: Collation, right: Collation, pool: set<Candidate>,
                             x: seq<Action>, y: seq<Action>) {
    && IsRustRun(revision, left, x) && IsTypeScriptRun(revision, right, y) && SameCalls(x, y)
    && OffersOnly(revision, x, pool) && x != y
  }

  /** A run, with what it leaves. */
  datatype Trail = Trail(actions: seq<Action>, s: State, keys: seq<string>)

  ghost predicate IsTrail(revision: string, left: Collation, right: Collation, rust: bool, t: Trail) {
    && (if rust then IsRustRun(revision, left, t.actions) else IsTypeScriptRun(revision, right, t.actions))
    && t.s == StateAfter(t.actions) && t.keys == KeysAfter(t.actions)
  }

  lemma Extend(revision: string, left: Collation, right: Collation, rust: bool, t: Trail, a: Action) returns (u: Trail)
    requires IsTrail(revision, left, right, rust, t)
    requires if rust then RustStep(revision, left, t.s, a) else TypeScriptStep(revision, right, t.s, t.keys, a)
    requires NoRepeats(t.keys)
    ensures IsTrail(revision, left, right, rust, u)
    ensures u == Trail(t.actions + [a], After(t.s, a), KeysNext(t.keys, a))
  {
    u := Trail(t.actions + [a], After(t.s, a), KeysNext(t.keys, a));
    LastAction(t.actions, a);
    if rust {
      RustRunGrows(revision, left, t.actions, a);
    } else {
      TypeScriptRunGrows(revision, right, t.actions, a);
    }
  }

  lemma LastAction(actions: seq<Action>, a: Action)
    ensures StateAfter(actions + [a]) == After(StateAfter(actions), a)
    ensures KeysAfter(actions + [a]) == KeysNext(KeysAfter(actions), a)
  {
    assert (actions + [a])[..|actions|] == actions;
  }

  lemma RustRunGrows(revision: string, order: Collation, actions: seq<Action>, a: Action)
    requires IsRustRun(revision, order, actions) && RustStep(revision, order, StateAfter(actions), a)
    ensures IsRustRun(revision, order, actions + [a])
  {
    assert (actions + [a])[..|actions|] == actions;
  }

  lemma TypeScriptRunGrows(revision: string, order: Collation, actions: seq<Action>, a: Action)
    requires IsTypeScriptRun(revision, order, actions)
    requires TypeScriptStep(revision, order, StateAfter(actions), KeysAfter(actions), a)
    ensures IsTypeScriptRun(revision, order, actions + [a])
  {
    assert (actions + [a])[..|actions|] == actions;
  }

  /** Either scheduler accepts a first candidate. */
  lemma OneOffer(revision: string, left: Collation, right: Collation, rust: bool, a: Candidate) returns (t: Trail)
    requires a.protocolRevision == revision
    ensures IsTrail(revision, left, right, rust, t)
    ensures t == Trail([Enqueued(a, Accepted)], State(map[a.conflictKey := a], {}), [a.conflictKey])
  {
    t := Trail([], EMPTY, []);
    t := Extend(revision, left, right, rust, t, Enqueued(a, Accepted));
  }

  /** Two candidates of one key: only one of the schedulers lets the second replace the first. */
  lemma ReplacementDiffers(revision: string, left: Collation, right: Collation, a: Candidate, b: Candidate)
    returns (x: seq<Action>, y: seq<Action>)
    requires a.protocolRevision == b.protocolRevision == revision && a.conflictKey == b.conflictKey
    requires Above(left, a, b) != Above(right, a, b)
    ensures RunsDiffer(revision, left, right, {a, b}, x, y)
  {
    var t := OneOffer(revision, left, right, true, b);
    t := Extend(revision, left, right, true, t, Enqueued(a, ResultOf(revision, left, t.s, a)));
    var u := OneOffer(revision, left, right, false, b);
    u := Extend(revision, left, right, false, u, Enqueued(a, ResultOf(revision, right, u.s, a)));
    x, y := t.actions, u.actions;
    assert x[1] != y[1];
  }

  lemma TwoOffers(revision: string, left: Collation, right: Collation, rust: bool, a: Candidate, b: Candidate)
    returns (t: Trail)
    requires a.protocolRevision == b.protocolRevision == revision && a.conflictKey != b.conflictKey
    ensures IsTrail(revision, left, right, rust, t)
    ensures t.actions == [Enqueued(a, Accepted), Enqueued(b, Accepted)]
    ensures t.s == State(map[a.conflictKey := a, b.conflictKey := b], {}) && t.keys == [a.conflictKey, b.conflictKey]
  {
    t := OneOffer(revision, left, right, rust, a);
    t := Extend(revision, left, right, rust, t, Enqueued(b, Accepted));
  }

  /** Two candidates of two keys, of which Rust pops the second one offered and TypeScript does
      not rank that one above the first: it pops the first. */
  lemma PopsDiffer(revision: string, left: Collation, right: Collation, a: Candidate, b: Candidate)
    returns (x: seq<Action>, y: seq<Action>)
    requires a.protocolRevision == b.protocolRevision == revision && a.conflictKey != b.conflictKey
    requires PopsBefore(left, b, a) && !Above(right, b, a)
    ensures x == [Enqueued(a, Accepted), Enqueued(b, Accepted), Popped(b)] && IsRustRun(revision, left, x)
    ensures y == [Enqueued(a, Accepted), Enqueued(b, Accepted), Popped(a)] && IsTypeScriptRun(revision, right, y)
    ensures RunsDiffer(revision, left, right, {a, b}, x, y)
  {
    var t := TwoOffers(revision, left, right, true, a, b);
    t := Extend(revision, left, right, true, t, Popped(b));
    var u := TwoOffers(revision, left, right, false, a, b);
    assert BestAt(right, u.s.pending, u.keys, 0, a);
    u := Extend(revision, left, right, false, u, Popped(a));
    x, y := t.actions, u.actions;
    assert x[2] != y[2];
  }

  lemma UnlikeDiffer(revision: string, left: Collation, right: Collation, pool: set<Candidate>, a: Candidate,
                     b: Candidate)
    requires a in pool && b in pool && !Alike(left, right, a, b) && KeysApart(left, pool)
    requires forall c :: c in pool ==> c.protocolRevision == revision
    ensures CanDiffer(revision, left, right, pool)
  {
    var x, y;
    if a.conflictKey == b.conflictKey {
      x, y := ReplacementDiffers(revision, left, right, a, b);
    } else if PopsBefore(left, a, b) {
      x, y := PopsDiffer(revision, left, right, b, a);
    } else {
      x, y := PopsDiffer(revision, left, right, a, b);
    }
    assert RunsDiffer(revision, left, right, pool, x, y);
  }

  /** Over a pool of candidates the two schedulers answer all calls alike if and only if every
      two of the candidates are alike. */
  lemma SchedulersAgreeExactly(revision: string, left: Collation, right: Collation, pool: set<Candidate>)
    requires KeysApart(left, pool) && forall c :: c in pool ==> c.protocolRevision == revision
    ensures !CanDiffer(revision, left, right, pool) <==> AllAlike(left, right, pool)
  {
    if AllAlike(left, right, pool) {
      forall x, y | RunsDiffer(revision, left, right, pool, x, y) ensures false {
        AlikeAgree(revision, left, right, pool, x, y);
      }
    } else {
      var a, b :| a in pool && b in pool && !Alike(left, right, a, b);
      UnlikeDiffer(revision, left, right, pool, a, b);
    }
  }

  /** Two candidates of one id, kind and slot under the keys "k1" and "k2", offered in this order:
      Rust pops the second, TypeScript the first. */
  lemma RepeatedIdDiffers(left: Collation, right: Collation)
    requires left("k1") < left("k2")
    ensures var a := Candidate("id", LeverageLiquidation, "k1", "m", "t", 7, "r", "h");
            var b := a.(conflictKey := "k2");
            && IsRustRun("r", left, [Enqueued(a, Accepted), Enqueued(b, Accepted), Popped(b)])
            && IsTypeScriptRun("r", right, [Enqueued(a, Accepted), Enqueued(b, Accepted), Popped(a)])
  {
    var a := Candidate("id", LeverageLiquidation, "k1", "m", "t", 7, "r", "h");
    var x, y := PopsDiffer("r", left, right, a, a.(conflictKey := "k2"));
  }

  /** With an id of its own for every candidate, ordered alike by both languages, they are alike. */
  lemma DistinctIdsAreAlike(left: Collation, right: Collation, pool: set<Candidate>)
    requires forall a, b :: a in pool && b in pool && a != b ==> left(a.id) != left(b.id)
    requires forall a, b :: a in pool && b in pool ==> (left(a.id) > left(b.id) <==> right(a.id) > right(b.id))
    ensures AllAlike(left, right, pool)
  {
  }
}
