/** A profitable amount that the search does not get to. */
module ProfitMissed {
  import opened Wrappers
  import opened Bytes
  import opened Amounts
  import opened SearchShape
  import opened ProfitPlan
  import opened ProfitMeaning
  import opened ProfitLimit

  /** The same answers, except for one amount. */
  ghost predicate Differ(p: Problem<nat>, q: Problem<nat>, x: nat) {
    p.cap == q.cap && forall a: nat :: a != x ==> p.evaluate(a) == q.evaluate(a)
  }

  lemma {:induction false} SameBestStep(p: Problem<nat>, q: Problem<nat>, x: nat, pl: PlaceData, k: nat, step: nat)
    requires Differ(p, q, x) && forall j: nat :: j < SEGMENTS ==> pl.Amount(j) != x
    requires k < SEGMENTS && p.Quoted(pl.Amount(k)) && 0 < step
    ensures q.Quoted(pl.Amount(k)) && BestStep(p, pl, k, step) == BestStep(q, pl, k, step)
    decreases SEGMENTS - step
  {
    if step < SEGMENTS {
      var best := if p.Quoted(pl.Amount(step)) && p.Beats(pl.Amount(step), pl.Amount(k)) then step else k;
      SameBestStep(p, q, x, pl, best, step + 1);
    }
  }

  /** An answer that is not yet known cannot change where a round leads. */
  lemma SameNext(p: Problem<nat>, q: Problem<nat>, x: nat, pl: PlaceData)
    requires Differ(p, q, x) && x !in FreshFrom(pl, 1) && x != pl.Best()
    requires pl.spot.width > LOCAL_WIDTH && p.Quoted(pl.Best())
    ensures q.Quoted(pl.Best()) && Next(p, pl) == Next(q, pl) && Next(p, pl).Best() != x
  {
    forall j: nat | j < SEGMENTS ensures pl.Amount(j) != x {
      ChoiceIsSeen(pl, j);
    }
    assert pl.Amount(0) == pl.Best();
    SameBestStep(p, q, x, pl, 0, 1);
  }

  ghost predicate SameUpTo(s: seq<nat>, t: seq<nat>, n: nat) {
    n < |s| && n < |t| && s[..n + 1] == t[..n + 1]
  }

  lemma RoundIsCausal(p: Problem<nat>, q: Problem<nat>, x: nat, pl: PlaceData, n: nat, rest: seq<nat>)
    returns (next: PlaceData)
    requires Differ(p, q, x) && p.Quoted(pl.Best()) && q.Quoted(pl.Best()) && x != pl.Best()
    requires pl.spot.width > LOCAL_WIDTH
    requires rest == Rest(p, pl) && CountNew(pl.spot, 1) <= n < |rest| && rest[n] == x
    ensures p.Quoted(next.Best()) && q.Quoted(next.Best()) && x != next.Best() && next.spot.width < pl.spot.width
    ensures rest == FreshFrom(pl, 1) + Rest(p, next) && Rest(q, pl) == FreshFrom(pl, 1) + Rest(q, next)
  {
    var amounts := FreshFrom(pl, 1);
    RestDistinct(p, pl);
    NextIsNew(rest, n);
    var k, j, other;
    k, next := RestUnfolds(p, pl);
    assert x !in amounts by {
      forall i | 0 <= i < |amounts| ensures amounts[i] != x {
        assert rest[..n][i] == amounts[i];
      }
    }
    SameNext(p, q, x, pl);
    j, other := RestUnfolds(q, pl);
  }

  /** The rest of a plan up to an amount does not depend on the answer for that amount. */
  lemma {:induction false} RestIsCausal(p: Problem<nat>, q: Problem<nat>, x: nat, pl: PlaceData, n: nat,
                                        rest: seq<nat>, other: seq<nat>)
    requires Differ(p, q, x) && p.Quoted(pl.Best()) && q.Quoted(pl.Best()) && x != pl.Best()
    requires rest == Rest(p, pl) && other == Rest(q, pl) && n < |rest| && rest[n] == x
    ensures SameUpTo(rest, other, n)
    decreases pl.spot.width
  {
    if pl.spot.width <= LOCAL_WIDTH {
      WindowIsSame(p, q, pl);
    } else if n < CountNew(pl.spot, 1) {
      RoundIsFirst(p, q, pl, n);
    } else {
      var next := RoundIsCausal(p, q, x, pl, n, rest);
      var t, u := Rest(p, next), Rest(q, next);
      RestIsCausal(p, q, x, next, n - CountNew(pl.spot, 1), t, u);
      PrefixAfter(FreshFrom(pl, 1), t, u, rest, other, n);
    }
  }

  lemma WindowIsSame(p: Problem<nat>, q: Problem<nat>, pl: PlaceData)
    requires p.Quoted(pl.Best()) && q.Quoted(pl.Best()) && pl.spot.width <= LOCAL_WIDTH
    ensures Rest(p, pl) == Rest(q, pl)
  {
  }

  lemma RoundIsFirst(p: Problem<nat>, q: Problem<nat>, pl: PlaceData, n: nat)
    requires p.Quoted(pl.Best()) && q.Quoted(pl.Best()) && pl.spot.width > LOCAL_WIDTH && n < CountNew(pl.spot, 1)
    ensures SameUpTo(Rest(p, pl), Rest(q, pl), n)
  {
    var k, next := RestUnfolds(p, pl);
    var j, other := RestUnfolds(q, pl);
    PrefixOf(FreshFrom(pl, 1), Rest(p, next), Rest(q, other), n);
  }

  lemma PrefixOf(s: seq<nat>, t: seq<nat>, u: seq<nat>, n: nat)
    requires n < |s|
    ensures SameUpTo(s + t, s + u, n)
  {
  }

  lemma PrefixAfter(s: seq<nat>, t: seq<nat>, u: seq<nat>, st: seq<nat>, su: seq<nat>, n: nat)
    requires |s| <= n && SameUpTo(t, u, n - |s|) && st == s + t && su == s + u
    ensures SameUpTo(st, su, n)
  {
    assert st[..n + 1] == s + t[..n - |s| + 1];
    assert su[..n + 1] == s + u[..n - |s| + 1];
  }

  // ----- the whole plan -----

  lemma {:induction false} SameBestSlice(p: Problem<nat>, q: Problem<nat>, x: nat, slices: seq<nat>, n: nat)
    requires Differ(p, q, x) && x !in slices && n <= |slices|
    ensures BestSlice(p, slices, n) == BestSlice(q, slices, n)
  {
    if n > 0 {
      SameBestSlice(p, q, x, slices, n - 1);
    }
  }

  lemma PlanUnfolds(p: Problem<nat>, slices: Slices, plan: seq<nat>) returns (i: nat)
    requires p.cap > 0 && slices == SlicesOf(p.cap) && plan == Plan(p) && |slices| < |plan|
    ensures BestSlice(p, slices, |slices|) == Some(i) && i < |slices| && p.Quoted(slices[i])
    ensures plan == slices + Rest(p, Start(slices, i))
  {
    i := BestSlice(p, slices, |slices|).value;
  }

  lemma PlanIs(p: Problem<nat>, slices: Slices, i: nat, plan: seq<nat>)
    requires p.cap > 0 && slices == SlicesOf(p.cap) && plan == Plan(p) && BestSlice(p, slices, |slices|) == Some(i)
    ensures plan == slices + Rest(p, Start(slices, i))
  {
  }

  /** A plan up to an amount does not depend on the answer for that amount. */
  lemma PlanIsCausal(p: Problem<nat>, q: Problem<nat>, x: nat, n: nat, slices: Slices, plan: seq<nat>, other: seq<nat>)
    requires Differ(p, q, x) && p.cap > 0 && slices == SlicesOf(p.cap) && x !in slices
    requires plan == Plan(p) && other == Plan(q) && |slices| <= n < |plan| && plan[n] == x
    ensures SameUpTo(plan, other, n)
  {
    SameBestSlice(p, q, x, slices, |slices|);
    var i := PlanUnfolds(p, slices, plan);
    var pl := Start(slices, i);
    PlanIs(q, slices, i, other);
    var rest, tail := Rest(p, pl), Rest(q, pl);
    RestIsCausal(p, q, x, pl, n - |slices|, rest, tail);
    PrefixAfter(slices, rest, tail, plan, other, n);
  }

  lemma SlicesAreFirst(slices: seq<nat>, plan: seq<nat>, n: nat)
    requires slices <= plan && |slices| <= n <= |plan|
    ensures forall a :: a in slices ==> a in plan[..n]
  {
    assert slices <= plan[..n];
  }

  /** The same problem with a profitable amount. */
  function WithProfit(p: Problem<nat>, x: nat): Problem<nat> {
    Problem(p.cap, p.minimum, a => if a == x then Quote(p.minimum, 0) else p.evaluate(a))
  }

  /** The 257th amount is never evaluated, whatever it would be worth. */
  lemma NextIsMissed(p: Problem<nat>, plan: seq<nat>, q: Problem<nat>)
    requires 0 < p.cap && NeverEnds(p) && plan == Plan(p) && |plan| > MAX_PROBES && q == WithProfit(p, plan[MAX_PROBES])
    ensures Affordable(Plan(q)) == plan[..MAX_PROBES] && plan[MAX_PROBES] in Plan(q)
    ensures forall a :: a in plan[..MAX_PROBES] ==> !q.evaluate(a).Fails? && !q.Profitable(a)
  {
    SlicesShape(p.cap);
    var slices := SlicesOf(p.cap);
    PlanShape(p);
    NextIsNew(plan, MAX_PROBES);
    SlicesAreFirst(slices, plan, MAX_PROBES);
    PlanIsCausal(p, q, plan[MAX_PROBES], MAX_PROBES, slices, plan, Plan(q));
    PrefixIsAffordable(plan, Plan(q));
    StillFruitless(p, plan[MAX_PROBES], plan[..MAX_PROBES]);
  }

  lemma StillFruitless(p: Problem<nat>, x: nat, amounts: seq<nat>)
    requires NeverEnds(p) && x !in amounts
    ensures forall a :: a in amounts ==> !WithProfit(p, x).evaluate(a).Fails? && !WithProfit(p, x).Profitable(a)
  {
    forall a | a in amounts ensures WithProfit(p, x).evaluate(a) == p.evaluate(a) {
    }
  }

  lemma PrefixIsAffordable(plan: seq<nat>, other: seq<nat>)
    requires SameUpTo(plan, other, MAX_PROBES)
    ensures Affordable(other) == plan[..MAX_PROBES] && plan[MAX_PROBES] in other
  {
    assert plan[..MAX_PROBES + 1][..MAX_PROBES] == other[..MAX_PROBES + 1][..MAX_PROBES];
    assert plan[..MAX_PROBES + 1][MAX_PROBES] == other[..MAX_PROBES + 1][MAX_PROBES];
  }

  /** At the limit the search can return None although the next amount of its plan is profitable:
      nothing that it evaluates is. */
  lemma MissedAtLimit() returns (q: Problem<nat>, x: nat)
    ensures q.cap == LEAST_EXHAUSTIBLE && |Affordable(Plan(q))| == MAX_PROBES
    ensures forall a :: a in Affordable(Plan(q)) ==> !q.evaluate(a).Fails? && !q.Profitable(a)
    ensures x in Plan(q) && q.Profitable(x)
  {
    var p := ExhaustedAtLimit();
    x := Plan(p)[MAX_PROBES];
    q := WithProfit(p, x);
    NextIsMissed(p, Plan(p), q);
  }
}
