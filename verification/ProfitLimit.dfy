/** For which caps the 256 probes are enough, whatever the evaluator says. */
module ProfitLimit {
  import opened Wrappers
  import opened Bytes
  import opened Amounts
  import opened SearchShape
  import opened ProfitPlan
  import opened ProfitMeaning
  import opened ProfitBudget

  /** The least cap at which some evaluator makes the search want a 257th probe. */
  const LEAST_EXHAUSTIBLE: u64 := 355_283_970_603_672_461

  /** Some evaluator, none of whose quotes is profitable, exhausts the budget of a cap if and only
      if the worst of the cap exceeds it. */
  lemma ExhaustibleExactlyWhen(cap: u64)
    ensures (exists p: Problem<nat> :: p.cap == cap && |Plan(p)| > MAX_PROBES) <==> Worst(cap) > MAX_PROBES
    ensures Worst(cap) > MAX_PROBES ==>
              exists p: Problem<nat> :: p.cap == cap && |Plan(p)| > MAX_PROBES && NeverEnds(p)
  {
    var worst := WorstIsReached(cap);
    forall p: Problem<nat> | p.cap == cap ensures |Plan(p)| <= Worst(cap) {
      PlanWithinWorst(p);
    }
  }

  /** No amount fails, and none is profitable. */
  ghost predicate NeverEnds(p: Problem<nat>) {
    forall a: nat :: !p.evaluate(a).Fails? && !p.Profitable(a)
  }

  // ----- below the limit -----

  lemma FourRounds(n: nat)
    requires n > 0
    ensures Tight(n + 4) == 256 * Tight(n) - 85
  {
    assert Tight(n + 2) == 4 * Tight(n + 1) - 1;
    assert Tight(n + 3) == 4 * Tight(n + 2) - 1;
    assert Tight(n + 4) == 4 * Tight(n + 3) - 1;
  }

  lemma TightWidths()
    ensures Tight(25) == 66_615_744_488_188_587 && Tight(26) == 266_462_977_952_754_347
  {
    FourRounds(1);
    FourRounds(5);
    FourRounds(9);
    FourRounds(13);
    FourRounds(17);
    FourRounds(21);
  }

  lemma FirstSlices(cap: nat, slices: seq<nat>)
    requires cap > 0 && slices == SlicesOf(cap)
    ensures cap >= 2 ==> |slices| >= 2 && slices[1] == cap / 2
    ensures cap >= 4 ==> |slices| >= 3 && slices[2] == cap / 4
    ensures cap < 4 ==> |slices| <= 2
  {
    var h := Halvings(cap / 2, 15);
    assert Halvings(cap, 16) == [cap] + h;
    if cap >= 2 {
      assert h == [cap / 2] + Halvings(cap / 2 / 2, 14);
      if cap >= 4 {
        assert Halvings(cap / 2 / 2, 14)[0] == cap / 2 / 2;
      }
    }
  }

  function Pow2(n: nat): nat { if n == 0 then 1 else 2 * Pow2(n - 1) }

  lemma FourHalvings(n: nat)
    ensures Pow2(n + 4) == 16 * Pow2(n)
  {
    assert Pow2(n + 4) == 2 * Pow2(n + 3);
    assert Pow2(n + 2) == 2 * Pow2(n + 1);
  }

  /** A large value has all its halvings above 1. */
  lemma {:induction false} AllHalvings(value: nat, count: nat)
    requires count > 0 && value >= Pow2(count)
    ensures var h := Halvings(value, count); |h| == count && h[|h| - 1] > 1
  {
    if count > 1 {
      AllHalvings(value / 2, count - 1);
    }
  }

  lemma SpotCosts(s: Spot, path: Path)
    requires s.width <= Tight(26) - 2 && (Inner(s) || s.width <= Tight(26) - 7)
    ensures PathCost(s, path) <= 239
  {
    if Inner(s) {
      CheapCostBound(LevelData(s, 26), path);
    } else {
      EndCostBound(LevelData(s, 26), path);
    }
  }

  /** The interval a search below the limit starts to refine. */
  lemma StartSpot(cap: nat, slices: Slices, i: nat, s: Spot)
    requires 0 < cap < LEAST_EXHAUSTIBLE && slices == SlicesOf(cap) && i < |slices|
    requires s == Start(slices, i).spot
    ensures s.width <= Tight(26) - 2 && (Inner(s) || s.width <= Tight(26) - 7)
  {
    TightWidths();
    FirstSlices(cap, slices);
    SlicesShape(cap);
    if i >= 2 {
      assert slices[i - 1] <= slices[1];
    }
  }

  /** Below the limit the budget never runs out. */
  lemma BudgetSuffices(cap: nat)
    requires cap < LEAST_EXHAUSTIBLE
    ensures Worst(cap) <= MAX_PROBES
  {
    if cap > 0 {
      SlicesShape(cap);
      var slices := SlicesOf(cap);
      var i := WorstStart(cap, slices);
      var path := WorstHasPath(Start(slices, i).spot);
      StartSpot(cap, slices, i, Start(slices, i).spot);
      SpotCosts(Start(slices, i).spot, path);
    }
  }

  // ----- at the limit -----

  /** The interval below the second slice at the limit, and the round that leaves a tight one. */
  lemma FirstRound(s: Spot)
    requires s == SpotData(266_462_977_952_754_346, 88_820_992_650_918_115)
    ensures CountNew(s, 1) == 7 && Narrowed(s, Choice(s, 4)) == TightSpot(25)
  {
    TightWidths();
    GridWithTwo(s.width);
    CountNewIs(s, 1, 0);
    Around(s, 4);
  }

  lemma StartAtLimit(slices: Slices)
    requires slices == SlicesOf(LEAST_EXHAUSTIBLE)
    ensures |slices| == 17
    ensures Start(slices, 1).spot == SpotData(266_462_977_952_754_346, 88_820_992_650_918_115)
  {
    SixteenHalvings(LEAST_EXHAUSTIBLE);
    SlicesShape(LEAST_EXHAUSTIBLE);
    FirstSlices(LEAST_EXHAUSTIBLE, slices);
  }

  lemma SixteenHalvings(cap: nat)
    requires cap >= 65_536
    ensures |SlicesOf(cap)| == 17
  {
    FourHalvings(0);
    FourHalvings(4);
    FourHalvings(8);
    FourHalvings(12);
    AllHalvings(cap, 16);
  }

  /** At the limit it can: 17 slices, 26 rounds of seven and 58 amounts of a window. */
  lemma LimitIsExhaustible()
    ensures Worst(LEAST_EXHAUSTIBLE) > MAX_PROBES
  {
    SlicesShape(LEAST_EXHAUSTIBLE);
    var slices := SlicesOf(LEAST_EXHAUSTIBLE);
    StartAtLimit(slices);
    FirstRoundCosts(Start(slices, 1).spot);
    WorstSlice(LEAST_EXHAUSTIBLE, slices, 1);
  }

  lemma FirstRoundCosts(s: Spot)
    requires s == SpotData(266_462_977_952_754_346, 88_820_992_650_918_115)
    ensures WorstFrom(s) >= 240
  {
    FirstRound(s);
    TightCosts(25);
    OneMoreRound(s, 4, TightSpot(25), TightPath(25));
  }

  lemma OneMoreRound(s: Spot, k: nat, c: Spot, rest: Path)
    requires s.width > LOCAL_WIDTH && k < SEGMENTS && c == Narrowed(s, Choice(s, k))
    ensures WorstFrom(s) >= CountNew(s, 1) + PathCost(c, rest)
  {
    var path := LongerPath(s, k, c, rest);
    PathWithinWorst(s, path);
  }

  /** A cap and an evaluator for which the search gives up with its window unscanned. */
  lemma ExhaustedAtLimit() returns (p: Problem<nat>)
    ensures p.cap == LEAST_EXHAUSTIBLE && NeverEnds(p) && |Plan(p)| > MAX_PROBES
  {
    LimitIsExhaustible();
    p := WorstIsReached(LEAST_EXHAUSTIBLE);
  }

  // ----- what None means -----

  /** What the search has evaluated when it returns None.  Either its plan was finished: then
      nothing was quoted, or a window was evaluated amount by amount that holds the best score
      measured anywhere.  Or it was cut short after 256 amounts, and one of its plan is left. */
  lemma NoneMeans<T>(p: Problem<T>, trace: seq<nat>)
    requires trace == Affordable(Plan(p))
    ensures Distinct(trace) && |trace| <= MAX_PROBES
    ensures forall a :: a in trace ==> 1 <= a <= p.cap
    ensures forall a :: a in SlicesOf(p.cap) ==> a in trace
    ensures if |Plan(p)| <= MAX_PROBES
            then (forall a :: a in trace ==> !p.Quoted(a))
                 || exists low, high, best :: Exhausted(p, trace, low, high, best)
            else |trace| == MAX_PROBES && exists a :: a in Plan(p) && a !in trace
    ensures p.cap < LEAST_EXHAUSTIBLE ==> trace == Plan(p)
  {
    TraceShape(p, trace);
    if p.cap < LEAST_EXHAUSTIBLE {
      BudgetSuffices(p.cap);
      PlanWithinWorst(p);
    }
    if |Plan(p)| <= MAX_PROBES {
      FinishedMeans(p);
    } else {
      OneIsLeft(p, trace);
    }
  }

  lemma TraceShape<T>(p: Problem<T>, trace: seq<nat>)
    requires trace == Affordable(Plan(p))
    ensures Distinct(trace) && forall a :: a in SlicesOf(p.cap) ==> a in trace
    ensures forall a :: a in trace ==> 1 <= a <= p.cap
  {
    PlanShape(p);
    var plan := Plan(p);
    PrefixDistinct(plan, |trace|);
    if p.cap > 0 {
      SlicesShape(p.cap);
      assert SlicesOf(p.cap) <= trace;
    }
    forall a | a in trace ensures a in plan {
    }
  }

  lemma OneIsLeft<T>(p: Problem<T>, trace: seq<nat>)
    requires trace == Affordable(Plan(p)) && |Plan(p)| > MAX_PROBES
    ensures exists a :: a in Plan(p) && a !in trace
  {
    PlanShape(p);
    NextIsNew(Plan(p), MAX_PROBES);
  }

  lemma FinishedMeans<T>(p: Problem<T>)
    ensures || (forall a :: a in Plan(p) ==> !p.Quoted(a))
            || exists low, high, best :: Exhausted(p, Plan(p), low, high, best)
  {
    if a :| a in SlicesOf(p.cap) && p.Quoted(a) {
      var low, high, best := PlanExhausts(p);
    } else if p.cap > 0 {
      SlicesShape(p.cap);
      BestSliceTops(p, SlicesOf(p.cap), |SlicesOf(p.cap)|);
    }
  }
}
