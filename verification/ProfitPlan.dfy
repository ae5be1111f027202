/**
 The amounts the search evaluates, as a function of the cap and the evaluator: the
 geometric slices, the grid rounds around the best amount so far, and the last
 window. The code evaluates this plan in order until its budget of 256 is spent.
 */
module ProfitPlan {
  import opened Wrappers
  import opened Bytes
  import opened Amounts
  import opened SearchShape

  const MAX_PROBES: nat := 256

  /** What the evaluator says of an amount.  An amount is evaluated at most once, so
      a stateful evaluator is a function of the amount as far as the search can tell. */
  datatype Answer<T> = Fails(error: string) | NoQuote | Quote(score: u64, payload: T)

  /** What the caller asks: `evaluate` prices an amount, `minimum` is the least profit. */
  datatype Problem<T> = Problem(cap: u64, minimum: u64, evaluate: nat -> Answer<T>)
  {
    predicate Quoted(a: nat) { evaluate(a).Quote? }

    predicate Profitable(a: nat) { Quoted(a) && evaluate(a).score >= minimum }

    /** (score, amount) in lexicographic order. */
    predicate Beats(a: nat, b: nat)
      requires Quoted(a) && Quoted(b)
    {
      evaluate(a).score > evaluate(b).score || (evaluate(a).score == evaluate(b).score && a >= b)
    }
  }

  // ----- geometric slices -----

  /** value, value/2, value/4, ... down to 1, at most `count` terms. */
  function Halvings(value: nat, count: nat): seq<nat> {
    if value == 0 || count == 0 then [] else [value] + Halvings(value / 2, count - 1)
  }

  function SlicesOf(cap: nat): seq<nat> {
    var halvings := Halvings(cap, 16);
    if cap > 0 && halvings[|halvings| - 1] != 1 then halvings + [1] else halvings
  }

  lemma {:induction false} HalvingsDescend(value: nat, count: nat)
    requires value > 0 && count > 0
    ensures var h := Halvings(value, count);
            0 < |h| <= count && h[0] == value && h[|h| - 1] > 0 && Descending(h)
  {
    if value / 2 > 0 && count > 1 {
      HalvingsDescend(value / 2, count - 1);
      DescendingConcat([value], Halvings(value / 2, count - 1));
    }
  }

  /** The geometric slices: at most 17 different amounts from cap down to 1. */
  lemma SlicesShape(cap: nat)
    requires cap > 0
    ensures var s := SlicesOf(cap); 0 < |s| <= 17 && s[0] == cap && s[|s| - 1] == 1 && Descending(s)
  {
    var halvings := Halvings(cap, 16);
    HalvingsDescend(cap, 16);
    if halvings[|halvings| - 1] != 1 {
      DescendingConcat(halvings, [1]);
    }
  }

  /** Amounts from the largest down to 1. */
  type Slices = s: seq<nat> | s != [] && Descending(s) && s[|s| - 1] == 1
    ghost witness [1]

  // ----- a place -----

  /** An interval from `low` on, and the best amount so far in it. */
  datatype PlaceData = PlaceData(low: nat, spot: Spot)
  {
    function Best(): nat { low + spot.at }
    function High(): nat { low + spot.width }
    function Amount(k: nat): nat
      requires k < SEGMENTS
    {
      low + Choice(spot, k)
    }
  }

  /** The round's new amounts from a grid step on, in order. */
  function FreshFrom(pl: PlaceData, step: nat): (amounts: seq<nat>)
    ensures |amounts| == CountNew(pl.spot, step)
    decreases SEGMENTS - step
  {
    if step >= SEGMENTS then []
    else if Grid(pl.spot.width, step) == pl.spot.at then FreshFrom(pl, step + 1)
    else [pl.low + Grid(pl.spot.width, step)] + FreshFrom(pl, step + 1)
  }

  /** The choice that is best after the new amounts from a grid step on, if `k` was before. */
  function BestStep<T>(p: Problem<T>, pl: PlaceData, k: nat, step: nat): (best: nat)
    requires k < SEGMENTS && p.Quoted(pl.Amount(k)) && 0 < step
    ensures best < SEGMENTS && p.Quoted(pl.Amount(best))
    decreases SEGMENTS - step
  {
    if step >= SEGMENTS then k
    else if p.Quoted(pl.Amount(step)) && p.Beats(pl.Amount(step), pl.Amount(k)) then BestStep(p, pl, step, step + 1)
    else BestStep(p, pl, k, step + 1)
  }

  /** The interval between the neighbours of a choice. */
  function PlaceAround(pl: PlaceData, k: nat): (next: PlaceData)
    requires pl.spot.width > LOCAL_WIDTH && k < SEGMENTS
    ensures next.spot.width < pl.spot.width && next.Best() == pl.Amount(k)
  {
    var b := Choice(pl.spot, k);
    RoundNarrows(pl.spot, k);
    PlaceData(pl.low + Left(pl.spot, b), Narrowed(pl.spot, b))
  }

  /** The place after a round. */
  function Next<T>(p: Problem<T>, pl: PlaceData): (next: PlaceData)
    requires pl.spot.width > LOCAL_WIDTH && p.Quoted(pl.Best())
    ensures next.spot.width < pl.spot.width && p.Quoted(next.Best())
  {
    assert pl.Amount(0) == pl.Best();
    PlaceAround(pl, BestStep(p, pl, 0, 1))
  }

  /** The amounts of the last window that are new, from an offset down. */
  function WindowFrom(pl: PlaceData, offset: nat): (window: seq<nat>)
    decreases offset
  {
    if offset == 0 then []
    else if offset >= pl.spot.width || offset == pl.spot.at then WindowFrom(pl, offset - 1)
    else [pl.low + offset] + WindowFrom(pl, offset - 1)
  }

  /** All that is evaluated from a place on. */
  function Rest<T>(p: Problem<T>, pl: PlaceData): seq<nat>
    requires p.Quoted(pl.Best())
    decreases pl.spot.width
  {
    if pl.spot.width <= LOCAL_WIDTH then WindowFrom(pl, pl.spot.width)
    else FreshFrom(pl, 1) + Rest(p, Next(p, pl))
  }

  /** The best slice among the first `n`. */
  function BestSlice<T>(p: Problem<T>, slices: seq<nat>, n: nat): (i: Option<nat>)
    requires n <= |slices|
    ensures i.Some? ==> i.value < n && p.Quoted(slices[i.value])
  {
    if n == 0 then None
    else
      var earlier := BestSlice(p, slices, n - 1);
      if p.Quoted(slices[n - 1]) && (earlier == None || p.Beats(slices[n - 1], slices[earlier.value])) then Some(n - 1)
      else earlier
  }

  /** The interval between a slice's neighbours. */
  function Start(slices: Slices, i: nat): (pl: PlaceData)
    requires i < |slices|
    ensures pl.Best() == slices[i]
  {
    var low := if i + 1 < |slices| then slices[i + 1] else 1;
    var high := if i > 0 then slices[i - 1] else slices[0];
    PlaceData(low, SpotData(high - low, slices[i] - low))
  }

  function Plan<T>(p: Problem<T>): seq<nat> {
    if p.cap == 0 then []
    else
      SlicesShape(p.cap);
      var slices := SlicesOf(p.cap);
      match BestSlice(p, slices, |slices|)
      case None => slices
      case Some(i) => slices + Rest(p, Start(slices, i))
  }

  /** What the budget allows of a plan. */
  function Affordable(plan: seq<nat>): seq<nat> {
    if |plan| <= MAX_PROBES then plan else plan[..MAX_PROBES]
  }

  // ----- the amounts of a plan -----

  lemma {:induction false} GridBelowIsLast(width: nat, b: nat, step: nat, j: nat) returns (k: nat)
    requires width > LOCAL_WIDTH && j <= step <= SEGMENTS
    ensures k <= step && GridBelow(width, b, step) == Grid(width, k)
    ensures Grid(width, j) < b ==> Grid(width, j) <= GridBelow(width, b, step)
  {
    k := step;
    GridRises(width, j, step);
    GridEnds(width);
    if step > 0 && Grid(width, step) >= b {
      k := GridBelowIsLast(width, b, step - 1, if j == step then 0 else j);
    }
  }

  lemma {:induction false} GridAboveIsFirst(width: nat, b: nat, step: nat, j: nat) returns (k: nat)
    requires width > LOCAL_WIDTH && step <= j <= SEGMENTS && b <= width
    ensures step <= k <= SEGMENTS && GridAbove(width, b, step) == Grid(width, k)
    ensures Grid(width, j) > b ==> Grid(width, j) >= GridAbove(width, b, step)
    decreases SEGMENTS - step
  {
    k := step;
    GridRises(width, step, j);
    GridEnds(width);
    if step < SEGMENTS && Grid(width, step) <= b {
      k := GridAboveIsFirst(width, b, step + 1, if j == step then SEGMENTS else j);
    }
  }

  /** No grid amount, nor the old best, lies between the neighbours of an amount. */
  lemma NothingBetween(s: Spot, b: nat, j: nat)
    requires s.width > LOCAL_WIDTH && b <= s.width && j <= SEGMENTS
    ensures Grid(s.width, j) <= Left(s, b) || Grid(s.width, j) == b || Grid(s.width, j) >= Right(s, b)
    ensures s.at <= Left(s, b) || s.at == b || s.at >= Right(s, b)
    ensures Right(s, b) <= s.width
  {
    var below := GridBelowIsLast(s.width, b, SEGMENTS, j);
    var above := GridAboveIsFirst(s.width, b, 0, j);
    GridInside(s.width, above);
  }

  lemma {:induction false} FreshAre(pl: PlaceData, step: nat, a: nat)
    requires 0 < step
    ensures a in FreshFrom(pl, step) <==>
            exists j :: step <= j < SEGMENTS && Grid(pl.spot.width, j) != pl.spot.at
                        && a == pl.low + Grid(pl.spot.width, j)
    decreases SEGMENTS - step
  {
    if step < SEGMENTS {
      FreshAre(pl, step + 1, a);
    }
  }

  lemma {:induction false} WindowIs(pl: PlaceData, offset: nat, a: nat)
    ensures a in WindowFrom(pl, offset) <==>
            pl.low < a <= pl.low + offset && a < pl.High() && a != pl.Best()
    decreases offset
  {
    if offset > 0 {
      WindowIs(pl, offset - 1, a);
    }
  }

  lemma {:induction false} WindowCount(pl: PlaceData, offset: nat)
    requires offset <= pl.spot.width
    ensures |WindowFrom(pl, offset)| ==
            (if offset == pl.spot.width then (if offset == 0 then 0 else offset - 1) else offset)
            - (if 0 < pl.spot.at <= offset && pl.spot.at < pl.spot.width then 1 else 0)
    decreases offset
  {
    if offset > 0 {
      WindowCount(pl, offset - 1);
    }
  }

  lemma RestUnfolds<T>(p: Problem<T>, pl: PlaceData) returns (k: nat, next: PlaceData)
    requires p.Quoted(pl.Best()) && pl.spot.width > LOCAL_WIDTH
    ensures k < SEGMENTS && k == BestStep(p, pl, 0, 1) && next == PlaceAround(pl, k) == Next(p, pl)
    ensures p.Quoted(next.Best()) && next.spot.width < pl.spot.width
    ensures Rest(p, pl) == FreshFrom(pl, 1) + Rest(p, next)
  {
    assert pl.Amount(0) == pl.Best();
    k := BestStep(p, pl, 0, 1);
    next := PlaceAround(pl, k);
  }

  /** Everything evaluated from a place on lies inside its interval and is new. */
  lemma {:induction false} RestIsInside<T>(p: Problem<T>, pl: PlaceData, a: nat)
    requires p.Quoted(pl.Best()) && a in Rest(p, pl)
    ensures Inside(pl, a)
    decreases pl.spot.width
  {
    if pl.spot.width <= LOCAL_WIDTH {
      WindowIs(pl, pl.spot.width, a);
    } else {
      var k, next := RestUnfolds(p, pl);
      if a in FreshFrom(pl, 1) {
        FreshIsInside(pl, a);
      } else {
        RestIsInside(p, next, a);
        InsideAround(pl, k, a);
      }
    }
  }

  lemma FreshIsInside(pl: PlaceData, a: nat)
    requires pl.spot.width > LOCAL_WIDTH && a in FreshFrom(pl, 1)
    ensures Inside(pl, a)
  {
    FreshAre(pl, 1, a);
    var j :| 1 <= j < SEGMENTS && Grid(pl.spot.width, j) != pl.spot.at && a == pl.low + Grid(pl.spot.width, j);
    GridEnds(pl.spot.width);
    GridRises(pl.spot.width, 0, j);
    GridRises(pl.spot.width, j, SEGMENTS);
  }

  predicate Inside(pl: PlaceData, a: nat) { pl.low < a < pl.High() && a != pl.Best() }

  /** What lies strictly inside the next interval, its best amount aside, is inside this one
      and on none of this round's amounts. */
  lemma InsideAround(pl: PlaceData, k: nat, a: nat)
    requires pl.spot.width > LOCAL_WIDTH && k < SEGMENTS && Inside(PlaceAround(pl, k), a)
    ensures Inside(pl, a) && a !in FreshFrom(pl, 1)
  {
    var b := Choice(pl.spot, k);
    NothingBetween(pl.spot, b, 0);
    if a in FreshFrom(pl, 1) {
      FreshAre(pl, 1, a);
      var j :| 1 <= j < SEGMENTS && Grid(pl.spot.width, j) != pl.spot.at && a == pl.low + Grid(pl.spot.width, j);
      NothingBetween(pl.spot, b, j);
      assert false;
    }
  }

  lemma {:induction false} FreshDistinct(pl: PlaceData, step: nat, amounts: seq<nat>)
    requires pl.spot.width > LOCAL_WIDTH && 0 < step && amounts == FreshFrom(pl, step)
    ensures step < SEGMENTS ==> forall i :: 0 <= i < |amounts| ==> amounts[i] >= pl.low + Grid(pl.spot.width, step)
    ensures Distinct(amounts)
    decreases SEGMENTS - step
  {
    if step < SEGMENTS {
      var a, rest := pl.low + Grid(pl.spot.width, step), FreshFrom(pl, step + 1);
      FreshDistinct(pl, step + 1, rest);
      if step + 1 < SEGMENTS {
        GridRises(pl.spot.width, step, step + 1);
      }
      if Grid(pl.spot.width, step) != pl.spot.at {
        DistinctCons(a, rest);
        assert amounts == [a] + rest;
      }
    }
  }

  lemma {:induction false} WindowDistinct(pl: PlaceData, offset: nat, amounts: seq<nat>)
    requires amounts == WindowFrom(pl, offset)
    ensures forall i :: 0 <= i < |amounts| ==> amounts[i] <= pl.low + offset
    ensures Distinct(amounts)
    decreases offset
  {
    if offset > 0 {
      var rest := WindowFrom(pl, offset - 1);
      WindowDistinct(pl, offset - 1, rest);
      if offset < pl.spot.width && offset != pl.spot.at {
        DistinctCons(pl.low + offset, rest);
        assert amounts == [pl.low + offset] + rest;
      }
    }
  }

  lemma {:induction false} RestDistinct<T>(p: Problem<T>, pl: PlaceData)
    requires p.Quoted(pl.Best())
    ensures Distinct(Rest(p, pl))
    decreases pl.spot.width
  {
    if pl.spot.width <= LOCAL_WIDTH {
      WindowDistinct(pl, pl.spot.width, Rest(p, pl));
    } else {
      var k, next := RestUnfolds(p, pl);
      RestDistinct(p, next);
      FreshDistinct(pl, 1, FreshFrom(pl, 1));
      forall a | a in FreshFrom(pl, 1) ensures a !in Rest(p, next) {
        if a in Rest(p, next) {
          RestIsInside(p, next, a);
          InsideAround(pl, k, a);
          assert false;
        }
      }
      DistinctConcat(FreshFrom(pl, 1), Rest(p, next));
    }
  }

  /** A plan never repeats an amount, and stays within 1..=cap. */
  lemma PlanShape<T>(p: Problem<T>)
    ensures Distinct(Plan(p))
    ensures forall a :: a in Plan(p) ==> 1 <= a <= p.cap
  {
    if p.cap > 0 {
      var slices := SlicesOf(p.cap);
      SlicesShape(p.cap);
      DescendingIsDistinct(slices);
      match BestSlice(p, slices, |slices|)
      case None =>
      case Some(i) =>
        var rest := Rest(p, Start(slices, i));
        RestBesideSlices(p, slices, i);
        RestDistinct(p, Start(slices, i));
        DistinctConcat(slices, rest);
    }
  }

  lemma RestBesideSlices<T>(p: Problem<T>, slices: Slices, i: nat)
    requires i < |slices| && p.Quoted(slices[i])
    ensures forall a :: a in Rest(p, Start(slices, i)) ==> a !in slices && 1 <= a <= slices[0]
  {
    forall a | a in Rest(p, Start(slices, i)) ensures a !in slices && 1 <= a <= slices[0] {
      RestIsInside(p, Start(slices, i), a);
      BetweenSlices(slices, i, a);
    }
  }

  lemma BetweenSlices(slices: Slices, i: nat, a: nat)
    requires i < |slices| && Inside(Start(slices, i), a)
    ensures a !in slices && 1 <= a <= slices[0]
  {
    forall j | 0 <= j < |slices| ensures slices[j] != a {
    }
  }

  /** The chosen step beats the old best amount and every quoted grid amount. */
  lemma {:induction false} BestStepBeats<T>(p: Problem<T>, pl: PlaceData, from: nat, step: nat)
    requires from < SEGMENTS && p.Quoted(pl.Amount(from)) && 0 < step
    ensures var best := BestStep(p, pl, from, step);
            && (best == from || step <= best)
            && p.Beats(pl.Amount(best), pl.Amount(from))
            && forall j :: step <= j < SEGMENTS && p.Quoted(pl.Amount(j)) ==> p.Beats(pl.Amount(best), pl.Amount(j))
    decreases SEGMENTS - step
  {
    if step < SEGMENTS {
      var next := if p.Quoted(pl.Amount(step)) && p.Beats(pl.Amount(step), pl.Amount(from)) then step else from;
      BestStepBeats(p, pl, next, step + 1);
    }
  }
}
