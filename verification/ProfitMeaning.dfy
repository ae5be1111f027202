/** What a plan means: every place it leads to holds the best score so far, and at its end a
    window is evaluated amount by amount. */
module ProfitMeaning {
  import opened Wrappers
  import opened Bytes
  import opened Amounts
  import opened SearchShape
  import opened ProfitPlan

  /** The largest of the amounts of a sequence with the highest score quoted for any of them. */
  ghost predicate Tops<T>(p: Problem<T>, seen: seq<nat>, best: nat) {
    && best in seen && p.Quoted(best)
    && forall a :: a in seen && p.Quoted(a) ==>
         && p.evaluate(a).score <= p.evaluate(best).score
         && (p.evaluate(a).score == p.evaluate(best).score ==> a <= best)
  }

  /** The ends of the place and its best amount have been seen and nothing else inside; the
      best amount is the top of all that was seen. */
  ghost predicate At<T>(p: Problem<T>, seen: seq<nat>, pl: PlaceData) {
    && pl.low in seen && pl.High() in seen
    && (forall a :: a in seen ==> !Inside(pl, a))
    && Tops(p, seen, pl.Best())
  }

  lemma FreshStep(pl: PlaceData, a: nat) returns (k: nat)
    requires a in FreshFrom(pl, 1)
    ensures 1 <= k < SEGMENTS && a == pl.Amount(k)
  {
    FreshAre(pl, 1, a);
    k :| 1 <= k < SEGMENTS && Grid(pl.spot.width, k) != pl.spot.at && a == pl.low + Grid(pl.spot.width, k);
  }

  lemma BestStepTops<T>(p: Problem<T>, seen: seq<nat>, pl: PlaceData, best: nat)
    requires pl.spot.width > LOCAL_WIDTH && Tops(p, seen, pl.Best()) && best == Next(p, pl).Best()
    ensures Tops(p, seen + FreshFrom(pl, 1), best)
  {
    assert pl.Amount(0) == pl.Best();
    var k := BestStep(p, pl, 0, 1);
    BestStepBeats(p, pl, 0, 1);
    ChoiceIsSeen(pl, k);
    assert p.Beats(best, pl.Best());
    forall a | a in FreshFrom(pl, 1) && p.Quoted(a) ensures p.Beats(best, a) {
      var j := FreshStep(pl, a);
    }
  }

  /** The amounts that are evaluated after a round in a place. */
  predicate Sampled(pl: PlaceData, a: nat) {
    a == pl.low || a == pl.High() || a == pl.Best() || a in FreshFrom(pl, 1)
  }

  lemma SpotIsSampled(pl: PlaceData, k: nat, a: nat)
    requires pl.spot.width > LOCAL_WIDTH && k <= SEGMENTS
    requires a == pl.Best() || a == pl.low + Grid(pl.spot.width, k)
    ensures Sampled(pl, a)
  {
    GridEnds(pl.spot.width);
    FreshAre(pl, 1, a);
  }

  lemma ChoiceIsSeen(pl: PlaceData, k: nat)
    requires pl.spot.width > LOCAL_WIDTH && k < SEGMENTS
    ensures pl.Amount(k) == pl.Best() || pl.Amount(k) in FreshFrom(pl, 1)
  {
    FreshAre(pl, 1, pl.Amount(k));
  }

  lemma LeftIs(s: Spot, b: nat) returns (k: nat)
    requires s.width > LOCAL_WIDTH && b <= s.width
    ensures k <= SEGMENTS && (Left(s, b) == s.at || Left(s, b) == Grid(s.width, k))
  {
    k := GridBelowIsLast(s.width, b, SEGMENTS, 0);
  }

  lemma RightIs(s: Spot, b: nat) returns (k: nat)
    requires s.width > LOCAL_WIDTH && b <= s.width
    ensures k <= SEGMENTS && (Right(s, b) == s.at || Right(s, b) == Grid(s.width, k))
  {
    k := GridAboveIsFirst(s.width, b, 0, SEGMENTS);
  }

  lemma NothingInside(pl: PlaceData, k: nat, a: nat)
    requires pl.spot.width > LOCAL_WIDTH && k < SEGMENTS
    requires a in FreshFrom(pl, 1) || !Inside(pl, a)
    ensures !Inside(PlaceAround(pl, k), a)
  {
    if Inside(PlaceAround(pl, k), a) {
      InsideAround(pl, k, a);
      assert false;
    }
  }

  lemma EndsAround(pl: PlaceData, k: nat, next: PlaceData) returns (i: nat, j: nat)
    requires pl.spot.width > LOCAL_WIDTH && k < SEGMENTS && next == PlaceAround(pl, k)
    ensures i <= SEGMENTS && (next.low == pl.Best() || next.low == pl.low + Grid(pl.spot.width, i))
    ensures j <= SEGMENTS && (next.High() == pl.Best() || next.High() == pl.low + Grid(pl.spot.width, j))
  {
    i := LeftIs(pl.spot, Choice(pl.spot, k));
    j := RightIs(pl.spot, Choice(pl.spot, k));
  }

  lemma NextIsSampled(pl: PlaceData, k: nat, next: PlaceData)
    requires pl.spot.width > LOCAL_WIDTH && k < SEGMENTS && next == PlaceAround(pl, k)
    ensures Sampled(pl, next.low) && Sampled(pl, next.High())
  {
    var i, j := EndsAround(pl, k, next);
    SpotIsSampled(pl, i, next.low);
    SpotIsSampled(pl, j, next.High());
  }

  lemma NextIsAt<T>(p: Problem<T>, seen: seq<nat>, pl: PlaceData, next: PlaceData)
    requires pl.spot.width > LOCAL_WIDTH && At(p, seen, pl) && next == Next(p, pl)
    ensures At(p, seen + FreshFrom(pl, 1), next)
  {
    var k, around := RestUnfolds(p, pl);
    BestStepTops(p, seen, pl, next.Best());
    NextIsSampled(pl, k, next);
    forall a | a in seen + FreshFrom(pl, 1) ensures !Inside(next, a) {
      NothingInside(pl, k, a);
    }
  }

  /** How far a search has come: what it has seen of its plan, and the place where it is. */
  datatype StageData<T> = Lost | Reached(p: Problem<T>, plan: seq<nat>, seen: seq<nat>, pl: PlaceData)

  ghost predicate OnPlan<T>(s: StageData<T>) {
    s.Reached? ==> At(s.p, s.seen, s.pl) && s.plan == s.seen + Rest(s.p, s.pl)
  }

  type Stage<T> = s: StageData<T> | OnPlan(s) witness Lost

  lemma RestStep<T>(p: Problem<T>, seen: seq<nat>, pl: PlaceData, next: PlaceData)
    requires pl.spot.width > LOCAL_WIDTH && p.Quoted(pl.Best()) && next == Next(p, pl)
    ensures seen + Rest(p, pl) == seen + FreshFrom(pl, 1) + Rest(p, next)
  {
    var k, around := RestUnfolds(p, pl);
  }

  /** A round leads from a place to the next. */
  lemma RoundLeads<T>(s: Stage<T>) returns (t: Stage<T>)
    requires s.Reached? && s.pl.spot.width > LOCAL_WIDTH
    ensures s.p.Quoted(s.pl.Best()) && t == Reached(s.p, s.plan, s.seen + FreshFrom(s.pl, 1), Next(s.p, s.pl))
  {
    var next := Next(s.p, s.pl);
    NextIsAt(s.p, s.seen, s.pl, next);
    RestStep(s.p, s.seen, s.pl, next);
    t := ReachedAt(s.p, s.plan, s.seen + FreshFrom(s.pl, 1), next);
  }

  lemma ReachedAt<T>(p: Problem<T>, plan: seq<nat>, seen: seq<nat>, pl: PlaceData) returns (s: Stage<T>)
    requires At(p, seen, pl) && plan == seen + Rest(p, pl)
    ensures s == Reached(p, plan, seen, pl)
  {
    s := Reached(p, plan, seen, pl);
  }

  // ----- from the slices to the last window -----

  lemma {:induction false} BestSliceTops<T>(p: Problem<T>, slices: seq<nat>, n: nat)
    requires n <= |slices| && Descending(slices)
    ensures var i := BestSlice(p, slices, n);
            if i == None then forall j :: 0 <= j < n ==> !p.Quoted(slices[j]) else Tops(p, slices[..n], slices[i.value])
  {
    if n > 0 {
      BestSliceTops(p, slices, n - 1);
      assert slices[..n] == slices[..n - 1] + [slices[n - 1]];
    }
  }

  lemma StartIsAt<T>(p: Problem<T>, slices: Slices, i: nat)
    requires BestSlice(p, slices, |slices|) == Some(i)
    ensures At(p, slices, Start(slices, i))
  {
    BestSliceTops(p, slices, |slices|);
    assert slices[..|slices|] == slices;
    forall a | a in slices ensures !Inside(Start(slices, i), a) {
      if Inside(Start(slices, i), a) {
        BetweenSlices(slices, i, a);
        assert false;
      }
    }
  }

  lemma StartIsReached<T>(p: Problem<T>, slices: Slices, i: nat, plan: seq<nat>) returns (s: Stage<T>)
    requires p.cap > 0 && slices == SlicesOf(p.cap) && BestSlice(p, slices, |slices|) == Some(i) && plan == Plan(p)
    ensures s == Reached(p, plan, slices, Start(slices, i))
  {
    StartIsAt(p, slices, i);
    s := ReachedAt(p, plan, slices, Start(slices, i));
  }

  /** The rounds lead to a window at most 64 wide, the new amounts of which are last. */
  lemma {:induction false} RoundsLead<T>(s: Stage<T>) returns (last: Stage<T>)
    requires s.Reached?
    ensures last.Reached? && last.p == s.p && last.plan == s.plan && last.pl.spot.width <= LOCAL_WIDTH
    decreases s.pl.spot.width
  {
    last := s;
    if s.pl.spot.width > LOCAL_WIDTH {
      last := RoundLeads(s);
      last := RoundsLead(last);
    }
  }

  /** A window at most 64 wide all of which is evaluated, and that holds the largest of the
      amounts with the best score measured anywhere. */
  ghost predicate Exhausted<T>(p: Problem<T>, seen: seq<nat>, low: nat, high: nat, best: nat) {
    && low <= best <= high <= low + 64
    && (forall a :: low <= a <= high ==> a in seen)
    && Tops(p, seen, best)
  }

  lemma {:induction false} BestOf<T>(p: Problem<T>, seen: seq<nat>, amounts: seq<nat>, best: nat) returns (b: nat)
    requires Tops(p, seen, best)
    ensures Tops(p, seen + amounts, b) && (b == best || b in amounts)
    decreases amounts
  {
    if amounts == [] {
      b := best;
      assert seen + amounts == seen;
    } else {
      var last := amounts[0];
      b := if p.Quoted(last) && p.Beats(last, best) then last else best;
      b := BestOf(p, seen + [last], amounts[1..], b);
      assert seen + [last] + amounts[1..] == seen + amounts;
    }
  }

  lemma WindowIsExhausted<T>(p: Problem<T>, s: Stage<T>) returns (best: nat)
    requires s.Reached? && s.p == p && s.pl.spot.width <= LOCAL_WIDTH
    ensures Exhausted(p, s.plan, s.pl.low, s.pl.High(), best)
  {
    var rest := WindowFrom(s.pl, s.pl.spot.width);
    best := BestOf(s.p, s.seen, rest, s.pl.Best());
    forall a: nat ensures a in rest <==> Inside(s.pl, a) {
      WindowIs(s.pl, s.pl.spot.width, a);
    }
  }

  /** Unless no slice is quoted, a search starts with the interval around the best one. */
  lemma FirstPlace<T>(p: Problem<T>) returns (i: nat, s: Stage<T>)
    requires exists a :: a in SlicesOf(p.cap) && p.Quoted(a)
    ensures p.cap > 0 && i < |SlicesOf(p.cap)| && BestSlice(p, SlicesOf(p.cap), |SlicesOf(p.cap)|) == Some(i)
    ensures Descending(SlicesOf(p.cap)) && SlicesOf(p.cap)[|SlicesOf(p.cap)| - 1] == 1
    ensures s == Reached(p, Plan(p), SlicesOf(p.cap), Start(SlicesOf(p.cap), i))
  {
    SlicesShape(p.cap);
    var slices := SlicesOf(p.cap);
    BestSliceTops(p, slices, |slices|);
    i := BestSlice(p, slices, |slices|).value;
    s := StartIsReached(p, slices, i, Plan(p));
  }

  /** Unless no slice is quoted, a whole plan exhausts a window that holds its best score. */
  lemma PlanExhausts<T>(p: Problem<T>) returns (low: nat, high: nat, best: nat)
    requires exists a :: a in SlicesOf(p.cap) && p.Quoted(a)
    ensures Exhausted(p, Plan(p), low, high, best)
  {
    var i, s := FirstPlace(p);
    var last := RoundsLead(s);
    best := WindowIsExhausted(p, last);
    low, high := last.pl.low, last.pl.High();
  }
}
