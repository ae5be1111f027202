/**
 The bounded adaptive search for a profitable liquidation amount: geometric
 probes, refinement of the best interval on an 8-segment grid, and an exact scan
 of the last 64-wide window, all on one budget of 256 evaluations.
 */
module ProfitSearch {
  import opened Wrappers
  import opened Bytes
  import opened Amounts
  import opened SearchShape
  import opened ProfitPlan
  import opened ProfitMeaning

  // ----- geometric probes -----

  lemma AppendHalving(out: seq<nat>, value: nat, count: nat)
    requires value > 0 && count > 0
    ensures out + [value] + Halvings(value / 2, count - 1) == out + Halvings(value, count)
  {
  }

  method Slices(cap: nat) returns (out: seq<nat>)
    ensures out == SlicesOf(cap)
  {
    out := [];
    var value := cap;
    while value > 0 && |out| < 16
      invariant |out| <= 16 && out + Halvings(value, 16 - |out|) == Halvings(cap, 16)
      decreases 16 - |out|
    {
      AppendHalving(out, value, 16 - |out|);
      out := out + [value];
      value := value / 2;
    }
    assert Halvings(value, 16 - |out|) == [] && out == Halvings(cap, 16);
    if cap > 0 && out[|out| - 1] != 1 {
      out := out + [1];
    }
  }

  // ----- ordered sets and maps -----

  /** The largest element of [low, limit), as BTreeSet::range(..).next_back(). */
  method LastBefore(visited: set<nat>, low: nat, limit: nat) returns (r: Option<nat>)
    ensures r == None ==> forall x :: x in visited ==> !(low <= x < limit)
    ensures r.Some? ==> r.value in visited && low <= r.value < limit
                        && forall x :: x in visited && low <= x < limit ==> x <= r.value
  {
    r := None;
    var rest := visited;
    while rest != {}
      invariant rest <= visited
      invariant r == None ==> forall x :: x in visited && x !in rest ==> !(low <= x < limit)
      invariant r.Some? ==> r.value in visited && low <= r.value < limit
                            && forall x :: x in visited && x !in rest && low <= x < limit ==> x <= r.value
      decreases rest
    {
      var x :| x in rest;
      if low <= x < limit && (r == None || r.value < x) {
        r := Some(x);
      }
      rest := rest - {x};
    }
  }

  /** The smallest element of (limit, high]. */
  method FirstAfter(visited: set<nat>, limit: nat, high: nat) returns (r: Option<nat>)
    ensures r == None ==> forall x :: x in visited ==> !(limit < x <= high)
    ensures r.Some? ==> r.value in visited && limit < r.value <= high
                        && forall x :: x in visited && limit < x <= high ==> r.value <= x
  {
    r := None;
    var rest := visited;
    while rest != {}
      invariant rest <= visited
      invariant r == None ==> forall x :: x in visited && x !in rest ==> !(limit < x <= high)
      invariant r.Some? ==> r.value in visited && limit < r.value <= high
                            && forall x :: x in visited && x !in rest && limit < x <= high ==> r.value <= x
      decreases rest
    {
      var x :| x in rest;
      if limit < x <= high && (r == None || x < r.value) {
        r := Some(x);
      }
      rest := rest - {x};
    }
  }

  /** (score, amount) in lexicographic order. */
  predicate AtMost(scores: map<nat, u64>, a: nat, b: nat)
    requires a in scores && b in scores
  {
    scores[a] < scores[b] || (scores[a] == scores[b] && a <= b)
  }

  /** The best-scoring amount of [low, high], the larger one on a tie. */
  method BestIn(scores: map<nat, u64>, low: nat, high: nat) returns (r: Option<nat>)
    ensures r == None ==> forall x :: x in scores ==> !(low <= x <= high)
    ensures r.Some? ==> r.value in scores && low <= r.value <= high
                        && forall x :: x in scores && low <= x <= high ==> AtMost(scores, x, r.value)
  {
    r := None;
    var rest := scores.Keys;
    while rest != {}
      invariant rest <= scores.Keys
      invariant r == None ==> forall x :: x in scores && x !in rest ==> !(low <= x <= high)
      invariant r.Some? ==> r.value in scores && low <= r.value <= high
                            && forall x :: x in scores && x !in rest && low <= x <= high ==> AtMost(scores, x, r.value)
      decreases rest
    {
      var x :| x in rest;
      if low <= x <= high && (r == None || AtMost(scores, r.value, x)) {
        r := Some(x);
      }
      rest := rest - {x};
    }
  }

  // ----- one probe -----

  /** None of the evaluated amounts ended the search. */
  ghost predicate Fruitless<T>(p: Problem<T>, trace: seq<nat>) {
    forall i :: 0 <= i < |trace| ==> !p.evaluate(trace[i]).Fails? && !p.Profitable(trace[i])
  }

  /** What a returned payload or error says: it came from the last amount evaluated,
      and no earlier one was profitable or failed. */
  ghost predicate Conclusive<T>(p: Problem<T>, trace: seq<nat>, r: Result<Option<T>, string>) {
    && |trace| > 0
    && Fruitless(p, trace[..|trace| - 1])
    && var last := trace[|trace| - 1];
       match r
       case Ok(Some(payload)) => p.Profitable(last) && p.evaluate(last).payload == payload
       case Ok(None) => false
       case Err(e) => p.evaluate(last) == Fails(e)
  }

  /** The locals the search shares by reference.  `trace` lists the evaluated amounts
      in order; the probe counter is its length. */
  datatype ProbeData<T> = ProbeData(problem: Problem<T>, visited: set<nat>, scores: map<nat, u64>, trace: seq<nat>)
  {
    function Probes(): nat { |trace| }

    predicate Spent() { Probes() >= MAX_PROBES }
  }

  ghost predicate Consistent<T>(d: ProbeData<T>) {
    && |d.trace| <= MAX_PROBES
    && Fruitless(d.problem, d.trace)
    && (forall a :: a in d.visited <==> a in d.trace)
    && (forall a :: a in d.scores <==> a in d.visited && d.problem.Quoted(a))
    && (forall a :: a in d.scores ==> d.scores[a] == d.problem.evaluate(a).score)
  }

  /** The state while nothing has ended the search. */
  type Probing<T> = d: ProbeData<T> | Consistent(d)
    witness ProbeData(Problem(0, 0, _ => NoQuote), {}, map[], [])

  /** The end of the search by a payload or an error. */
  datatype VerdictData<T> = VerdictData(problem: Problem<T>, trace: seq<nat>, r: Result<Option<T>, string>)

  type Verdict<T> = v: VerdictData<T> | |v.trace| <= MAX_PROBES && Conclusive(v.problem, v.trace, v.r)
    witness VerdictData(Problem(1, 0, _ => Fails("")), [1], Err(""))

  /** What every phase returns: the search goes on, or is over. */
  datatype Phase<T> = Continue(d: Probing<T>) | Stop(v: Verdict<T>)

  predicate Skipped<T>(d: ProbeData<T>, amount: nat) {
    amount == 0 || d.Spent() || amount in d.visited
  }

  /** The state after a probe that did not end the search. */
  ghost function After<T>(d: ProbeData<T>, amount: nat): ProbeData<T> {
    var answer := d.problem.evaluate(amount);
    if Skipped(d, amount) then d
    else
      d.(visited := d.visited + {amount}, trace := d.trace + [amount],
         scores := if answer.Quote? then d.scores[amount := answer.score] else d.scores)
  }

  /** probe_profit */
  method Probe<T>(d: Probing<T>, amount: nat) returns (phase: Phase<T>)
    ensures Skipped(d, amount) ==> phase == Continue(d)
    ensures phase.Continue? ==> phase.d == After(d, amount)
    ensures phase.Stop? ==> phase.v.problem == d.problem && phase.v.trace == d.trace + [amount]
  {
    if Skipped(d, amount) {
      return Continue(d);
    }
    var trace := d.trace + [amount];
    assert trace[..|trace| - 1] == d.trace;
    match d.problem.evaluate(amount)
    case Fails(e) =>
      phase := Stop(VerdictData(d.problem, trace, Err(e)));
    case NoQuote =>
      phase := Continue(d.(visited := d.visited + {amount}, trace := trace));
    case Quote(score, payload) =>
      if score >= d.problem.minimum {
        phase := Stop(VerdictData(d.problem, trace, Ok(Some(payload))));
      } else {
        phase := Continue(d.(visited := d.visited + {amount}, scores := d.scores[amount := score], trace := trace));
      }
  }

  /** What the search is to evaluate, in order. */
  type Schedule = s: seq<nat> | Distinct(s) && 0 !in s witness []

  /** Until the budget is spent, the first `n` amounts of the plan are what was evaluated. */
  ghost predicate Running<T>(d: ProbeData<T>, n: nat, plan: Schedule) {
    d.trace <= plan && (d.Spent() || d.Probes() == n)
  }

  /** A phase evaluated the plan up to an index, unless it ended the search. */
  ghost predicate Did<T>(d: ProbeData<T>, phase: Phase<T>, n: nat, plan: Schedule) {
    match phase
    case Continue(d') => d'.problem == d.problem && d.trace <= d'.trace && Running(d', n, plan)
    case Stop(v) => v.problem == d.problem && v.trace <= plan
  }

  /** From an index on the plan has these amounts. */
  ghost predicate Has(plan: seq<nat>, n: nat, amounts: seq<nat>) {
    n + |amounts| <= |plan| && forall i :: 0 <= i < |amounts| ==> plan[n + i] == amounts[i]
  }

  /** An amount is the next of the plan, or was evaluated before. */
  ghost predicate Due(trace: seq<nat>, amount: nat, n: nat, next: nat, plan: seq<nat>) {
    (next == n + 1 && n < |plan| && plan[n] == amount) || (next == n && amount in trace)
  }

  /** A probe that keeps to the plan. */
  method Take<T>(d: Probing<T>, amount: nat, ghost n: nat, ghost next: nat, ghost plan: Schedule)
    returns (phase: Phase<T>)
    requires Running(d, n, plan) && (!d.Spent() ==> Due(d.trace, amount, n, next, plan))
    ensures Did(d, phase, next, plan)
    ensures phase.Continue? ==> phase.d == After(d, amount)
  {
    phase := Probe(d, amount);
    if !d.Spent() && next == n + 1 {
      forall i | 0 <= i < n ensures d.trace[i] != amount {
        DistinctAt(plan, i, n);
      }
      assert plan[n] in plan;
    }
  }

  // ----- the phases -----

  /** The geometric probes always fit the budget. */
  method ProbeSlices<T>(d: Probing<T>, ghost plan: Schedule) returns (phase: Phase<T>)
    requires d.trace == [] && d.problem.cap > 0 && SlicesOf(d.problem.cap) <= plan
    ensures Did(d, phase, |SlicesOf(d.problem.cap)|, plan)
    ensures phase.Continue? ==> phase.d.trace == SlicesOf(d.problem.cap)
  {
    var out := Slices(d.problem.cap);
    SlicesShape(d.problem.cap);
    phase := Continue(d);
    for k := 0 to |out|
      invariant phase.Continue? && Did(d, phase, k, plan) && phase.d.Probes() <= k
    {
      phase := Take(phase.d, out[k], k, k + 1, plan);
      if phase.Stop? {
        return;
      }
    }
    assert phase.d.trace == plan[..|out|];
  }

  /** The ends of a place and its best amount have been evaluated. */
  ghost predicate Known(trace: seq<nat>, pl: PlaceData) {
    pl.low in trace && pl.High() in trace && pl.Best() in trace
  }

  /** The new amounts among the grid steps from one on; step 0 is the low end. */
  ghost function GridTodo(pl: PlaceData, step: nat): seq<nat> {
    FreshFrom(pl, if step == 0 then 1 else step)
  }

  method GridAmount(low: nat, width: nat, step: nat) returns (amount: nat)
    ensures amount == low + Grid(width, step)
  {
    TimesIsProduct(width, step);
    amount := low + width * step / SEGMENTS;
  }

  predicate IsNew(pl: PlaceData, step: nat) {
    0 < step < SEGMENTS && Grid(pl.spot.width, step) != pl.spot.at
  }

  lemma GridStep(pl: PlaceData, step: nat, amount: nat)
    requires step <= SEGMENTS && amount == pl.low + Grid(pl.spot.width, step)
    ensures IsNew(pl, step) ==> GridTodo(pl, step) == [amount] + GridTodo(pl, step + 1)
    ensures !IsNew(pl, step) ==>
              GridTodo(pl, step) == GridTodo(pl, step + 1)
              && (amount == pl.low || amount == pl.High() || amount == pl.Best())
  {
    GridEnds(pl.spot.width);
  }

  lemma KnownStays(trace: seq<nat>, trace': seq<nat>, pl: PlaceData)
    requires Known(trace, pl) && trace <= trace'
    ensures Known(trace', pl)
  {
  }

  lemma GridDue(pl: PlaceData, step: nat, amount: nat, trace: seq<nat>, n: nat, plan: seq<nat>, todo: seq<nat>)
    returns (next: nat, rest: seq<nat>)
    requires step <= SEGMENTS && amount == pl.low + Grid(pl.spot.width, step) && Known(trace, pl)
    requires todo == GridTodo(pl, step) && Has(plan, n, todo)
    ensures rest == GridTodo(pl, step + 1) && Has(plan, next, rest) && next + |rest| == n + |todo|
    ensures Due(trace, amount, n, next, plan)
  {
    GridStep(pl, step, amount);
    next, rest := n, GridTodo(pl, step + 1);
    if IsNew(pl, step) {
      HasNext(plan, n, amount, rest);
      next := n + 1;
    }
  }

  lemma HasNext(plan: seq<nat>, n: nat, amount: nat, rest: seq<nat>)
    requires Has(plan, n, [amount] + rest)
    ensures n < |plan| && plan[n] == amount && Has(plan, n + 1, rest)
  {
    assert ([amount] + rest)[0] == amount == plan[n + 0];
    forall i | 0 <= i < |rest| ensures plan[n + 1 + i] == rest[i] {
      assert ([amount] + rest)[1 + i] == rest[i];
    }
  }

  /** What is left of a round before a step: from an index on, the new amounts of the plan. */
  datatype AheadData = AheadData(pl: PlaceData, step: nat, n: nat, plan: seq<nat>)
  {
    ghost function End(): nat { n + |GridTodo(pl, step)| }
  }

  type Ahead = a: AheadData | Has(a.plan, a.n, GridTodo(a.pl, a.step))
    ghost witness AheadData(PlaceData(0, SpotData(0, 0)), SEGMENTS, 0, [])

  /** One grid probe. */
  method ProbeStep<T>(d: Probing<T>, low: nat, width: nat, ghost a: Ahead, step: nat, ghost plan: Schedule)
    returns (phase: Phase<T>, ghost b: Ahead)
    requires low == a.pl.low && width == a.pl.spot.width && step == a.step <= SEGMENTS && a.plan == plan
    requires Known(d.trace, a.pl) && Running(d, a.n, plan)
    ensures Did(d, phase, b.n, plan)
    ensures b.pl == a.pl && b.step == step + 1 && b.plan == plan && b.End() == a.End()
  {
    var amount := GridAmount(low, width, step);
    ghost var next, rest := GridDue(a.pl, step, amount, d.trace, a.n, plan, GridTodo(a.pl, step));
    b := AheadData(a.pl, step + 1, next, plan);
    phase := Take(d, amount, a.n, next, plan);
  }

  /** One refinement round's nine grid probes, two of which were made before. */
  method ProbeGrid<T>(d: Probing<T>, low: nat, high: nat, ghost a0: Ahead, ghost plan: Schedule)
    returns (phase: Phase<T>)
    requires a0.pl.low == low && a0.pl.High() == high && a0.step == 0 && a0.plan == plan
    requires Known(d.trace, a0.pl) && Running(d, a0.n, plan)
    ensures Did(d, phase, a0.End(), plan)
  {
    var width := high - low;
    phase := Continue(d);
    ghost var a := a0;
    for step := 0 to SEGMENTS + 1
      invariant phase.Continue? && Did(d, phase, a.n, plan)
      invariant a.pl == a0.pl && a.step == step && a.plan == plan && a.End() == a0.End()
    {
      KnownStays(d.trace, phase.d.trace, a0.pl);
      phase, a := ProbeStep(phase.d, low, width, a, step, plan);
      if phase.Stop? {
        return;
      }
    }
  }

  /** The evaluated neighbours of an amount within low..=high. */
  ghost predicate Neighbours(visited: set<nat>, low: nat, high: nat, best: nat, nextLow: nat, nextHigh: nat) {
    && low <= nextLow <= best <= nextHigh <= high
    && (nextLow == low || (nextLow in visited && nextLow < best))
    && (nextHigh == high || (nextHigh in visited && nextHigh > best))
    && (forall x :: x in visited && low <= x < best ==> x <= nextLow)
    && (forall x :: x in visited && best < x <= high ==> nextHigh <= x)
  }

  method VisitedNeighbours(visited: set<nat>, low: nat, high: nat, best: nat) returns (nextLow: nat, nextHigh: nat)
    requires low <= best <= high
    ensures Neighbours(visited, low, high, best, nextLow, nextHigh)
  {
    var below := LastBefore(visited, low, best);
    nextLow := if below.Some? then below.value else low;
    var above := FirstAfter(visited, best, high);
    nextHigh := if above.Some? then above.value else high;
  }

  // ----- the code's best amount and interval are the plan's -----

  /** The best-scoring amount in range is the best amount of the stage's place. */
  lemma BestIs<T>(d: Probing<T>, low: nat, high: nat, s: Stage<T>, best: nat)
    requires s.Reached? && s.p == d.problem && s.seen == d.trace && low <= s.pl.Best() <= high
    requires best in d.scores && low <= best <= high
    requires forall x :: x in d.scores && low <= x <= high ==> AtMost(d.scores, x, best)
    ensures best == s.pl.Best()
  {
    assert s.pl.Best() in d.scores && d.problem.Beats(s.pl.Best(), best);
    assert AtMost(d.scores, s.pl.Best(), best);
  }

  /** A place inside low..=high, at one end of its own only at that end of the range. */
  predicate Within(low: nat, high: nat, pl: PlaceData) {
    && low <= pl.low && pl.High() <= high && pl.spot.at <= pl.spot.width
    && (pl.low == pl.Best() ==> pl.low == low)
    && (pl.High() == pl.Best() ==> pl.High() == high)
  }

  /** The evaluated neighbours of the best amount are the ends of the place. */
  lemma NeighboursAre<T>(d: Probing<T>, low: nat, high: nat, s: Stage<T>, nextLow: nat, nextHigh: nat)
    requires s.Reached? && s.seen == d.trace && Within(low, high, s.pl)
    requires Neighbours(d.visited, low, high, s.pl.Best(), nextLow, nextHigh)
    ensures nextLow == s.pl.low && nextHigh == s.pl.High()
  {
    assert s.pl.low in d.visited && s.pl.High() in d.visited;
    assert nextLow in d.visited ==> !Inside(s.pl, nextLow);
    assert nextHigh in d.visited ==> !Inside(s.pl, nextHigh);
  }

  lemma NextIsWithin<T>(p: Problem<T>, pl: PlaceData, next: PlaceData)
    requires pl.spot.width > LOCAL_WIDTH && p.Quoted(pl.Best()) && next == Next(p, pl)
    ensures Within(pl.low, pl.High(), next)
  {
    assert pl.Amount(0) == pl.Best();
    var b := Choice(pl.spot, BestStep(p, pl, 0, 1));
    NothingBetween(pl.spot, b, 0);
  }

  /** So the code narrows its interval to the stage's place. */
  lemma IntervalIs<T>(d: Probing<T>, low: nat, high: nat, s: Stage<T>, best: nat, nextLow: nat, nextHigh: nat)
    requires s.Reached? && s.p == d.problem && s.seen == d.trace && Within(low, high, s.pl)
    requires best in d.scores && low <= best <= high
    requires forall x :: x in d.scores && low <= x <= high ==> AtMost(d.scores, x, best)
    requires Neighbours(d.visited, low, high, best, nextLow, nextHigh)
    ensures nextLow == s.pl.low && nextHigh == s.pl.High()
  {
    BestIs(d, low, high, s, best);
    NeighboursAre(d, low, high, s, nextLow, nextHigh);
  }

  /** The search is at a stage of its plan, or the budget is spent. */
  ghost predicate Placed<T>(d: ProbeData<T>, low: nat, high: nat, s: Stage<T>, plan: Schedule) {
    && d.trace <= plan && low <= high
    && (!d.Spent() ==>
          && s.Reached? && s.p == d.problem && s.plan == plan && s.seen == d.trace
          && s.pl.low == low && s.pl.High() == high)
  }

  ghost predicate Arrived<T>(p: Problem<T>, phase: Phase<T>, low: nat, high: nat, s: Stage<T>, plan: Schedule) {
    match phase
    case Continue(d) => d.problem == p && Placed(d, low, high, s, plan)
    case Stop(v) => v.problem == p && v.trace <= plan
  }

  /** A round was made: there is a score in range, and within budget the next stage is reached. */
  ghost predicate Rounded<T>(d: ProbeData<T>, low: nat, high: nat, next: Stage<T>) {
    && (exists x :: x in d.scores && low <= x <= high)
    && (!d.Spent() ==>
          && next.Reached? && next.p == d.problem && next.seen == d.trace
          && Within(low, high, next.pl) && next.pl.spot.width < high - low)
  }

  /** The interval between the evaluated neighbours of the best amount in range, which are those
      of the next stage.  It is None when the source leaves its loop, which cannot happen while
      the budget lasts: the best amount always has a score in range, and a full round always
      shrinks the interval. */
  method NextInterval<T>(d: Probing<T>, low: nat, high: nat, ghost s: Stage<T>) returns (r: Option<(nat, nat)>)
    requires Rounded(d, low, high, s)
    ensures r.Some? ==> r.value.0 <= r.value.1 && r.value.1 - r.value.0 < high - low
    ensures !d.Spent() ==> r == Some((s.pl.low, s.pl.High()))
  {
    var best := BestIn(d.scores, low, high);
    if best == None {
      return None;
    }
    var nextLow, nextHigh := VisitedNeighbours(d.visited, low, high, best.value);
    if !d.Spent() {
      IntervalIs(d, low, high, s, best.value, nextLow, nextHigh);
    }
    if nextLow == low && nextHigh == high {
      return None;
    }
    return Some((nextLow, nextHigh));
  }

  /** What a round is to do and where it leads. */
  lemma RoundPlan<T>(d: Probing<T>, low: nat, high: nat, s: Stage<T>, plan: Schedule) returns (next: Stage<T>)
    requires Placed(d, low, high, s, plan) && !d.Spent() && high - low > LOCAL_WIDTH
    ensures next.Reached? && next.p == d.problem && next.plan == plan
    ensures Within(low, high, next.pl) && next.pl.spot.width < high - low
    ensures next.seen == d.trace + FreshFrom(s.pl, 1)
    ensures Known(d.trace, s.pl) && d.problem.Quoted(s.pl.Best())
  {
    next := RoundLeads(s);
    NextIsWithin(s.p, s.pl, next.pl);
  }

  lemma RoundIsNext<T>(d: Probing<T>, amounts: seq<nat>, s: Stage<T>)
    requires s.Reached? && s.seen == d.trace + amounts
    ensures Has(s.plan, d.Probes(), amounts)
  {
    HasBetween(d.trace, amounts, Rest(s.p, s.pl));
  }

  lemma HasBetween(before: seq<nat>, amounts: seq<nat>, after: seq<nat>)
    ensures Has(before + amounts + after, |before|, amounts)
  {
  }

  lemma RoundIsMade<T>(d: Probing<T>, next: Stage<T>)
    requires next.Reached? && d.trace <= next.plan && d.Probes() == |next.seen|
    ensures next.seen == d.trace
  {
    assert next.seen == next.plan[..|next.seen|];
  }

  lemma RoundIsRounded<T>(d: Probing<T>, low: nat, high: nat, s: Stage<T>, next: Stage<T>)
    requires s.Reached? && s.p == d.problem && s.seen <= d.trace && s.pl.low == low && s.pl.High() == high
    requires low <= s.pl.Best() <= high
    requires next.Reached? && next.p == d.problem && d.trace <= next.plan && (d.Spent() || d.Probes() == |next.seen|)
    requires Within(low, high, next.pl) && next.pl.spot.width < high - low
    ensures Rounded(d, low, high, next)
  {
    if !d.Spent() {
      RoundIsMade(d, next);
    }
    BestIsScored(d, s);
  }

  lemma BestIsScored<T>(d: Probing<T>, s: Stage<T>)
    requires s.Reached? && s.p == d.problem && s.seen <= d.trace
    ensures s.pl.Best() in d.scores
  {
    var best := s.pl.Best();
    assert best in s.seen;
    assert best in d.visited;
  }

  /** One round's probes take the search to the next stage while the budget lasts. */
  method RefineRound<T>(d: Probing<T>, low: nat, high: nat, ghost s: Stage<T>, ghost plan: Schedule)
    returns (phase: Phase<T>, ghost next: Stage<T>)
    requires Placed(d, low, high, s, plan) && !d.Spent() && high - low > LOCAL_WIDTH
    ensures phase.Stop? ==> phase.v.problem == d.problem && phase.v.trace <= plan
    ensures phase.Continue? ==> phase.d.problem == d.problem && phase.d.trace <= plan
    ensures phase.Continue? ==> Rounded(phase.d, low, high, next)
    ensures next.Reached? && next.plan == plan
  {
    next := RoundPlan(d, low, high, s, plan);
    RoundIsNext(d, FreshFrom(s.pl, 1), next);
    phase := ProbeGrid(d, low, high, AheadData(s.pl, 0, d.Probes(), plan), plan);
    if phase.Continue? {
      RoundIsRounded(phase.d, low, high, s, next);
    }
  }

  /** The refinement loop ends on a window at most 64 wide, or on the last probe. */
  method Refine<T>(d: Probing<T>, low0: nat, high0: nat, ghost s0: Stage<T>, ghost plan: Schedule)
    returns (phase: Phase<T>, low: nat, high: nat, ghost s: Stage<T>)
    requires Placed(d, low0, high0, s0, plan)
    ensures Arrived(d.problem, phase, low, high, s, plan)
    ensures phase.Continue? && !phase.d.Spent() ==> high - low <= LOCAL_WIDTH
  {
    low, high, s := low0, high0, s0;
    phase := Continue(d);
    while high - low > LOCAL_WIDTH && !phase.d.Spent()
      invariant phase.Continue? && Arrived(d.problem, phase, low, high, s, plan)
      decreases high - low
    {
      phase, s := RefineRound(phase.d, low, high, s, plan);
      if phase.Stop? {
        return;
      }
      var interval := NextInterval(phase.d, low, high, s);
      if interval == None {
        break;
      }
      low, high := interval.value.0, interval.value.1;
    }
  }

  // ----- the last window -----

  /** The new amounts among the lowest `left` of a window, from the top down. */
  ghost function WindowTodo(pl: PlaceData, left: nat): seq<nat> {
    if left == 0 then [] else WindowFrom(pl, left - 1)
  }

  /** What is left of a scan: from an index on, the new amounts are the end of the plan. */
  datatype UnscannedData = UnscannedData(pl: PlaceData, left: nat, n: nat, plan: seq<nat>)

  type Unscanned = l: UnscannedData |
      Has(l.plan, l.n, WindowTodo(l.pl, l.left)) && l.n + |WindowTodo(l.pl, l.left)| == |l.plan|
    ghost witness UnscannedData(PlaceData(0, SpotData(0, 0)), 0, 0, [])

  /** Within budget the scan is at the amount before which it has `left` to go. */
  ghost predicate Scanning<T>(d: ProbeData<T>, low: nat, high: nat, l: Unscanned, left: nat, plan: Schedule) {
    && d.trace <= plan
    && (!d.Spent() ==>
          && l.plan == plan && l.n == d.Probes() && l.left == left
          && l.pl.low == low && l.pl.High() == high && Known(d.trace, l.pl))
  }

  lemma WindowDue(l: Unscanned, trace: seq<nat>) returns (next: Unscanned)
    requires 0 < l.left <= l.pl.spot.width + 1 && Known(trace, l.pl)
    ensures next.pl == l.pl && next.left == l.left - 1 && next.plan == l.plan
    ensures Due(trace, l.pl.low + l.left - 1, l.n, next.n, l.plan)
  {
    var offset: nat := l.left - 1;
    var n := l.n;
    if 0 < offset < l.pl.spot.width && offset != l.pl.spot.at {
      HasNext(l.plan, l.n, l.pl.low + offset, WindowTodo(l.pl, offset));
      n := l.n + 1;
    }
    next := UnscannedData(l.pl, offset, n, l.plan);
  }

  lemma LastStage<T>(s: Stage<T>, width: nat) returns (l: Unscanned)
    requires s.Reached? && width == s.pl.spot.width <= LOCAL_WIDTH
    ensures l == UnscannedData(s.pl, width + 1, |s.seen|, s.plan)
  {
    var window := WindowFrom(s.pl, width);
    assert s.plan == s.seen + window;
    assert Has(s.plan, |s.seen|, window);
    l := UnscannedData(s.pl, width + 1, |s.seen|, s.plan);
  }

  /** What the scan is to do at the last stage. */
  lemma ScanPlan<T>(d: Probing<T>, low: nat, high: nat, s: Stage<T>, plan: Schedule) returns (l: Unscanned)
    requires Placed(d, low, high, s, plan) && high - low <= LOCAL_WIDTH
    ensures Scanning(d, low, high, l, high - low + 1, plan)
  {
    l := UnscannedData(PlaceData(0, SpotData(0, 0)), 0, 0, []);
    if !d.Spent() {
      l := LastStage(s, high - low);
    }
  }

  /** One probe of the scan. */
  method ProbeDown<T>(d: Probing<T>, low: nat, high: nat, amount: nat, ghost l: Unscanned, ghost plan: Schedule)
    returns (phase: Phase<T>, ghost next: Unscanned)
    requires low <= amount <= high && Scanning(d, low, high, l, amount - low + 1, plan)
    ensures phase.Stop? ==> phase.v.problem == d.problem && phase.v.trace <= plan
    ensures phase.Continue? ==> phase.d.problem == d.problem && Scanning(phase.d, low, high, next, amount - low, plan)
  {
    next := l;
    if !d.Spent() {
      next := WindowDue(l, d.trace);
    }
    phase := Take(d, amount, l.n, next.n, plan);
    if phase.Continue? && !d.Spent() {
      KnownStays(d.trace, phase.d.trace, l.pl);
    }
  }

  /** The exact scan of the last window, from the top down, ends the plan. */
  method ScanWindow<T>(d: Probing<T>, low: nat, high: nat, ghost l0: Unscanned, ghost plan: Schedule)
    returns (phase: Phase<T>)
    requires low <= high && Scanning(d, low, high, l0, high - low + 1, plan)
    ensures phase.Stop? ==> phase.v.problem == d.problem && phase.v.trace <= plan
    ensures phase.Continue? ==> phase.d.problem == d.problem && phase.d.trace == Affordable(plan)
  {
    phase := Continue(d);
    ghost var l := l0;
    var next: int := high;
    while next >= low
      invariant low - 1 <= next <= high
      invariant phase.Continue? && phase.d.problem == d.problem
      invariant Scanning(phase.d, low, high, l, next - low + 1, plan)
      decreases next - low
    {
      phase, l := ProbeDown(phase.d, low, high, next, l, plan);
      if phase.Stop? {
        return;
      }
      next := next - 1;
    }
    assert phase.d.Spent() || phase.d.Probes() == |plan|;
  }

  // ----- the whole search -----

  lemma PlanIsSchedule<T>(p: Problem<T>) returns (plan: Schedule)
    requires p.cap > 0
    ensures plan == Plan(p) && SlicesOf(p.cap) <= plan
  {
    PlanShape(p);
    plan := Plan(p);
  }

  lemma StartIsWithin(slices: Slices, i: nat)
    requires i < |slices|
    ensures Within(1, slices[0], Start(slices, i))
  {
    assert forall j :: 0 <= j < |slices| ==> slices[j] >= slices[|slices| - 1];
  }

  lemma SomeSliceIsBest<T>(p: Problem<T>, slices: Slices, a: nat) returns (i: nat)
    requires a in slices && p.Quoted(a)
    ensures BestSlice(p, slices, |slices|) == Some(i)
  {
    BestSliceTops(p, slices, |slices|);
    i := BestSlice(p, slices, |slices|).value;
  }

  /** The best slice and its neighbours are the plan's first stage. */
  lemma FirstStage<T>(d: Probing<T>, slices: Slices, plan: Schedule, a: nat) returns (s: Stage<T>)
    requires d.problem.cap > 0 && slices == SlicesOf(d.problem.cap) == d.trace && plan == Plan(d.problem)
    requires a in d.scores
    ensures s.Reached? && s.p == d.problem && s.plan == plan && s.seen == d.trace
    ensures Within(1, slices[0], s.pl)
  {
    var i := SomeSliceIsBest(d.problem, slices, a);
    s := StartIsReached(d.problem, slices, i, plan);
    StartIsWithin(slices, i);
  }

  /** The interval around the best slice, if any slice was quoted. */
  method FirstInterval<T>(d: Probing<T>, ghost slices: Slices, ghost plan: Schedule)
    returns (r: Option<(nat, nat)>, ghost s: Stage<T>)
    requires d.problem.cap == slices[0] > 0 && slices == SlicesOf(d.problem.cap) == d.trace && plan == Plan(d.problem)
    ensures r == None ==> d.trace == plan
    ensures r.Some? ==> Placed(d, r.value.0, r.value.1, s, plan)
  {
    s := Lost;
    var cap := d.problem.cap;
    var best := BestIn(d.scores, 0, cap);
    if best == None {
      NothingQuoted(d, slices);
      return None, s;
    }
    SliceRange(d, slices, best.value);
    var low, high := VisitedNeighbours(d.visited, 1, cap, best.value);
    s := FirstPlaced(d, slices, plan, best.value, low, high);
    return Some((low, high)), s;
  }

  lemma SliceRange<T>(d: Probing<T>, slices: Slices, best: nat)
    requires slices == d.trace && best in d.scores
    ensures 1 <= best
  {
    assert best in slices;
  }

  lemma FirstPlaced<T>(d: Probing<T>, slices: Slices, plan: Schedule, best: nat, low: nat, high: nat)
    returns (s: Stage<T>)
    requires d.problem.cap > 0 && slices == SlicesOf(d.problem.cap) == d.trace && plan == Plan(d.problem)
    requires best in d.scores && 1 <= best <= slices[0]
    requires forall x :: x in d.scores && x <= slices[0] ==> AtMost(d.scores, x, best)
    requires Neighbours(d.visited, 1, slices[0], best, low, high)
    ensures Placed(d, low, high, s, plan)
  {
    s := FirstStage(d, slices, plan, best);
    IntervalIs(d, 1, slices[0], s, best, low, high);
    assert d.trace <= plan;
  }

  lemma NothingQuoted<T>(d: Probing<T>, slices: Slices)
    requires d.problem.cap > 0 && slices == SlicesOf(d.problem.cap) == d.trace
    requires forall x :: x in d.scores ==> x > d.problem.cap
    ensures d.trace == Plan(d.problem)
  {
    SlicesShape(d.problem.cap);
    BestSliceTops(d.problem, slices, |slices|);
  }

  method RefineAndScan<T>(d: Probing<T>, low0: nat, high0: nat, ghost s0: Stage<T>, ghost plan: Schedule)
    returns (phase: Phase<T>)
    requires Placed(d, low0, high0, s0, plan)
    ensures phase.Stop? ==> phase.v.problem == d.problem && phase.v.trace <= plan
    ensures phase.Continue? ==> phase.d.problem == d.problem && phase.d.trace == Affordable(plan)
  {
    var low, high;
    ghost var s;
    phase, low, high, s := Refine(d, low0, high0, s0, plan);
    if phase.Continue? && high - low <= LOCAL_WIDTH {
      ghost var l := ScanPlan(phase.d, low, high, s, plan);
      phase := ScanWindow(phase.d, low, high, l, plan);
    }
  }

  /** What a finished phase says of the whole search. */
  ghost predicate Answers<T>(p: Problem<T>, plan: seq<nat>, phase: Phase<T>) {
    match phase
    case Continue(d) => d.problem == p && d.trace == Affordable(plan)
    case Stop(v) => v.problem == p && v.trace <= plan
  }

  method Phases<T>(problem: Problem<T>, ghost plan: Schedule) returns (phase: Phase<T>)
    requires problem.cap > 0 && plan == Plan(problem) && SlicesOf(problem.cap) <= plan
    ensures Answers(problem, plan, phase)
  {
    SlicesShape(problem.cap);
    phase := ProbeSlices(ProbeData(problem, {}, map[], []), plan);
    if phase.Continue? {
      ghost var s;
      var interval;
      interval, s := FirstInterval(phase.d, SlicesOf(problem.cap), plan);
      if interval.Some? {
        phase := RefineAndScan(phase.d, interval.value.0, interval.value.1, s, plan);
      }
    }
  }

  /** The search evaluates its plan in order as far as the budget goes.  It returns None if and
      only if nothing of that failed or was profitable, and else says what the last one was. */
  method SearchProfitable<T>(problem: Problem<T>) returns (r: Result<Option<T>, string>, trace: seq<nat>)
    ensures trace <= Affordable(Plan(problem))
    ensures r == Ok(None) ==> trace == Affordable(Plan(problem)) && Fruitless(problem, trace)
    ensures r != Ok(None) ==> Conclusive(problem, trace, r)
  {
    if problem.cap == 0 {
      return Ok(None), [];
    }
    ghost var plan := PlanIsSchedule(problem);
    var phase := Phases(problem, plan);
    match phase
    case Continue(d) => return Ok(None), d.trace;
    case Stop(v) => return v.r, v.trace;
  }
}
