/**
 How long a plan can get: the longest over all evaluators, as a function of the cap,
 and the least cap whose longest plan exceeds the budget.
 */
module ProfitBudget {
  import opened Wrappers
  import opened Bytes
  import opened Amounts
  import opened SearchShape
  import opened ProfitPlan

  // ----- the length of a plan, and the longest over all evaluators -----

  function Largest(costs: seq<nat>): (m: nat)
    requires costs != []
    ensures m in costs && forall k :: 0 <= k < |costs| ==> costs[k] <= m
  {
    if |costs| == 1 || costs[0] >= Largest(costs[1..]) then costs[0] else Largest(costs[1..])
  }

  /** The most probes that can still follow from a spot: any choice may turn out best. */
  function WorstFrom(s: Spot): nat
    decreases s.width
  {
    if s.width <= LOCAL_WIDTH then ScanCost(s)
    else
      CountNew(s, 1)
      + Largest(seq(SEGMENTS, k requires 0 <= k < SEGMENTS =>
          (RoundNarrows(s, k); WorstFrom(Narrowed(s, Choice(s, k))))))
  }

  /** The most probes the search can want for a cap, over all evaluators. */
  function Worst(cap: nat): nat {
    if cap == 0 then 0
    else
      SlicesShape(cap);
      var slices := SlicesOf(cap);
      |slices| + Largest(seq(|slices|, i requires 0 <= i < |slices| => WorstFrom(Start(slices, i).spot)))
  }

  lemma WorstRound(s: Spot, k: nat)
    requires s.width > LOCAL_WIDTH && k < SEGMENTS
    ensures CountNew(s, 1) + WorstFrom(Narrowed(s, Choice(s, k))) <= WorstFrom(s)
  {
    RoundNarrows(s, k);
    var costs := seq(SEGMENTS, k requires 0 <= k < SEGMENTS =>
      (RoundNarrows(s, k); WorstFrom(Narrowed(s, Choice(s, k)))));
    assert costs[k] <= Largest(costs);
  }

  lemma {:induction false} PathWithinWorst(s: Spot, path: Path)
    ensures PathCost(s, path) <= WorstFrom(s)
    decreases path
  {
    if s.width > LOCAL_WIDTH && path != [] {
      RoundNarrows(s, path[0]);
      PathWithinWorst(Narrowed(s, Choice(s, path[0])), path[1..]);
      WorstRound(s, path[0]);
    }
  }

  lemma WorstChoice(s: Spot) returns (k: nat, c: Spot)
    requires s.width > LOCAL_WIDTH
    ensures k < SEGMENTS && c == Narrowed(s, Choice(s, k)) && c.width < s.width
    ensures WorstFrom(s) == CountNew(s, 1) + WorstFrom(c)
  {
    var costs := seq(SEGMENTS, k requires 0 <= k < SEGMENTS =>
      (RoundNarrows(s, k); WorstFrom(Narrowed(s, Choice(s, k)))));
    k :| 0 <= k < |costs| && costs[k] == Largest(costs);
    RoundNarrows(s, k);
    c := Narrowed(s, Choice(s, k));
  }

  lemma {:induction false} WorstHasPath(s: Spot) returns (path: Path)
    ensures PathCost(s, path) == WorstFrom(s)
    ensures |path| <= s.width
    decreases s.width
  {
    if s.width <= LOCAL_WIDTH {
      path := [];
    } else {
      var k, c := WorstChoice(s);
      var rest := WorstHasPath(c);
      path := LongerPath(s, k, c, rest);
    }
  }

  function Prepend(k: nat, rest: Path): Path
    requires k < SEGMENTS
  {
    [k] + rest
  }

  lemma LongerPath(s: Spot, k: nat, c: Spot, rest: Path) returns (path: Path)
    requires s.width > LOCAL_WIDTH && k < SEGMENTS && c == Narrowed(s, Choice(s, k))
    ensures |path| == 1 + |rest| && PathCost(s, path) == CountNew(s, 1) + PathCost(c, rest)
  {
    path := Prepend(k, rest);
    PathStep(s, k, rest);
  }

  lemma {:induction false} RestHasPath<T>(p: Problem<T>, pl: PlaceData) returns (path: Path)
    requires p.Quoted(pl.Best())
    ensures PathCost(pl.spot, path) == |Rest(p, pl)|
    decreases pl.spot.width
  {
    if pl.spot.width <= LOCAL_WIDTH {
      path := [];
      WindowCount(pl, pl.spot.width);
    } else {
      var k, next := RestUnfolds(p, pl);
      var rest := RestHasPath(p, next);
      path := LongerPath(pl.spot, k, next.spot, rest);
    }
  }

  /** Any slice may turn out best. */
  lemma WorstSlice(cap: nat, slices: Slices, i: nat)
    requires cap > 0 && slices == SlicesOf(cap) && i < |slices|
    ensures |slices| + WorstFrom(Start(slices, i).spot) <= Worst(cap)
  {
    var costs := seq(|slices|, i requires 0 <= i < |slices| => WorstFrom(Start(slices, i).spot));
    assert costs[i] <= Largest(costs);
  }

  lemma WorstStart(cap: nat, slices: Slices) returns (i: nat)
    requires cap > 0 && slices == SlicesOf(cap)
    ensures i < |slices| && Worst(cap) == |slices| + WorstFrom(Start(slices, i).spot)
  {
    var costs := seq(|slices|, i requires 0 <= i < |slices| => WorstFrom(Start(slices, i).spot));
    i :| 0 <= i < |costs| && costs[i] == Largest(costs);
  }

  /** No evaluator makes a plan longer than the worst. */
  lemma PlanWithinWorst<T>(p: Problem<T>)
    ensures |Plan(p)| <= Worst(p.cap)
  {
    if p.cap > 0 {
      SlicesShape(p.cap);
      var slices := SlicesOf(p.cap);
      match BestSlice(p, slices, |slices|)
      case None =>
        WorstSlice(p.cap, slices, 0);
      case Some(i) =>
        var path := RestHasPath(p, Start(slices, i));
        PathWithinWorst(Start(slices, i).spot, path);
        WorstSlice(p.cap, slices, i);
    }
  }

  // ----- an evaluator for every path -----

  /** The amounts that turn out best along a path, each once. */
  function Route(pl: PlaceData, path: Path): (route: seq<nat>)
    ensures |route| <= |path|
    decreases path
  {
    if pl.spot.width <= LOCAL_WIDTH || path == [] then []
    else if Choice(pl.spot, path[0]) == pl.spot.at then Route(PlaceAround(pl, path[0]), path[1..])
    else [pl.Amount(path[0])] + Route(PlaceAround(pl, path[0]), path[1..])
  }

  lemma {:induction false} RouteIsInside(pl: PlaceData, path: Path, a: nat)
    requires a in Route(pl, path)
    ensures Inside(pl, a)
    decreases path
  {
    if a == pl.Amount(path[0]) && Choice(pl.spot, path[0]) != pl.spot.at {
      GridEnds(pl.spot.width);
      GridRises(pl.spot.width, 0, path[0]);
      GridRises(pl.spot.width, path[0], SEGMENTS);
    } else {
      RouteIsInside(PlaceAround(pl, path[0]), path[1..], a);
      InsideAround(pl, path[0], a);
    }
  }

  lemma {:induction false} RouteDistinct(pl: PlaceData, path: Path)
    ensures Distinct(Route(pl, path))
    decreases path
  {
    if pl.spot.width > LOCAL_WIDTH && path != [] {
      var next := PlaceAround(pl, path[0]);
      RouteDistinct(next, path[1..]);
      forall a | a in Route(next, path[1..]) ensures a != next.Best() {
        RouteIsInside(next, path[1..], a);
      }
      DistinctCons(next.Best(), Route(next, path[1..]));
    }
  }

  /** Scores that rise along a route, from a given score on. */
  ghost predicate Rises(p: Problem<nat>, score: u64, route: seq<nat>) {
    && (forall i :: 0 <= i < |route| ==> p.Quoted(route[i]) && p.evaluate(route[i]).score > score)
    && (forall i, j :: 0 <= i < j < |route| && p.Quoted(route[i]) && p.Quoted(route[j]) ==>
          p.evaluate(route[i]).score < p.evaluate(route[j]).score)
  }

  /** The evaluator quotes nothing new inside a place but its route, and that ever higher. */
  ghost predicate Leads(p: Problem<nat>, pl: PlaceData, path: Path) {
    && p.Quoted(pl.Best())
    && (forall a :: Inside(pl, a) ==> (p.Quoted(a) <==> a in Route(pl, path)))
    && Rises(p, p.evaluate(pl.Best()).score, Route(pl, path))
  }

  datatype LedData = LedData(p: Problem<nat>, pl: PlaceData, path: Path)

  type Led = l: LedData | Leads(l.p, l.pl, l.path)
    ghost witness LedData(Problem(0, 0, _ => Quote(0, 0)), PlaceData(0, SpotData(0, 0)), [])

  lemma RouteStep(pl: PlaceData, path: Path)
    requires pl.spot.width > LOCAL_WIDTH && path != []
    ensures var b, rest := pl.Amount(path[0]), Route(PlaceAround(pl, path[0]), path[1..]);
            Route(pl, path) == if b == pl.Best() then rest else [b] + rest
  {
  }

  /** Inside its place the evaluator quotes this round's choice and nothing else on the grid. */
  lemma StepOffRoute(pl: PlaceData, path: Path, j: nat)
    requires pl.spot.width > LOCAL_WIDTH && path != [] && 1 <= j < SEGMENTS
    requires pl.Amount(j) != pl.Amount(path[0]) && pl.Amount(j) != pl.Best()
    ensures Inside(pl, pl.Amount(j)) && pl.Amount(j) !in Route(pl, path)
  {
    var next := PlaceAround(pl, path[0]);
    FreshAre(pl, 1, pl.Amount(j));
    FreshIsInside(pl, pl.Amount(j));
    if pl.Amount(j) in Route(next, path[1..]) {
      RouteIsInside(next, path[1..], pl.Amount(j));
      InsideAround(pl, path[0], pl.Amount(j));
      assert false;
    }
    RouteStep(pl, path);
  }

  lemma LeadsChoice(l: Led)
    requires l.pl.spot.width > LOCAL_WIDTH && l.path != []
    ensures l.pl.Amount(BestStep(l.p, l.pl, 0, 1)) == l.pl.Amount(l.path[0]) && l.p.Quoted(l.pl.Amount(l.path[0]))
  {
    var p, pl, k := l.p, l.pl, l.path[0];
    assert pl.Amount(0) == pl.Best();
    var best := BestStep(p, pl, 0, 1);
    RouteStep(pl, l.path);
    if pl.Amount(k) != pl.Best() {
      assert Route(pl, l.path)[0] == pl.Amount(k);
    }
    BestStepBeats(p, pl, 0, 1);
    if pl.Amount(best) != pl.Amount(k) && pl.Amount(best) != pl.Best() {
      StepOffRoute(pl, l.path, best);
      assert false;
    }
  }

  lemma RisesOn(p: Problem<nat>, score: u64, route: seq<nat>)
    requires route != [] && Rises(p, score, route)
    ensures Rises(p, p.evaluate(route[0]).score, route[1..])
  {
    var rest := route[1..];
    assert forall i :: 0 <= i < |rest| ==> rest[i] == route[i + 1];
  }

  /** Along its route the evaluator keeps the search on the path. */
  lemma LeadsOn(l: Led, next: PlaceData, rest: Path) returns (m: Led)
    requires l.pl.spot.width > LOCAL_WIDTH && l.path != []
    requires next == PlaceAround(l.pl, l.path[0]) && rest == l.path[1..]
    ensures m == LedData(l.p, next, rest)
  {
    var p, pl, k, route := l.p, l.pl, l.path[0], Route(l.pl, l.path);
    LeadsChoice(l);
    RouteStep(pl, l.path);
    if next.Best() != pl.Best() {
      RisesOn(p, p.evaluate(pl.Best()).score, route);
      assert route[1..] == Route(next, rest);
    }
    forall a | Inside(next, a) ensures p.Quoted(a) <==> a in Route(next, rest) {
      InsideAround(pl, k, a);
    }
    m := LedData(p, next, rest);
  }

  lemma LedRound(l: Led, rest: Path) returns (m: Led)
    requires l.pl.spot.width > LOCAL_WIDTH && l.path != [] && rest == l.path[1..]
    ensures m.path == rest
    ensures |Rest(l.p, l.pl)| == CountNew(l.pl.spot, 1) + |Rest(m.p, m.pl)|
    ensures PathCost(l.pl.spot, l.path) == CountNew(l.pl.spot, 1) + PathCost(m.pl.spot, rest)
  {
    LeadsChoice(l);
    var k, next := RestUnfolds(l.p, l.pl);
    SamePlace(l.pl, k, l.path[0]);
    PathUnfolds(l.pl, l.path, rest, next);
    m := LeadsOn(l, next, rest);
  }

  lemma PathTail(path: Path) returns (rest: Path)
    requires path != []
    ensures rest == path[1..]
  {
    rest := path[1..];
  }

  lemma PathUnfolds(pl: PlaceData, path: Path, rest: Path, next: PlaceData)
    requires pl.spot.width > LOCAL_WIDTH && path != [] && rest == path[1..] && next == PlaceAround(pl, path[0])
    ensures PathCost(pl.spot, path) == CountNew(pl.spot, 1) + PathCost(next.spot, rest)
  {
  }

  lemma {:induction false} LedAlong(l: Led)
    ensures |Rest(l.p, l.pl)| >= PathCost(l.pl.spot, l.path)
    decreases l.path
  {
    if l.pl.spot.width <= LOCAL_WIDTH {
      WindowCount(l.pl, l.pl.spot.width);
    } else if l.path != [] {
      var rest := PathTail(l.path);
      var m := LedRound(l, rest);
      LedAlong(m);
    }
  }

  lemma SamePlace(pl: PlaceData, j: nat, k: nat)
    requires pl.spot.width > LOCAL_WIDTH && j < SEGMENTS && k < SEGMENTS && pl.Amount(j) == pl.Amount(k)
    ensures PlaceAround(pl, j) == PlaceAround(pl, k)
  {
    assert Choice(pl.spot, j) == Choice(pl.spot, k);
  }

  /** An evaluator that quotes an amount by its position on a route. */
  function Ranked(route: seq<nat>, a: nat): (answer: Answer<nat>)
    requires |route| < 0x1_0000_0000_0000_0000
    ensures answer.Quote? <==> a in route
    ensures answer.Quote? ==> answer.score < |route| && route[answer.score] == a && answer.payload == 0
    ensures !answer.Fails?
  {
    if route == [] then NoQuote
    else if route[|route| - 1] == a then Quote(|route| - 1, 0)
    else Ranked(route[..|route| - 1], a)
  }

  lemma {:induction false} RankedAt(route: seq<nat>, i: nat)
    requires Distinct(route) && i < |route| < 0x1_0000_0000_0000_0000
    ensures Ranked(route, route[i]) == Quote(i, 0)
  {
    var answer := Ranked(route, route[i]);
    assert route[i] in route;
    if answer.score < i {
      DistinctAt(route, answer.score, i);
    } else if answer.score > i {
      DistinctAt(route, i, answer.score);
    }
  }

  lemma RankedRises(p: Problem<nat>, first: nat, rest: seq<nat>)
    requires Distinct([first] + rest) && |rest| < 0xffff_ffff_ffff_ffff
    requires forall a :: p.evaluate(a) == Ranked([first] + rest, a)
    ensures p.evaluate(first) == Quote(0, 0) && Rises(p, 0, rest)
  {
    var route := [first] + rest;
    RankedAt(route, 0);
    forall i | 0 <= i < |rest| ensures p.evaluate(rest[i]) == Quote(i + 1, 0) {
      RankedAt(route, i + 1);
    }
  }

  lemma RankedLeads(p: Problem<nat>, pl: PlaceData, path: Path, route: seq<nat>) returns (l: Led)
    requires route == Route(pl, path) && Distinct([pl.Best()] + route) && |route| < 0xffff_ffff_ffff_ffff
    requires forall a :: p.evaluate(a) == Ranked([pl.Best()] + route, a)
    ensures l == LedData(p, pl, path)
  {
    RankedRises(p, pl.Best(), route);
    forall a | Inside(pl, a) ensures p.Quoted(a) <==> a in route {
      assert a in [pl.Best()] + route <==> a in route;
    }
    RankedIsLed(p, pl, path, route);
    l := LedData(p, pl, path);
  }

  lemma RankedIsLed(p: Problem<nat>, pl: PlaceData, path: Path, route: seq<nat>)
    requires route == Route(pl, path) && p.evaluate(pl.Best()) == Quote(0, 0) && Rises(p, 0, route)
    requires forall a :: Inside(pl, a) ==> (p.Quoted(a) <==> a in route)
    ensures Leads(p, pl, path)
  {
  }

  lemma {:induction false} OnlySlice<T>(p: Problem<T>, slices: seq<nat>, n: nat, i: nat)
    requires n <= |slices| && forall j :: 0 <= j < |slices| ==> (p.Quoted(slices[j]) <==> j == i)
    ensures BestSlice(p, slices, n) == if i < n then Some(i) else None
  {
    if n > 0 {
      OnlySlice(p, slices, n - 1, i);
    }
  }

  lemma RouteFromSlice(slices: Slices, i: nat, path: Path) returns (route: seq<nat>)
    requires i < |slices|
    ensures Distinct(route) && route == [slices[i]] + Route(Start(slices, i), path)
    ensures forall j :: 0 <= j < |slices| ==> (slices[j] in route <==> j == i)
  {
    var pl := Start(slices, i);
    route := [slices[i]] + Route(pl, path);
    forall a | a in Route(pl, path) ensures a !in slices && a != slices[i] {
      RouteIsInside(pl, path, a);
      BetweenSlices(slices, i, a);
    }
    RouteDistinct(pl, path);
    DistinctCons(slices[i], Route(pl, path));
    forall j | 0 <= j < |slices| ensures slices[j] in route <==> j == i {
      assert slices[j] in slices;
    }
  }

  lemma RankedPlan(p: Problem<nat>, slices: Slices, i: nat, path: Path, route: seq<nat>)
    requires 0 < p.cap && slices == SlicesOf(p.cap) && i < |slices| && |path| < p.cap
    requires Distinct(route) && route == [slices[i]] + Route(Start(slices, i), path)
    requires forall j :: 0 <= j < |slices| ==> (slices[j] in route <==> j == i)
    requires forall a :: p.evaluate(a) == Ranked(route, a)
    ensures |Plan(p)| >= |slices| + PathCost(Start(slices, i).spot, path)
  {
    var l := RankedLeads(p, Start(slices, i), path, Route(Start(slices, i), path));
    LedAlong(l);
    OnlySlice(p, slices, |slices|, i);
  }

  /** A problem whose plan starts at a slice and goes along a path. */
  lemma PathHasProblem(cap: u64, slices: Slices, i: nat, path: Path) returns (p: Problem<nat>)
    requires 0 < cap && slices == SlicesOf(cap) && i < |slices| && |path| < cap
    ensures p.cap == cap && forall a :: !p.evaluate(a).Fails? && !p.Profitable(a)
    ensures |Plan(p)| >= |slices| + PathCost(Start(slices, i).spot, path)
  {
    var route := RouteFromSlice(slices, i, path);
    p := Problem(cap, 0xffff_ffff_ffff_ffff, a => Ranked(route, a));
    RankedPlan(p, slices, i, path, route);
  }

  lemma StartWidth(cap: nat, slices: Slices, i: nat)
    requires cap > 0 && slices == SlicesOf(cap) && i < |slices|
    ensures Start(slices, i).spot.width < cap
  {
    SlicesShape(cap);
  }

  /** Some evaluator does make a plan as long as the worst, and no amount of it profitable. */
  lemma WorstIsReached(cap: u64) returns (p: Problem<nat>)
    ensures p.cap == cap && |Plan(p)| == Worst(cap)
    ensures forall a :: !p.evaluate(a).Fails? && !p.Profitable(a)
  {
    p := Problem(cap, 0xffff_ffff_ffff_ffff, _ => NoQuote);
    if cap > 0 {
      SlicesShape(cap);
      var slices := SlicesOf(cap);
      var i := WorstStart(cap, slices);
      var path := WorstHasPath(Start(slices, i).spot);
      StartWidth(cap, slices, i);
      p := PathHasProblem(cap, slices, i, path);
      PlanWithinWorst(p);
    }
  }
}
