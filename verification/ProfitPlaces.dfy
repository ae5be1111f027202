/** The intervals a search refines and the order in which it evaluates, in terms of its trace. */
module ProfitPlaces {
  import opened Wrappers
  import opened Bytes
  import opened Amounts
  import opened SearchShape
  import opened ProfitPlan
  import opened ProfitMeaning

  // ----- the places of a search -----

  /** What a round makes of a place; a narrow one stays. */
  function Onward<T>(p: Problem<T>, pl: PlaceData): PlaceData {
    if pl.spot.width <= LOCAL_WIDTH || !p.Quoted(pl.Best()) then pl else Next(p, pl)
  }

  /** The places of successive rounds. */
  ghost predicate Chain<T>(p: Problem<T>, places: seq<PlaceData>) {
    forall k :: 0 <= k < |places| - 1 ==> places[k + 1] == Onward(p, places[k])
  }

  lemma StageOnward<T>(p: Problem<T>, s: Stage<T>) returns (next: Stage<T>)
    requires s.Reached? && s.p == p
    ensures next.Reached? && next.p == p && next.plan == s.plan && next.pl == Onward(p, s.pl)
  {
    next := s;
    if s.pl.spot.width > LOCAL_WIDTH {
      next := RoundLeads(s);
    }
  }

  lemma {:induction false} StageAfter<T>(p: Problem<T>, s: Stage<T>, rounds: nat)
    returns (last: Stage<T>, places: seq<PlaceData>)
    requires s.Reached? && s.p == p
    ensures last.Reached? && last.p == p && last.plan == s.plan
    ensures |places| == rounds + 1 && places[0] == s.pl && places[rounds] == last.pl && Chain(p, places)
    decreases rounds
  {
    last, places := s, [s.pl];
    if rounds > 0 {
      var before;
      before, places := StageAfter(p, s, rounds - 1);
      last := StageOnward(p, before);
      places := places + [last.pl];
    }
  }

  /** After every round that the budget covers, the search refines an interval with evaluated ends
      and nothing else evaluated inside but its best amount, the largest of those with the highest
      score evaluated so far. */
  lemma TracedPlaces<T>(p: Problem<T>, trace: seq<nat>, rounds: nat) returns (places: seq<PlaceData>, n: nat)
    requires exists a :: a in SlicesOf(p.cap) && p.Quoted(a)
    requires trace == Affordable(Plan(p))
    ensures p.cap > 0 && Descending(SlicesOf(p.cap)) && SlicesOf(p.cap)[|SlicesOf(p.cap)| - 1] == 1
    ensures |places| == rounds + 1 && Chain(p, places)
    ensures var i := BestSlice(p, SlicesOf(p.cap), |SlicesOf(p.cap)|);
            i.Some? && places[0] == Start(SlicesOf(p.cap), i.value)
    ensures n <= |Plan(p)| && (n <= MAX_PROBES ==> n <= |trace| && At(p, trace[..n], places[rounds]))
  {
    var i, s := FirstPlace(p);
    s, places := StageAfter(p, s, rounds);
    n := |s.seen|;
    if n <= MAX_PROBES {
      SeenIsTraced(s, trace);
    }
  }

  lemma SeenIsTraced<T>(s: Stage<T>, trace: seq<nat>)
    requires s.Reached? && trace == Affordable(s.plan) && |s.seen| <= MAX_PROBES
    ensures |s.seen| <= |trace| && trace[..|s.seen|] == s.seen
  {
    assert s.plan[..|s.seen|] == s.seen;
  }

  /** An interval at most 64 wide is scanned amount by amount. */
  lemma NarrowIsScanned<T>(p: Problem<T>, pl: PlaceData, rest: seq<nat>)
    requires p.Quoted(pl.Best()) && pl.spot.width <= 64 && rest == Rest(p, pl)
    ensures forall a: nat :: a in rest <==> pl.low < a < pl.High() && a != pl.Best()
  {
    forall a: nat ensures a in rest <==> Inside(pl, a) {
      WindowIs(pl, pl.spot.width, a);
    }
  }

  /** A wider one is sampled first. */
  lemma WideIsSampled<T>(p: Problem<T>, pl: PlaceData, rest: seq<nat>)
    requires p.Quoted(pl.Best()) && pl.spot.width > 64 && rest == Rest(p, pl)
    ensures FreshFrom(pl, 1) <= rest
  {
    var k, next := RestUnfolds(p, pl);
  }

  /** The samples are its eighths, rounded down. */
  lemma FreshIsEighths(pl: PlaceData, a: nat)
    ensures a in FreshFrom(pl, 1) <==>
            a != pl.Best() && exists j: nat :: 1 <= j < 8 && a == pl.low + pl.spot.width * j / 8
  {
    FreshAre(pl, 1, a);
    forall j: nat | 1 <= j < 8 ensures Grid(pl.spot.width, j) == pl.spot.width * j / 8 {
      TimesIsProduct(pl.spot.width, j);
    }
    if a in FreshFrom(pl, 1) {
      var j :| 1 <= j < SEGMENTS && Grid(pl.spot.width, j) != pl.spot.at && a == pl.low + Grid(pl.spot.width, j);
      assert a == pl.low + pl.spot.width * j / 8;
    }
    if j: nat :| 1 <= j < 8 && a == pl.low + pl.spot.width * j / 8 {
      assert a == pl.low + Grid(pl.spot.width, j);
    }
  }

  // ----- the order within a phase -----

  /** A round evaluates its new amounts from the bottom up. */
  lemma {:induction false} RoundAscends(pl: PlaceData, step: nat, amounts: seq<nat>)
    requires pl.spot.width > LOCAL_WIDTH && 0 < step && amounts == FreshFrom(pl, step)
    ensures forall i, j :: 0 <= i < j < |amounts| ==> amounts[i] < amounts[j]
    decreases SEGMENTS - step
  {
    if step < SEGMENTS {
      var rest := FreshFrom(pl, step + 1);
      RoundAscends(pl, step + 1, rest);
      FreshDistinct(pl, step + 1, rest);
      if step + 1 < SEGMENTS {
        GridRises(pl.spot.width, step, step + 1);
      }
      if Grid(pl.spot.width, step) != pl.spot.at {
        assert amounts == [pl.low + Grid(pl.spot.width, step)] + rest;
      }
    }
  }

  /** The last window is evaluated from the top down: before one of its amounts come all larger new
      ones, so the first profitable one is the largest. */
  lemma {:induction false} WindowDescends(pl: PlaceData, offset: nat, amounts: seq<nat>)
    requires amounts == WindowFrom(pl, offset)
    ensures forall i, j :: 0 <= i < j < |amounts| ==> amounts[i] > amounts[j]
    decreases offset
  {
    if offset > 0 {
      var rest := WindowFrom(pl, offset - 1);
      WindowDescends(pl, offset - 1, rest);
      WindowDistinct(pl, offset - 1, rest);
      if offset < pl.spot.width && offset != pl.spot.at {
        assert amounts == [pl.low + offset] + rest;
      }
    }
  }

  /** When the scan evaluates an amount, it has evaluated every larger one of the window. */
  lemma ScanFromTop<T>(s: Stage<T>, n: nat)
    requires s.Reached? && s.pl.spot.width <= LOCAL_WIDTH && |s.seen| <= n < |s.plan|
    ensures s.pl.low < s.plan[n] < s.pl.High()
    ensures forall a :: s.plan[n] < a <= s.pl.High() ==> a in s.plan[..n]
  {
    var window, k := WindowFrom(s.pl, s.pl.spot.width), n - |s.seen|;
    assert window[k] == s.plan[n];
    WindowIs(s.pl, s.pl.spot.width, window[k]);
    WindowDescends(s.pl, s.pl.spot.width, window);
    forall a | s.plan[n] < a <= s.pl.High() ensures a in s.plan[..n] {
      WindowIs(s.pl, s.pl.spot.width, a);
      EarlierInPlan(s.seen, window, s.plan, k, a);
    }
  }

  lemma EarlierInPlan(seen: seq<nat>, window: seq<nat>, plan: seq<nat>, k: nat, a: nat)
    requires plan == seen + window && k < |window| && window[k] < a && (a in seen || a in window)
    requires forall i, j :: 0 <= i < j < |window| ==> window[i] > window[j]
    ensures a in plan[..|seen| + k]
  {
    if a in seen {
      var i :| 0 <= i < |seen| && seen[i] == a;
      assert plan[..|seen| + k][i] == a;
    } else {
      var i :| 0 <= i < |window| && window[i] == a;
      assert plan[..|seen| + k][|seen| + i] == a;
    }
  }
}
