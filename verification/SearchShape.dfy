/**
 The geometry of the refinement: what a round does to an interval and to the best
 amount in it, counted from the interval's low end, and how many probes the rest of
 a search can still take.
 */
module SearchShape {
  const SEGMENTS: nat := 8
  const LOCAL_WIDTH: nat := 64

  /** width * step */
  function Times(width: nat, step: nat): nat {
    if step == 0 then 0 else width + Times(width, step - 1)
  }

  lemma {:induction false} TimesIsProduct(width: nat, step: nat)
    ensures Times(width, step) == width * step
  {
    if step > 0 {
      TimesIsProduct(width, step - 1);
    }
  }

  /** The grid amount of a step, as an offset: width * step / 8. */
  function Grid(width: nat, step: nat): nat { Times(width, step) / SEGMENTS }

  datatype SpotData = SpotData(width: nat, at: nat)

  /** An interval, and where in it the best amount so far lies.  Inside the interval
      nothing else has been evaluated. */
  type Spot = s: SpotData | s.at <= s.width witness SpotData(0, 0)

  predicate Inner(s: Spot) { 0 < s.at < s.width }

  predicate AtMiddle(s: Spot) { s.at == s.width / 2 }

  lemma GridEnds(width: nat)
    ensures Grid(width, 0) == 0 && Grid(width, SEGMENTS) == width
  {
    TimesIsProduct(width, SEGMENTS);
  }

  /** Two neighbouring grid amounts are an eighth apart, rounded either way. */
  lemma GridGap(width: nat, step: nat)
    ensures Times(width, step + 1) == Times(width, step) + width
    ensures width / 8 <= Grid(width, step + 1) - Grid(width, step) <= width / 8 + 1
  {
  }

  lemma {:induction false} GridRises(width: nat, i: nat, j: nat)
    requires width >= 8 && i <= j <= SEGMENTS
    ensures Grid(width, i) <= Grid(width, j) <= width
    ensures i < j ==> Grid(width, i) < Grid(width, j)
    decreases SEGMENTS - i
  {
    if i < j {
      GridGap(width, i);
      GridRises(width, i + 1, j);
    } else if j < SEGMENTS {
      GridGap(width, j);
      GridRises(width, j + 1, SEGMENTS);
      GridEnds(width);
    } else {
      GridEnds(width);
    }
  }

  lemma {:induction false} GridInside(width: nat, k: nat)
    requires k <= SEGMENTS
    ensures Grid(width, k) <= width
    decreases SEGMENTS - k
  {
    if k < SEGMENTS {
      GridGap(width, k);
      GridInside(width, k + 1);
    } else {
      GridEnds(width);
    }
  }

  // ----- the neighbours of an amount among the evaluated ones -----

  /** The largest grid amount below `b` among the steps up to `step`. */
  function GridBelow(width: nat, b: nat, step: nat): (g: nat)
    ensures if b == 0 then g == 0 else g < b
  {
    if step == 0 then 0 else if Grid(width, step) < b then Grid(width, step) else GridBelow(width, b, step - 1)
  }

  /** The smallest grid amount above `b` among the steps from `step` on. */
  function GridAbove(width: nat, b: nat, step: nat): (g: nat)
    requires b <= width
    ensures if b == width then g >= b else g > b
    decreases SEGMENTS - step
  {
    if step >= SEGMENTS then width
    else if Grid(width, step) > b then Grid(width, step)
    else GridAbove(width, b, step + 1)
  }

  function Left(s: Spot, b: nat): (left: nat)
    ensures if b == 0 then left == 0 else left < b
  {
    var g := GridBelow(s.width, b, SEGMENTS);
    if g < s.at < b then s.at else g
  }

  function Right(s: Spot, b: nat): (right: nat)
    requires b <= s.width
    ensures if b == s.width then right >= b else right > b
  {
    var g := GridAbove(s.width, b, 0);
    if b < s.at < g then s.at else g
  }

  lemma {:induction false} GridBelowIs(width: nat, b: nat, step: nat, k: nat)
    requires width >= 8 && k < SEGMENTS && k <= step <= SEGMENTS
    requires Grid(width, k) < b <= Grid(width, k + 1) || (k == 0 && b == 0)
    ensures GridBelow(width, b, step) == Grid(width, k)
  {
    GridEnds(width);
    if step > k {
      GridRises(width, k + 1, step);
      GridBelowIs(width, b, step - 1, k);
    }
  }

  lemma {:induction false} GridAboveIs(width: nat, b: nat, step: nat, k: nat)
    requires width >= 8 && step <= k <= SEGMENTS && k > 0 && b <= width
    requires Grid(width, k - 1) <= b < Grid(width, k) || (k == SEGMENTS && b == width)
    ensures GridAbove(width, b, step) == Grid(width, k)
    decreases SEGMENTS - step
  {
    GridEnds(width);
    if step < k {
      GridRises(width, step, k - 1);
      GridAboveIs(width, b, step + 1, k);
    }
  }

  /** The grid cell an offset lies in. */
  lemma {:induction false} CellOf(width: nat, b: nat, steps: nat) returns (k: nat)
    requires width >= 8 && 0 < steps <= SEGMENTS && b < Grid(width, steps)
    ensures k < steps && Grid(width, k) <= b < Grid(width, k + 1)
  {
    GridEnds(width);
    k := steps - 1;
    if b < Grid(width, k) {
      k := CellOf(width, b, steps - 1);
    }
  }

  // ----- one round -----

  /** What can be best after a round: the amount that was (choice 0), or a grid amount. */
  function Choice(s: Spot, k: nat): (b: nat)
    requires k < SEGMENTS
    ensures b <= s.width
  {
    if k == 0 then s.at else
      GridInside(s.width, k);
      Grid(s.width, k)
  }

  /** The interval between the neighbours of the new best amount. */
  function Narrowed(s: Spot, b: nat): Spot
    requires b <= s.width
  {
    SpotData(Right(s, b) - Left(s, b), b - Left(s, b))
  }

  lemma NarrowToGrid(s: Spot, k: nat)
    requires s.width > LOCAL_WIDTH && 0 < k < SEGMENTS
    ensures var b := Grid(s.width, k);
            && b <= s.width
            && GridBelow(s.width, b, SEGMENTS) == Grid(s.width, k - 1) < b
            && GridAbove(s.width, b, 0) == Grid(s.width, k + 1) > b
  {
    GridRises(s.width, k - 1, k);
    GridRises(s.width, k, k + 1);
    GridBelowIs(s.width, Grid(s.width, k), SEGMENTS, k - 1);
    GridAboveIs(s.width, Grid(s.width, k), 0, k + 1);
  }

  /** Where the neighbours of an inner amount are that is on no grid step. */
  lemma NarrowToCell(s: Spot) returns (k: nat)
    requires s.width > LOCAL_WIDTH && Inner(s)
    ensures k < SEGMENTS && Grid(s.width, k) <= s.at < Grid(s.width, k + 1)
    ensures Grid(s.width, k) < s.at ==>
              Left(s, s.at) == Grid(s.width, k) && Right(s, s.at) == Grid(s.width, k + 1)
    ensures Grid(s.width, k) == s.at ==> k > 0
  {
    GridEnds(s.width);
    k := CellOf(s.width, s.at, SEGMENTS);
    if Grid(s.width, k) < s.at {
      GridBelowIs(s.width, s.at, SEGMENTS, k);
      GridAboveIs(s.width, s.at, 0, k + 1);
    }
  }

  /** Two cells together are at most a quarter of the interval, rounded up. */
  lemma TwoCells(width: nat, k: nat)
    requires 0 < k < SEGMENTS
    ensures Grid(width, k + 1) - Grid(width, k - 1) <= (width + 3) / 4
  {
    GridGap(width, k);
    GridGap(width, k - 1);
  }

  /** A round takes an interval wider than 64 to a quarter of its width at most, and an
      inner amount stays inner. */
  lemma RoundNarrows(s: Spot, k: nat)
    requires s.width > LOCAL_WIDTH && k < SEGMENTS
    ensures var c := Narrowed(s, Choice(s, k));
            && c.width <= (s.width + 3) / 4 < s.width
            && (k > 0 || Inner(s) ==> Inner(c))
            && (!Inner(s) && k == 0 ==> !Inner(c) && c.width <= s.width / 8 + 1)
  {
    GridEnds(s.width);
    if k > 0 {
      NarrowToGrid(s, k);
      TwoCells(s.width, k);
    } else if Inner(s) {
      var j := NarrowToCell(s);
      if Grid(s.width, j) == s.at {
        NarrowToGrid(s, j);
        TwoCells(s.width, j);
      } else {
        GridGap(s.width, j);
      }
    } else {
      EndStays(s);
    }
  }

  lemma EndStays(s: Spot)
    requires s.width > LOCAL_WIDTH && !Inner(s)
    ensures var c := Narrowed(s, s.at); !Inner(c) && c.width <= s.width / 8 + 1
  {
    GridEnds(s.width);
    GridGap(s.width, 0);
    GridGap(s.width, SEGMENTS - 1);
    if s.at == 0 {
      GridBelowIs(s.width, 0, SEGMENTS, 0);
      GridAboveIs(s.width, 0, 0, 1);
    } else {
      GridBelowIs(s.width, s.width, SEGMENTS, SEGMENTS - 1);
      GridAboveIs(s.width, s.width, 0, SEGMENTS);
    }
  }

  // ----- what the rest of a search can cost -----

  /** The grid amounts from a step on that are not evaluated yet. */
  function CountNew(s: Spot, step: nat): nat
    decreases SEGMENTS - step
  {
    if step >= SEGMENTS then 0 else (if Grid(s.width, step) == s.at then 0 else 1) + CountNew(s, step + 1)
  }

  /** The amounts of the last window that are not evaluated yet. */
  function ScanCost(s: Spot): nat {
    if Inner(s) then s.width - 2 else if s.width == 0 then 0 else s.width - 1
  }

  /** Which amount turned out best in each round. */
  type Path = p: seq<nat> | forall i :: 0 <= i < |p| ==> p[i] < SEGMENTS witness []

  /** The probes the refinement and the scan take from here along a path of rounds: each pays
      for its new grid amounts. */
  function PathCost(s: Spot, path: Path): nat
    decreases path
  {
    if s.width <= LOCAL_WIDTH then ScanCost(s)
    else if path == [] then 0
    else CountNew(s, 1) + PathCost(Narrowed(s, Choice(s, path[0])), path[1..])
  }

  lemma {:induction false} CountNewIs(s: Spot, step: nat, k: nat)
    requires s.width > LOCAL_WIDTH && step <= SEGMENTS
    ensures CountNew(s, step) <= SEGMENTS - step
    ensures step <= k < SEGMENTS && Grid(s.width, k) == s.at ==> CountNew(s, step) <= SEGMENTS - 1 - step
    ensures (forall j :: step <= j < SEGMENTS ==> Grid(s.width, j) != s.at) ==> CountNew(s, step) == SEGMENTS - step
    decreases SEGMENTS - step
  {
    if step < SEGMENTS {
      CountNewIs(s, step + 1, k);
    }
  }

  // ----- how wide an interval the budget reaches -----

  lemma {:induction false} TimesSplits(q: nat, r: nat, k: nat)
    ensures Times(8 * q + r, k) == 8 * Times(q, k) + Times(r, k)
  {
    if k > 0 {
      TimesSplits(q, r, k - 1);
    }
  }

  lemma EvenGrid(q: nat, k: nat)
    requires k < SEGMENTS
    ensures Grid(8 * q + 1, k) == Times(q, k)
  {
    TimesSplits(q, 1, k);
    TimesIsProduct(1, k);
  }

  /** With a remainder of one, only the last cell is longer than an eighth. */
  lemma AlmostEven(width: nat, k: nat)
    requires width % 8 == 1 && 0 < k < SEGMENTS
    ensures Grid(width, k) - Grid(width, k - 1) == width / 8
  {
    var q := width / 8;
    EvenGrid(q, k);
    EvenGrid(q, k - 1);
    assert width == 8 * q + 1;
  }

  /** The two cells around a grid step. */
  lemma PairAround(width: nat, k: nat)
    requires 0 < k < SEGMENTS
    ensures var left, right := Grid(width, k) - Grid(width, k - 1), Grid(width, k + 1) - Grid(width, k);
            && width / 8 <= left <= width / 8 + 1 && width / 8 <= right <= width / 8 + 1
            && left + right <= (width + 3) / 4
            && (width % 8 == 1 ==> left == width / 8)
  {
    GridGap(width, k - 1);
    GridGap(width, k);
    TwoCells(width, k);
    if width % 8 == 1 {
      AlmostEven(width, k);
    }
  }

  /** Where the two neighbours of a chosen grid amount are, the old best amount included. */
  lemma Around(s: Spot, k: nat)
    requires s.width > LOCAL_WIDTH && 0 < k < SEGMENTS
    ensures var b, c := Grid(s.width, k), Narrowed(s, Choice(s, k));
            var lo, hi := Grid(s.width, k - 1), Grid(s.width, k + 1);
            && lo < b < hi <= s.width
            && c.at == (if lo < s.at < b then b - s.at else b - lo)
            && c.width == c.at + (if b < s.at < hi then s.at - b else hi - b)
  {
    NarrowToGrid(s, k);
    GridRises(s.width, k + 1, SEGMENTS);
    GridEnds(s.width);
  }

  /** How two cells, or what the old best amount leaves of them, compare to an odd `m`. */
  lemma PairShape(width: nat, left: nat, right: nat, m: nat, c: Spot)
    requires LOCAL_WIDTH < width <= 4 * m - 3 && m % 2 == 1
    requires width / 8 <= left <= width / 8 + 1 && width / 8 <= right <= width / 8 + 1
    requires left + right <= (width + 3) / 4 && (width % 8 == 1 ==> left == width / 8)
    requires (c.at <= left && c.width == c.at + right) || (c.at == left && c.width <= left + right)
    ensures Reduced(c, m)
  {
    if width == 4 * m - 3 {
      assert m == 2 * (width / 8) + 1;
    } else {
      assert left + right <= m - 1;
    }
  }

  /** Narrower than `m` by two, or with the best amount in the middle, or just below the
      middle of m - 1. */
  predicate Reduced(c: Spot, m: nat) {
    && c.width <= m
    && (c.width + 1 >= m ==> AtMiddle(c) || (c.width + 1 == m && c.at + 1 == c.width / 2))
  }

  lemma RoundShape(s: Spot, k: nat, m: nat)
    requires s.width > LOCAL_WIDTH && Inner(s) && k < SEGMENTS && m % 2 == 1 && s.width <= 4 * m - 3
    ensures Reduced(Narrowed(s, Choice(s, k)), m)
  {
    var c := Narrowed(s, Choice(s, k));
    if k > 0 {
      ReducedAround(s, k, m);
    } else {
      var j := NarrowToCell(s);
      if Grid(s.width, j) == s.at {
        assert Choice(s, j) == s.at;
        ReducedAround(s, j, m);
      } else {
        GridGap(s.width, j);
        assert c.width <= s.width / 8 + 1;
      }
    }
  }

  lemma ReducedAround(s: Spot, k: nat, m: nat)
    requires s.width > LOCAL_WIDTH && 0 < k < SEGMENTS && m % 2 == 1 && s.width <= 4 * m - 3
    ensures Reduced(Narrowed(s, Choice(s, k)), m)
  {
    var left, right := Grid(s.width, k) - Grid(s.width, k - 1), Grid(s.width, k + 1) - Grid(s.width, k);
    PairAround(s.width, k);
    Around(s, k);
    PairShape(s.width, left, right, m, Narrowed(s, Choice(s, k)));
  }

  lemma GridWithTwo(width: nat)
    requires width % 8 == 2
    ensures var q := width / 8;
            && Grid(width, 1) == q && Grid(width, 2) == 2 * q && Grid(width, 3) == 3 * q
            && Grid(width, 4) == 4 * q + 1 && Grid(width, 5) == 5 * q + 1 && Grid(width, 6) == 6 * q + 1
            && Grid(width, 7) == 7 * q + 1
  {
    TimesIsProduct(width, 1);
    TimesIsProduct(width, 2);
    TimesIsProduct(width, 3);
    TimesIsProduct(width, 4);
    TimesIsProduct(width, 5);
    TimesIsProduct(width, 6);
    TimesIsProduct(width, 7);
  }

  /** The last kind of reduced spot reduces to the other two. */
  lemma RoundShapeBelowMiddle(s: Spot, k: nat, m: nat)
    requires s.width > LOCAL_WIDTH && Inner(s) && k < SEGMENTS && m % 2 == 1 && s.width == 4 * m - 2
    requires s.at == s.width / 2 - 1
    ensures var c := Narrowed(s, Choice(s, k));
            c.width <= m && (c.width + 1 >= m ==> AtMiddle(c))
  {
    var w, q := s.width, s.width / 8;
    assert w % 8 == 2 && m == 2 * q + 1 && s.at == 4 * q;
    if k == 0 {
      GridWithTwo(w);
      GridBelowIs(w, s.at, SEGMENTS, 3);
      GridAboveIs(w, s.at, 0, 4);
    } else {
      PairWithTwo(s, k);
    }
  }

  /** Three neighbouring grid amounts of a width with remainder two, against 4 * q. */
  predicate TripleOfTwo(q: nat, lo: nat, b: nat, hi: nat) {
    || (b - lo == q && hi - b == q && (hi <= 3 * q || lo > 4 * q))
    || (lo == 2 * q && b == 3 * q && hi == 4 * q + 1)
    || (lo == 3 * q && b == 4 * q + 1 && hi == 5 * q + 1)
    || (lo == 6 * q + 1 && b == 7 * q + 1 && hi == 8 * q + 2)
  }

  lemma TripleAt(width: nat, k: nat)
    requires width % 8 == 2 && 0 < k < SEGMENTS
    ensures TripleOfTwo(width / 8, Grid(width, k - 1), Grid(width, k), Grid(width, k + 1))
  {
    GridWithTwo(width);
    GridEnds(width);
    if k <= 2 {
      assert Grid(width, k + 1) == (k + 1) * (width / 8);
    }
  }

  lemma PairWithTwo(s: Spot, k: nat)
    requires s.width > LOCAL_WIDTH && 0 < k < SEGMENTS && s.width % 8 == 2 && s.at == 4 * (s.width / 8)
    ensures var c, q := Narrowed(s, Choice(s, k)), s.width / 8;
            c.width <= 2 * q + 1 && (c.width >= 2 * q ==> AtMiddle(c))
  {
    TripleAt(s.width, k);
    Around(s, k);
    TripleWithTwo(s.width / 8, Grid(s.width, k - 1), Grid(s.width, k), Grid(s.width, k + 1), Narrowed(s, Choice(s, k)));
  }

  lemma TripleWithTwo(q: nat, lo: nat, b: nat, hi: nat, c: Spot)
    requires q > 0 && TripleOfTwo(q, lo, b, hi)
    requires c.at == if lo < 4 * q < b then b - 4 * q else b - lo
    requires c.width == c.at + if b < 4 * q < hi then 4 * q - b else hi - b
    ensures c.width <= 2 * q + 1 && (c.width >= 2 * q ==> AtMiddle(c))
  {
  }

  /** The widths at which one more probe becomes possible, round by round. */
  function Tight(n: nat): (w: nat)
    ensures w >= 60 && (n > 0 ==> w % 2 == 1 && w >= 237)
  {
    if n == 0 then 60 else if n == 1 then 237 else 4 * Tight(n - 1) - 1
  }

  predicate BelowMiddle(s: Spot, n: nat) { s.width == Tight(n) - 1 && s.at == s.width / 2 - 1 }

  datatype LevelData = LevelData(s: Spot, n: nat)

  /** An inner spot of at most the n-th tight width. */
  type TightLevel = l: LevelData | Inner(l.s) && l.s.width <= Tight(l.n) witness LevelData(SpotData(2, 1), 0)

  /** One whose search costs one less. */
  predicate Cheap(s: Spot, n: nat) {
    s.width <= Tight(n) - 2 || (n == 0 && s.width <= Tight(n) - 1) || (n > 0 && BelowMiddle(s, n))
  }

  type CheapLevel = l: LevelData | Inner(l.s) && Cheap(l.s, l.n) witness LevelData(SpotData(2, 1), 0)

  /** So does one whose middle is already evaluated. */
  type MiddleLevel = l: LevelData | l.n > 0 && Inner(l.s) && l.s.width <= Tight(l.n) && AtMiddle(l.s)
    witness LevelData(SpotData(2, 1), 1)

  lemma TightRound(l: TightLevel, k: nat) returns (c: TightLevel)
    requires l.s.width > LOCAL_WIDTH && k < SEGMENTS
    ensures l.n > 0 && c == LevelData(Narrowed(l.s, Choice(l.s, k)), l.n - 1)
  {
    RoundNarrows(l.s, k);
    c := LevelData(Narrowed(l.s, Choice(l.s, k)), l.n - 1);
  }

  /** A round leaves a cheap spot cheap, or with its middle evaluated. */
  lemma CheapRound(l: CheapLevel, k: nat) returns (c: TightLevel)
    requires l.s.width > LOCAL_WIDTH && k < SEGMENTS
    ensures l.n > 0 && c == LevelData(Narrowed(l.s, Choice(l.s, k)), l.n - 1)
    ensures Cheap(c.s, c.n) || (c.n > 0 && AtMiddle(c.s))
  {
    c := TightRound(l, k);
    RoundNarrows(l.s, k);
    if l.n > 1 {
      if l.s.width <= Tight(l.n) - 2 {
        RoundShape(l.s, k, Tight(l.n - 1));
      } else {
        RoundShapeBelowMiddle(l.s, k, Tight(l.n - 1));
      }
    }
  }

  lemma RoundCost(s: Spot)
    requires s.width > LOCAL_WIDTH
    ensures CountNew(s, 1) <= if AtMiddle(s) then 6 else 7
  {
    CountNewIs(s, 1, 4);
    TimesIsProduct(s.width, 4);
  }

  /** What the rest of a search can cost from an inner spot of at most a tight width. */
  lemma {:induction false} CostBound(l: TightLevel, path: Path)
    ensures PathCost(l.s, path) <= 7 * l.n + 58
    decreases path
  {
    if l.s.width > LOCAL_WIDTH && path != [] {
      RoundCost(l.s);
      var c := TightRound(l, path[0]);
      CostBound(c, path[1..]);
    }
  }

  lemma MiddleCostBound(l: MiddleLevel, path: Path)
    ensures PathCost(l.s, path) <= 7 * l.n + 57
  {
    if l.s.width > LOCAL_WIDTH && path != [] {
      RoundCost(l.s);
      var c := TightRound(l, path[0]);
      CostBound(c, path[1..]);
    }
  }

  lemma {:induction false} CheapCostBound(l: CheapLevel, path: Path)
    ensures PathCost(l.s, path) <= 7 * l.n + 57
    decreases path
  {
    if l.s.width > LOCAL_WIDTH && path != [] {
      RoundCost(l.s);
      var c := CheapRound(l, path[0]);
      if Cheap(c.s, c.n) {
        CheapCostBound(c, path[1..]);
      } else {
        MiddleCostBound(c, path[1..]);
      }
    }
  }

  /** A narrow enough interval whose best amount is one of its ends. */
  type EndLevel = l: LevelData | !Inner(l.s) && l.s.width <= Tight(l.n) - 7 witness LevelData(SpotData(0, 0), 0)

  lemma EndRound(l: EndLevel, k: nat) returns (c: LevelData)
    requires l.s.width > LOCAL_WIDTH && k < SEGMENTS
    ensures l.n > 0 && c == LevelData(Narrowed(l.s, Choice(l.s, k)), l.n - 1)
    ensures if k > 0 then Inner(c.s) && Cheap(c.s, c.n) else !Inner(c.s) && c.s.width <= Tight(c.n) - 7
  {
    RoundNarrows(l.s, k);
    c := LevelData(Narrowed(l.s, Choice(l.s, k)), l.n - 1);
  }

  lemma {:induction false} EndCostBound(l: EndLevel, path: Path)
    ensures PathCost(l.s, path) <= 7 * l.n + 57
    decreases path
  {
    if l.s.width > LOCAL_WIDTH && path != [] {
      RoundCost(l.s);
      var c := EndRound(l, path[0]);
      if path[0] > 0 {
        CheapCostBound(c, path[1..]);
      } else {
        EndCostBound(c, path[1..]);
      }
    }
  }

  function TightSpot(n: nat): Spot { SpotData(Tight(n), (Tight(n) + 1) / 2) }

  /** The best amount of a tight interval is on no grid step. */
  lemma TightCountsSeven(n: nat)
    requires n > 0
    ensures CountNew(TightSpot(n), 1) == 7
  {
    var s := TightSpot(n);
    TimesIsProduct(s.width, 4);
    TimesIsProduct(s.width, 5);
    forall j | 1 <= j < SEGMENTS ensures Grid(s.width, j) != s.at {
      if j <= 4 {
        GridRises(s.width, j, 4);
      } else {
        GridRises(s.width, 5, j);
      }
    }
    CountNewIs(s, 1, 0);
  }

  lemma TightRemainder(n: nat)
    requires n > 1
    ensures Tight(n) % 8 == 3 && Tight(n) / 8 == Tight(n - 1) / 2
  {
  }

  lemma FirstTightNarrows()
    ensures Narrowed(TightSpot(1), Choice(TightSpot(1), 7)) == TightSpot(0)
  {
    TimesIsProduct(237, 6);
    TimesIsProduct(237, 7);
    GridEnds(237);
    Around(TightSpot(1), 7);
  }

  lemma GridWithThree(q: nat)
    ensures Grid(8 * q + 3, 2) == 2 * q && Grid(8 * q + 3, 3) == 3 * q + 1 && Grid(8 * q + 3, 4) == 4 * q + 1
  {
    TimesIsProduct(8 * q + 3, 2);
    TimesIsProduct(8 * q + 3, 3);
    TimesIsProduct(8 * q + 3, 4);
  }

  lemma ThirdStep(q: nat)
    requires 8 * q + 3 > LOCAL_WIDTH
    ensures Narrowed(SpotData(8 * q + 3, 4 * q + 2), Choice(SpotData(8 * q + 3, 4 * q + 2), 3))
            == SpotData(2 * q + 1, q + 1)
  {
    GridWithThree(q);
    Around(SpotData(8 * q + 3, 4 * q + 2), 3);
  }

  /** A tight interval leaves the next tight one around its third grid step. */
  lemma TightNarrows(n: nat)
    requires n > 1
    ensures Narrowed(TightSpot(n), Choice(TightSpot(n), 3)) == TightSpot(n - 1)
  {
    TightRemainder(n);
    var q := Tight(n) / 8;
    assert TightSpot(n) == SpotData(8 * q + 3, 4 * q + 2) && TightSpot(n - 1) == SpotData(2 * q + 1, q + 1);
    ThirdStep(q);
  }

  function TightPath(n: nat): Path {
    if n == 0 then [] else [if n == 1 then 7 else 3] + TightPath(n - 1)
  }

  lemma PathStep(s: Spot, k: nat, rest: Path)
    requires s.width > LOCAL_WIDTH && k < SEGMENTS
    ensures PathCost(s, [k] + rest) == CountNew(s, 1) + PathCost(Narrowed(s, Choice(s, k)), rest)
  {
    assert ([k] + rest)[1..] == rest;
  }

  /** And it does cost as much: a tight interval whose best amount is just above its middle. */
  lemma {:induction false} TightCosts(n: nat)
    ensures PathCost(TightSpot(n), TightPath(n)) == 7 * n + 58
  {
    if n > 0 {
      var k := if n == 1 then 7 else 3;
      TightCountsSeven(n);
      TightCosts(n - 1);
      PathStep(TightSpot(n), k, TightPath(n - 1));
      if n == 1 {
        FirstTightNarrows();
      } else {
        TightNarrows(n);
      }
    }
  }
}
