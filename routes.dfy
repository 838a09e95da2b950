/**
 * The puzzle's own description of a legal crucible route, stated without the
 * search's `moves` counter, and its agreement with the walks of the search
 * graph.
 *
 * A route is a start heading `h0` (east or south, the two headings the search
 * starts from) and the headings `ds` of its unit steps.  It is legal when it
 * stays in the grid, never reverses, never runs more than the maximum number
 * of steps in one heading, turns (and stops on the bottom-right cell) only
 * after the minimum run, and ends on the bottom-right cell.  Its cost is the
 * sum of the digits of the cells it enters.
 */
module Routes {
  import opened Crucible
  import opened Paths

  predicate Headings(ds: seq<int>) {
    forall k | 0 <= k < |ds| :: IsDir(ds[k])
  }

  /** The cell reached from the top-left corner after the first `k` steps. */
  function PosAt(ds: seq<int>, k: nat): (int, int)
    requires Headings(ds) && k <= |ds|
  {
    if k == 0 then (0, 0)
    else
      var p := PosAt(ds, k - 1);
      (p.0 + Deltas[ds[k - 1]].0, p.1 + Deltas[ds[k - 1]].1)
  }

  /** The heading after the first `k` steps taken from start heading `h0`. */
  function HeadingAt(h0: int, ds: seq<int>, k: nat): int
    requires k <= |ds|
  {
    if k == 0 then h0 else ds[k - 1]
  }

  /** How many of the first `k` steps, counted back from the last, share its heading. */
  function RunAt(ds: seq<int>, k: nat): (r: nat)
    requires k <= |ds|
    ensures r <= k
    ensures 0 < k ==> 1 <= r
  {
    if k == 0 then 0
    else if k == 1 || ds[k - 2] != ds[k - 1] then 1
    else RunAt(ds, k - 1) + 1
  }

  /** The least run before a turn or a stop: four in part 2, none in part 1. */
  function MinRun(part2: bool): nat {
    if part2 then 4 else 0
  }

  /** Every cell the route visits, the start included, is in the grid. */
  predicate Inside(grid: Grid, ds: seq<int>)
    requires Headings(ds)
  {
    forall k | 0 <= k <= |ds| :: InBounds(grid, PosAt(ds, k).0, PosAt(ds, k).1)
  }

  predicate RouteOk(grid: Grid, part2: bool, h0: int, ds: seq<int>) {
    && (h0 == 1 || h0 == 2)
    && Headings(ds)
    && Inside(grid, ds)
    && (forall k {:trigger HeadingAt(h0, ds, k)} | 0 <= k < |ds| :: ds[k] != Opposite(HeadingAt(h0, ds, k)))
    && (forall k | 0 < k <= |ds| :: RunAt(ds, k) <= MaxMoves(part2))
    && (forall k {:trigger HeadingAt(h0, ds, k)} | 0 <= k < |ds| && ds[k] != HeadingAt(h0, ds, k) ::
          MinRun(part2) <= RunAt(ds, k))
    && PosAt(ds, |ds|) == (Width(grid) - 1, Height(grid) - 1)
    && MinRun(part2) <= RunAt(ds, |ds|)
  }

  /** The digits of the cells entered in the first `k` steps (the start cell is free). */
  function StepsCost(grid: Grid, ds: seq<int>, k: nat): nat
    requires WellFormed(grid) && Headings(ds) && Inside(grid, ds) && k <= |ds|
  {
    if k == 0 then 0 else StepsCost(grid, ds, k - 1) + CellCost(grid, PosAt(ds, k).0, PosAt(ds, k).1)
  }

  function RouteCost(grid: Grid, ds: seq<int>): nat
    requires WellFormed(grid) && Headings(ds) && Inside(grid, ds)
  {
    StepsCost(grid, ds, |ds|)
  }

  /** The least cost of a legal route, and some legal route costs `c`. */
  ghost predicate IsMinRouteCost(grid: Grid, part2: bool, c: nat)
    requires WellFormed(grid)
  {
    && (exists h0, ds :: RouteOk(grid, part2, h0, ds) && RouteCost(grid, ds) == c)
    && (forall h0, ds | RouteOk(grid, part2, h0, ds) :: c <= RouteCost(grid, ds))
  }

  /** The search state after the first `k` steps from start heading `h0`: the
      counter `moves` is the maximum less the current run. */
  function StateAt(part2: bool, h0: int, ds: seq<int>, k: nat): (s: State)
    requires Headings(ds) && k <= |ds|
  {
    State(PosAt(ds, k).0, PosAt(ds, k).1, HeadingAt(h0, ds, k), MaxMoves(part2) - RunAt(ds, k))
  }

  /** The walk `q` visits, state by state, the states of the route. */
  predicate Tracks(part2: bool, h0: int, ds: seq<int>, q: seq<State>) {
    && Headings(ds)
    && |q| == |ds| + 1
    && (forall k | 0 <= k <= |ds| :: q[k] == StateAt(part2, h0, ds, k))
  }

  /** A heading that is neither kept nor reversed is a left or a right turn. */
  lemma TurnCases(h: int, d: int)
    requires IsDir(h) && IsDir(d) && d != h && d != Opposite(h)
    ensures d == Left(h) || d == Right(h)
  {
  }

  /**
   * The step rule of the source agrees with the rules of a legal route: the
   * state after step `k` is a move of the search from the state before it
   * exactly when the step does not reverse, does not overrun the maximum,
   * and turns only after the minimum run.
   */
  lemma StepAgrees(part2: bool, h0: int, ds: seq<int>, k: nat)
    requires Headings(ds) && IsDir(h0) && k < |ds| && RunAt(ds, k) <= MaxMoves(part2)
    ensures IsMove(part2, StateAt(part2, h0, ds, k), StateAt(part2, h0, ds, k + 1)) <==>
      && ds[k] != Opposite(HeadingAt(h0, ds, k))
      && RunAt(ds, k + 1) <= MaxMoves(part2)
      && (ds[k] != HeadingAt(h0, ds, k) ==> MinRun(part2) <= RunAt(ds, k))
  {
    var s, t := StateAt(part2, h0, ds, k), StateAt(part2, h0, ds, k + 1);
    var h, d := HeadingAt(h0, ds, k), ds[k];
    assert IsDir(h);
    if d == h {
      assert RunAt(ds, k + 1) == RunAt(ds, k) + 1;
      assert t == Advance(s, d, s.moves - 1);
    } else {
      assert RunAt(ds, k + 1) == 1;
      if d != Opposite(h) {
        TurnCases(h, d);
        assert t == Advance(s, d, TurnMoves(part2));
      }
    }
    if IsMove(part2, s, t) {
      MoveRules(part2, s, t);
    }
  }

  /** A move of the search from the state after step `k` into heading `ds[k]`
      is the state after step `k + 1`. */
  lemma MoveIsStep(part2: bool, h0: int, ds: seq<int>, k: nat, t: State)
    requires Headings(ds) && IsDir(h0) && k < |ds| && RunAt(ds, k) <= MaxMoves(part2)
    requires IsMove(part2, StateAt(part2, h0, ds, k), t) && t.dir == ds[k]
    ensures t == StateAt(part2, h0, ds, k + 1)
  {
    var s, u := StateAt(part2, h0, ds, k), StateAt(part2, h0, ds, k + 1);
    MoveRules(part2, s, t);
    assert u.x == t.x && u.y == t.y && u.dir == t.dir && u.moves == t.moves;
  }

  /** Each step of a legal route is an edge of the search graph. */
  lemma RouteStepIsEdge(grid: Grid, part2: bool, h0: int, ds: seq<int>, k: nat)
    requires RouteOk(grid, part2, h0, ds) && k < |ds|
    ensures Edge(grid, part2, StateAt(part2, h0, ds, k), StateAt(part2, h0, ds, k + 1))
  {
    assert k == 0 || RunAt(ds, k) <= MaxMoves(part2);
    StepAgrees(part2, h0, ds, k);
    assert InBounds(grid, PosAt(ds, k + 1).0, PosAt(ds, k + 1).1);
  }

  /** A legal route ends in a goal state of the search. */
  lemma RouteEndIsGoal(grid: Grid, part2: bool, h0: int, ds: seq<int>)
    requires RouteOk(grid, part2, h0, ds)
    ensures IsGoal(grid, StateAt(part2, h0, ds, |ds|))
  {
  }

  /** A goal state of the search ends a route on the bottom-right cell after the minimum run. */
  lemma GoalIsRouteEnd(grid: Grid, part2: bool, h0: int, ds: seq<int>)
    requires Headings(ds) && IsGoal(grid, StateAt(part2, h0, ds, |ds|))
    ensures PosAt(ds, |ds|) == (Width(grid) - 1, Height(grid) - 1)
    ensures MinRun(part2) <= RunAt(ds, |ds|)
  {
  }

  /** The states a route passes through, the start state first. */
  function RouteStates(part2: bool, h0: int, ds: seq<int>): (q: seq<State>)
    requires Headings(ds)
    ensures Tracks(part2, h0, ds, q)
  {
    seq(|ds| + 1, k requires 0 <= k <= |ds| => StateAt(part2, h0, ds, k))
  }

  /** A legal route, walked state by state, is a valid path of the search. */
  lemma RouteIsPath(grid: Grid, part2: bool, h0: int, ds: seq<int>) returns (q: seq<State>)
    requires RouteOk(grid, part2, h0, ds)
    ensures ValidPath(grid, part2, q) && Tracks(part2, h0, ds, q)
  {
    q := RouteStates(part2, h0, ds);
    assert q[0] == Starts(part2)[h0 - 1];
    forall k | 0 <= k < |q| ensures InGrid(grid, q[k]) {
      assert q[k] == StateAt(part2, h0, ds, k);
      assert InBounds(grid, PosAt(ds, k).0, PosAt(ds, k).1);
    }
    forall k | 0 <= k < |q| - 1 ensures Edge(grid, part2, q[k], q[k + 1]) {
      assert q[k] == StateAt(part2, h0, ds, k) && q[k + 1] == StateAt(part2, h0, ds, k + 1);
      RouteStepIsEdge(grid, part2, h0, ds, k);
    }
    RouteEndIsGoal(grid, part2, h0, ds);
    assert Last(q) == StateAt(part2, h0, ds, |ds|);
  }

  /** The headings a walk steps in, one per edge. */
  function Dirs(q: seq<State>): (ds: seq<int>)
    requires 0 < |q|
    ensures |ds| == |q| - 1
    ensures forall k | 0 <= k < |ds| :: ds[k] == q[k + 1].dir
  {
    seq(|q| - 1, k requires 0 <= k < |q| - 1 => q[k + 1].dir)
  }

  /** Every state a walk enters has a heading. */
  lemma WalkHeadings(grid: Grid, part2: bool, q: seq<State>)
    requires Walk(grid, part2, q)
    ensures Headings(Dirs(q))
  {
    var ds := Dirs(q);
    forall j | 0 <= j < |ds| ensures IsDir(ds[j]) {
      assert Edge(grid, part2, q[j], q[j + 1]);
      MoveRules(part2, q[j], q[j + 1]);
    }
  }

  /** If a walk is in the route's state before step `k`, the edge it takes
      leads to the route's state after it. */
  lemma WalkStep(grid: Grid, part2: bool, q: seq<State>, k: nat)
    requires Walk(grid, part2, q) && Headings(Dirs(q)) && 0 < k < |q|
    requires q[k - 1] == StateAt(part2, q[0].dir, Dirs(q), k - 1)
    ensures q[k] == StateAt(part2, q[0].dir, Dirs(q), k)
  {
    var ds, h0 := Dirs(q), q[0].dir;
    assert q[0] in Starts(part2);
    assert Edge(grid, part2, q[k - 1], q[k]);
    assert q[k].dir == ds[k - 1];
    MoveIsStep(part2, h0, ds, k - 1, q[k]);
  }

  /** The `k`-th state of a walk is the state after its first `k` headings. */
  lemma {:induction false} WalkTracksAt(grid: Grid, part2: bool, q: seq<State>, k: nat)
    requires Walk(grid, part2, q) && Headings(Dirs(q)) && k < |q|
    ensures q[k] == StateAt(part2, q[0].dir, Dirs(q), k)
  {
    if k > 0 {
      WalkTracksAt(grid, part2, q, k - 1);
      WalkStep(grid, part2, q, k);
    }
  }

  lemma WalkTracks(grid: Grid, part2: bool, q: seq<State>)
    requires Walk(grid, part2, q)
    ensures Tracks(part2, q[0].dir, Dirs(q), q)
  {
    WalkHeadings(grid, part2, q);
    forall k | 0 <= k < |q| ensures q[k] == StateAt(part2, q[0].dir, Dirs(q), k) {
      WalkTracksAt(grid, part2, q, k);
    }
  }

  /** Each edge of a tracked walk is a legal step of the route. */
  lemma EdgeIsStep(grid: Grid, part2: bool, h0: int, ds: seq<int>, q: seq<State>, k: nat)
    requires Walk(grid, part2, q) && Tracks(part2, h0, ds, q) && k < |ds|
    ensures ds[k] != Opposite(HeadingAt(h0, ds, k))
    ensures RunAt(ds, k + 1) <= MaxMoves(part2)
    ensures ds[k] != HeadingAt(h0, ds, k) ==> MinRun(part2) <= RunAt(ds, k)
  {
    assert q[0] == StateAt(part2, h0, ds, 0);
    assert Edge(grid, part2, q[k], q[k + 1]);
    assert q[k] == StateAt(part2, h0, ds, k);
    assert q[k + 1] == StateAt(part2, h0, ds, k + 1);
    StepAgrees(part2, h0, ds, k);
  }

  /** A valid path of the search is a legal route in the headings it takes. */
  lemma PathIsRoute(grid: Grid, part2: bool, q: seq<State>)
    requires ValidPath(grid, part2, q)
    ensures RouteOk(grid, part2, q[0].dir, Dirs(q))
  {
    var h0, ds := q[0].dir, Dirs(q);
    WalkTracks(grid, part2, q);
    forall k | 0 <= k <= |ds| ensures InBounds(grid, PosAt(ds, k).0, PosAt(ds, k).1) {
      assert InGrid(grid, q[k]);
    }
    forall k {:trigger HeadingAt(h0, ds, k)} | 0 <= k < |ds| ensures ds[k] != Opposite(HeadingAt(h0, ds, k)) {
      EdgeIsStep(grid, part2, h0, ds, q, k);
    }
    forall k | 0 < k <= |ds| ensures RunAt(ds, k) <= MaxMoves(part2) {
      EdgeIsStep(grid, part2, h0, ds, q, k - 1);
    }
    forall k {:trigger HeadingAt(h0, ds, k)} | 0 <= k < |ds| && ds[k] != HeadingAt(h0, ds, k)
      ensures MinRun(part2) <= RunAt(ds, k)
    {
      EdgeIsStep(grid, part2, h0, ds, q, k);
    }
    assert Last(q) == StateAt(part2, h0, ds, |ds|);
    GoalIsRouteEnd(grid, part2, h0, ds);
  }

  /** The first `k + 1` states of a tracked walk cost what the first `k` steps of the route do. */
  lemma {:induction false} TrackedCostAt(grid: Grid, part2: bool, h0: int, ds: seq<int>, q: seq<State>, k: nat)
    requires WellFormed(grid) && Tracks(part2, h0, ds, q) && Inside(grid, ds) && k <= |ds|
    ensures AllInGrid(grid, q[..k + 1]) && PathCost(grid, q[..k + 1]) == StepsCost(grid, ds, k)
  {
    forall j | 0 <= j <= k ensures InGrid(grid, q[j]) {
      assert InBounds(grid, PosAt(ds, j).0, PosAt(ds, j).1);
    }
    if k > 0 {
      TrackedCostAt(grid, part2, h0, ds, q, k - 1);
      assert q[..k + 1][..k] == q[..k];
      assert Last(q[..k + 1]) == StateAt(part2, h0, ds, k);
    }
  }

  /** A walk and the route it tracks cost the same. */
  lemma TrackedCost(grid: Grid, part2: bool, h0: int, ds: seq<int>, q: seq<State>)
    requires WellFormed(grid) && Tracks(part2, h0, ds, q) && Inside(grid, ds)
    ensures AllInGrid(grid, q) && PathCost(grid, q) == RouteCost(grid, ds)
  {
    TrackedCostAt(grid, part2, h0, ds, q, |ds|);
    assert q[..|ds| + 1] == q;
  }

  /** Every valid path is a legal route of the same cost. */
  lemma PathCostIsRouteCost(grid: Grid, part2: bool, q: seq<State>)
    requires WellFormed(grid) && ValidPath(grid, part2, q)
    ensures RouteOk(grid, part2, q[0].dir, Dirs(q))
    ensures PathCost(grid, q) == RouteCost(grid, Dirs(q))
  {
    PathIsRoute(grid, part2, q);
    WalkTracks(grid, part2, q);
    TrackedCost(grid, part2, q[0].dir, Dirs(q), q);
  }

  /** Every legal route is a valid path of the same cost. */
  lemma RouteCostIsPathCost(grid: Grid, part2: bool, h0: int, ds: seq<int>) returns (q: seq<State>)
    requires WellFormed(grid) && RouteOk(grid, part2, h0, ds)
    ensures ValidPath(grid, part2, q) && PathCost(grid, q) == RouteCost(grid, ds)
  {
    q := RouteIsPath(grid, part2, h0, ds);
    TrackedCost(grid, part2, h0, ds, q);
  }

  /** The least cost over valid paths is a least cost over legal routes. */
  lemma MinPathIsMinRoute(grid: Grid, part2: bool, c: nat)
    requires WellFormed(grid) && IsMinCost(grid, part2, c)
    ensures IsMinRouteCost(grid, part2, c)
  {
    var q: seq<State> :| ValidPath(grid, part2, q) && PathCost(grid, q) == c;
    PathCostIsRouteCost(grid, part2, q);
    forall h0, ds | RouteOk(grid, part2, h0, ds) ensures c <= RouteCost(grid, ds) {
      var q' := RouteCostIsPathCost(grid, part2, h0, ds);
    }
  }

  /** The least cost over legal routes is a least cost over valid paths. */
  lemma MinRouteIsMinPath(grid: Grid, part2: bool, c: nat)
    requires WellFormed(grid) && IsMinRouteCost(grid, part2, c)
    ensures IsMinCost(grid, part2, c)
  {
    var h0, ds :| RouteOk(grid, part2, h0, ds) && RouteCost(grid, ds) == c;
    var q := RouteCostIsPathCost(grid, part2, h0, ds);
    forall q': seq<State> | ValidPath(grid, part2, q') ensures c <= PathCost(grid, q') {
      PathCostIsRouteCost(grid, part2, q');
    }
  }

  /** The least cost over valid paths is the least cost over legal routes. */
  lemma MinCostAgrees(grid: Grid, part2: bool, c: nat)
    requires WellFormed(grid)
    ensures IsMinCost(grid, part2, c) <==> IsMinRouteCost(grid, part2, c)
  {
    if IsMinCost(grid, part2, c) {
      MinPathIsMinRoute(grid, part2, c);
    }
    if IsMinRouteCost(grid, part2, c) {
      MinRouteIsMinPath(grid, part2, c);
    }
  }

  /** There is a valid path exactly when there is a legal route. */
  lemma ExistsAgrees(grid: Grid, part2: bool)
    ensures (exists q :: ValidPath(grid, part2, q)) <==> (exists h0, ds :: RouteOk(grid, part2, h0, ds))
  {
    if q: seq<State> :| ValidPath(grid, part2, q) {
      PathIsRoute(grid, part2, q);
    }
    if h0, ds :| RouteOk(grid, part2, h0, ds) {
      var q := RouteIsPath(grid, part2, h0, ds);
    }
  }

  /** On a one-cell grid the part-1 answer is 0: the crucible starts on the
      goal with a run of none, which part 1 allows it to stop after. */
  lemma SingleCellPart1(digit: char)
    requires IsDigit(digit)
    ensures IsMinRouteCost([[digit]], false, 0)
  {
    assert RouteOk([[digit]], false, 1, []) && RouteCost([[digit]], []) == 0;
  }

  /** On a one-cell grid part 2 has no legal route: stopping at once breaks
      the minimum run, and any step leaves the grid. */
  lemma SingleCellPart2(digit: char)
    ensures forall h0, ds :: !RouteOk([[digit]], true, h0, ds)
  {
    forall h0, ds ensures !RouteOk([[digit]], true, h0, ds) {
      if ds == [] {
        assert RunAt(ds, |ds|) < MinRun(true);
      } else if Headings(ds) {
        assert PosAt(ds, 0) == (0, 0);
        assert !InBounds([[digit]], PosAt(ds, 1).0, PosAt(ds, 1).1);
      }
    }
  }
}
