/**
 * Walks of the search graph and what they cost.  A valid path is a walk from
 * one of the two start states to a goal state; its cost is the sum of the
 * digits of the cells it enters (the start cell is free).  The answer of the
 * solver is the least cost of a valid path.
 */
module Paths {
  import opened Crucible

  function Last<T>(q: seq<T>): T
    requires |q| > 0
  {
    q[|q| - 1]
  }

  predicate AllInGrid(grid: Grid, q: seq<State>) {
    forall i | 0 <= i < |q| :: InGrid(grid, q[i])
  }

  /** A walk from a start state along edges; every state on it is inside the grid. */
  predicate Walk(grid: Grid, part2: bool, q: seq<State>) {
    && |q| > 0
    && q[0] in Starts(part2)
    && AllInGrid(grid, q)
    && (forall i | 0 <= i < |q| - 1 :: Edge(grid, part2, q[i], q[i + 1]))
  }

  /** A walk that ends in a goal state: a route the solver may report. */
  predicate ValidPath(grid: Grid, part2: bool, q: seq<State>) {
    Walk(grid, part2, q) && IsGoal(grid, Last(q))
  }

  /** The digits of every cell entered after the first state of `q`. */
  function PathCost(grid: Grid, q: seq<State>): nat
    requires WellFormed(grid) && AllInGrid(grid, q)
  {
    if |q| <= 1 then 0 else PathCost(grid, q[..|q| - 1]) + Digit(grid, Last(q))
  }

  /** `c` is the least cost of a valid path, and some valid path costs `c`. */
  ghost predicate IsMinCost(grid: Grid, part2: bool, c: nat)
    requires WellFormed(grid)
  {
    && (exists q :: ValidPath(grid, part2, q) && PathCost(grid, q) == c)
    && (forall q | ValidPath(grid, part2, q) :: c <= PathCost(grid, q))
  }

  /** Extending a walk by an edge gives a walk that costs the entered digit more. */
  lemma WalkExtend(grid: Grid, part2: bool, q: seq<State>, t: State)
    requires WellFormed(grid) && Walk(grid, part2, q) && Edge(grid, part2, Last(q), t)
    ensures Walk(grid, part2, q + [t])
    ensures PathCost(grid, q + [t]) == PathCost(grid, q) + Digit(grid, t)
  {
    assert (q + [t])[..|q|] == q;
  }

  /** A non-empty prefix of a walk is a walk. */
  lemma PrefixIsWalk(grid: Grid, part2: bool, q: seq<State>, k: nat)
    requires Walk(grid, part2, q) && 0 < k <= |q|
    ensures Walk(grid, part2, q[..k])
  {
  }

  /** A prefix of a path costs no more than the path. */
  lemma {:induction false} PrefixCost(grid: Grid, q: seq<State>, k: nat)
    requires WellFormed(grid) && AllInGrid(grid, q) && k <= |q|
    ensures PathCost(grid, q[..k]) <= PathCost(grid, q)
  {
    if k < |q| {
      var p := q[..|q| - 1];
      PrefixCost(grid, p, k);
      assert p[..k] == q[..k];
    } else {
      assert q[..k] == q;
    }
  }

  /** Entering the state after a prefix adds its digit, and the longer prefix
      still costs no more than the whole path. */
  lemma PrefixCostStep(grid: Grid, q: seq<State>, k: nat)
    requires WellFormed(grid) && AllInGrid(grid, q) && 0 < k < |q|
    ensures PathCost(grid, q[..k]) + Digit(grid, q[k]) <= PathCost(grid, q)
  {
    PrefixCost(grid, q, k + 1);
    assert q[..k + 1][..k] == q[..k];
  }
}
