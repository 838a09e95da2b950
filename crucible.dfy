/**
 * The search graph behind the crucible route of 2023/day17.cpp.
 *
 * A grid is a rectangle of digit characters; the digit of a cell is what the
 * crucible pays to enter it.  A search state is a cell, the heading of the
 * crucible and `moves`, the number of straight steps it may still take before
 * it has to turn.  From a state the source generates at most three successors:
 * a left turn and a right turn (only once `moves <= 6`) and one step straight
 * ahead (only while `moves > 0`); successors that leave the grid are dropped.
 */
module Crucible {

  /** Row `y` of the grid is `grid[y]`; cell `(x, y)` is `grid[y][x]`. */
  type Grid = seq<string>

  predicate IsDigit(c: char) {
    '0' <= c <= '9'
  }

  /** What the solver assumes of its input: at least one row, every row of the
      same non-zero length, digits only. */
  predicate WellFormed(grid: Grid) {
    && 0 < |grid|
    && 0 < |grid[0]|
    && (forall y | 0 <= y < |grid| :: |grid[y]| == |grid[0]|)
    && (forall y, x | 0 <= y < |grid| && 0 <= x < |grid[y]| :: IsDigit(grid[y][x]))
  }

  function Width(grid: Grid): nat {
    if grid == [] then 0 else |grid[0]|
  }

  function Height(grid: Grid): nat {
    |grid|
  }

  /** The key of a search node: position, heading and remaining straight steps. */
  datatype State = State(x: int, y: int, dir: int, moves: int)

  /** A frontier entry: a state and the cost accumulated on the way to it. */
  datatype Node = Node(state: State, cost: nat)

  /** The bounds test applied to every generated successor, on a cell. */
  predicate InBounds(grid: Grid, x: int, y: int) {
    0 <= y < Height(grid) && 0 <= x < Width(grid)
  }

  /** The bounds test on the cell of a state. */
  predicate InGrid(grid: Grid, s: State) {
    InBounds(grid, s.x, s.y)
  }

  /** The price of entering cell `(x, y)`: its digit minus '0'. */
  function CellCost(grid: Grid, x: int, y: int): (d: nat)
    requires WellFormed(grid) && InBounds(grid, x, y)
    ensures d <= 9
  {
    grid[y][x] as int - '0' as int
  }

  /** The price of entering the cell of `s`. */
  function Digit(grid: Grid, s: State): (d: nat)
    requires WellFormed(grid) && InGrid(grid, s)
    ensures d <= 9
  {
    CellCost(grid, s.x, s.y)
  }

  /** Unit steps of the four headings: 0 north, 1 east, 2 south, 3 west.
      Adding 1 modulo 4 turns right and adding 3 turns left; 1 and 2 are the
      two headings that lead away from the top-left corner. */
  const Deltas: seq<(int, int)> := [(0, -1), (1, 0), (0, 1), (-1, 0)]

  predicate IsDir(d: int) {
    0 <= d < 4
  }

  function Left(d: int): int {
    (d + 3) % 4
  }

  function Right(d: int): int {
    (d + 1) % 4
  }

  function Opposite(d: int): int {
    (d + 2) % 4
  }

  /** Straight steps allowed in one heading: 3 in part 1, 10 in part 2. */
  function MaxMoves(part2: bool): nat {
    if part2 then 10 else 3
  }

  /** A turn (or a stop on the goal) needs `moves <= 6`: in part 2 at least
      four steps taken in the current heading, in part 1 no restriction. */
  const TurnLimit: int := 6

  /** `moves` right after a turn: the turn itself is the first step taken. */
  function TurnMoves(part2: bool): (m: nat)
    ensures m == MaxMoves(part2) - 1
  {
    if part2 then 9 else 2
  }

  predicate ValidState(part2: bool, s: State) {
    IsDir(s.dir) && 0 <= s.moves <= MaxMoves(part2)
  }

  /** One cell forward in heading `dir`, with the given heading and `moves`. */
  function Advance(s: State, dir: int, moves: int): State
    requires IsDir(dir)
  {
    State(s.x + Deltas[dir].0, s.y + Deltas[dir].1, dir, moves)
  }

  /** The two start states: the origin, heading east or south, full `moves`. */
  function Starts(part2: bool): (ss: seq<State>)
    ensures |ss| == 2
    ensures ss[0].dir == 1 && ss[1].dir == 2
    ensures forall s | s in ss :: s.x == 0 && s.y == 0 && s.moves == MaxMoves(part2)
    ensures forall s | s in ss :: ValidState(part2, s) && (s.dir == 1 || s.dir == 2)
  {
    [State(0, 0, 1, MaxMoves(part2)), State(0, 0, 2, MaxMoves(part2))]
  }

  /** The goal test: the bottom-right cell, reached with `moves <= 6`. */
  predicate IsGoal(grid: Grid, s: State) {
    s.y == Height(grid) - 1 && s.x == Width(grid) - 1 && s.moves <= TurnLimit
  }

  /** The movement rules: from `s` the crucible may turn left or right, when
      `moves <= 6`, taking one step in the new heading with `moves` reset to
      the maximum less one; or, when `moves > 0`, take one step straight on
      with `moves` one less. */
  predicate IsMove(part2: bool, s: State, t: State)
    requires IsDir(s.dir)
  {
    || (s.moves <= TurnLimit && t == Advance(s, Left(s.dir), TurnMoves(part2)))
    || (s.moves <= TurnLimit && t == Advance(s, Right(s.dir), TurnMoves(part2)))
    || (0 < s.moves && t == Advance(s, s.dir, s.moves - 1))
  }

  /** What every move keeps: a unit step, never a reversal, `moves` within
      0..max, turns only from `moves <= 6` and straight steps only from
      `moves > 0`. */
  lemma MoveRules(part2: bool, s: State, t: State)
    requires ValidState(part2, s) && IsMove(part2, s, t)
    ensures ValidState(part2, t) && t.moves < MaxMoves(part2)
    ensures t == Advance(s, t.dir, t.moves)
    ensures t.dir != Opposite(s.dir)
    ensures t.dir == Left(s.dir) || t.dir == Right(s.dir) || t.dir == s.dir
    ensures t.dir != s.dir ==> s.moves <= TurnLimit && t.moves == MaxMoves(part2) - 1
    ensures t.dir == s.dir ==> 0 < s.moves && t.moves == s.moves - 1
  {
  }

  /** An in-grid move: an edge of the search graph. */
  predicate Edge(grid: Grid, part2: bool, s: State, t: State) {
    ValidState(part2, s) && IsMove(part2, s, t) && InGrid(grid, t)
  }

  /** The left, right and straight moves of a state, in the source's order,
      before the bounds test. */
  function Candidates(part2: bool, s: State): (ts: seq<State>)
    requires ValidState(part2, s)
    ensures |ts| <= 3
    ensures forall t | t in ts :: IsMove(part2, s, t)
    ensures forall t | IsMove(part2, s, t) :: t in ts
  {
    var turns :=
      if s.moves <= TurnLimit
      then [Advance(s, Left(s.dir), TurnMoves(part2)), Advance(s, Right(s.dir), TurnMoves(part2))]
      else [];
    var straight := if s.moves > 0 then [Advance(s, s.dir, s.moves - 1)] else [];
    turns + straight
  }

  /** The nodes pushed when the node `n` is expanded: one for every edge out
      of its state, charged the digit of the cell it enters. */
  function Successors(grid: Grid, part2: bool, n: Node): (r: seq<Node>)
    requires WellFormed(grid) && ValidState(part2, n.state)
    ensures forall m | m in r ::
      Edge(grid, part2, n.state, m.state) && m.cost == n.cost + Digit(grid, m.state)
    ensures forall t | Edge(grid, part2, n.state, t) :: Node(t, n.cost + Digit(grid, t)) in r
  {
    Enter(grid, Candidates(part2, n.state), n.cost)
  }

  /** Keeps the states of `ts` that lie inside the grid, in order, each as a
      node whose cost is `cost` plus the digit of its cell. */
  function Enter(grid: Grid, ts: seq<State>, cost: nat): (r: seq<Node>)
    requires WellFormed(grid)
    ensures |r| <= |ts|
    ensures forall m | m in r :: m.state in ts && InGrid(grid, m.state) && m.cost == cost + Digit(grid, m.state)
    ensures forall t | t in ts && InGrid(grid, t) :: Node(t, cost + Digit(grid, t)) in r
  {
    if ts == [] then []
    else
      var rest := Enter(grid, ts[1..], cost);
      if InGrid(grid, ts[0]) then [Node(ts[0], cost + Digit(grid, ts[0]))] + rest else rest
  }

  /** The source's specialisation of std::less for nodes: `a` ranks below `b`
      when it costs MORE, so the max-first priority queue yields the cheapest. */
  predicate Less(a: Node, b: Node) {
    a.cost > b.cost
  }
}
