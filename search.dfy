/**
 * The best-first search of `day_17` (2023/day17.cpp) and its correctness.
 *
 * The frontier `open` is the priority queue of nodes; `closed` holds the
 * states already expanded, keyed by the whole `(x, y, dir, moves)` tuple.
 * Beside them the proof keeps a ghost map `settled` from every closed state
 * to the cost it was expanded with.  `SearchInv` is the Dijkstra invariant;
 * the lemmas below show each step of the loop keeps it and what it gives at
 * the two exits.
 */
module Search {
  import opened Crucible
  import opened Paths
  import opened Decimal
  import opened Routes

  /** The two outcomes of `day_17`; the numeric codes live in a header that
      is not part of this model. */
  datatype Status = Success | ErrNoSolution

  /** Every state the search can meet: in the grid, a heading, 0..max moves. */
  ghost function AllStates(grid: Grid, part2: bool): set<State> {
    set x: int, y: int, dir: int, moves: int
      | 0 <= x < Width(grid) && 0 <= y < Height(grid) && 0 <= dir < 4 && 0 <= moves <= MaxMoves(part2)
      :: State(x, y, dir, moves)
  }

  predicate Bounded(grid: Grid, part2: bool, s: State) {
    ValidState(part2, s) && InGrid(grid, s)
  }

  /** Marking a new state closed shrinks the part of the state space left. */
  lemma ClosingShrinks(grid: Grid, part2: bool, closed: set<State>, s: State)
    requires Bounded(grid, part2, s) && s !in closed
    ensures |AllStates(grid, part2) - (closed + {s})| < |AllStates(grid, part2) - closed|
  {
    var all := AllStates(grid, part2);
    assert s == State(s.x, s.y, s.dir, s.moves);
    assert s in all - closed;
    assert all - (closed + {s}) == (all - closed) - {s};
  }

  /** The frontier with the entry at index `i` popped off. */
  function Remove(open: seq<Node>, i: nat): (r: seq<Node>)
    requires i < |open|
    ensures |r| == |open| - 1
    ensures forall n | n in open && n != open[i] :: n in r
    ensures forall n | n in r :: n in open
    ensures multiset(r) == multiset(open) - multiset{open[i]}
  {
    assert open == open[..i] + [open[i]] + open[i + 1..];
    open[..i] + open[i + 1..]
  }

  /** A start state not yet expanded is still queued at cost 0. */
  ghost predicate StartsPending(part2: bool, open: seq<Node>, settled: map<State, nat>) {
    forall k | 0 <= k < 2 && Starts(part2)[k] !in settled :: Node(Starts(part2)[k], 0) in open
  }

  /** Every edge out of an expanded state into an unexpanded one has its node
      queued, at the expanded state's cost plus the entered digit. */
  ghost predicate EdgesPending(grid: Grid, part2: bool, open: seq<Node>, settled: map<State, nat>)
    requires WellFormed(grid)
  {
    forall u, v {:trigger Edge(grid, part2, u, v)} | u in settled && Edge(grid, part2, u, v) && v !in settled ::
      Node(v, settled[u] + Digit(grid, v)) in open
  }

  /** Each state was expanded with the least cost of any walk reaching it. */
  ghost predicate Optimal(grid: Grid, part2: bool, settled: map<State, nat>)
    requires WellFormed(grid)
  {
    forall q {:trigger Walk(grid, part2, q)} | Walk(grid, part2, q) && Last(q) in settled ::
      settled[Last(q)] <= PathCost(grid, q)
  }

  /** A walk that ends in `n`'s state and costs exactly `n`'s cost. */
  ghost predicate Witness(grid: Grid, part2: bool, q: seq<State>, n: Node)
    requires WellFormed(grid)
  {
    Walk(grid, part2, q) && Last(q) == n.state && PathCost(grid, q) == n.cost
  }

  /** Every queued cost is the cost of some walk to the queued state. */
  ghost predicate Reachable(grid: Grid, part2: bool, open: seq<Node>)
    requires WellFormed(grid)
  {
    forall n | n in open :: exists q :: Witness(grid, part2, q, n)
  }

  /** Queued and expanded states are in the grid and well formed, and no
      expanded state is a goal (the search stops at the first). */
  ghost predicate InStateSpace(grid: Grid, part2: bool, open: seq<Node>, settled: map<State, nat>) {
    && (forall n {:trigger n in open} | n in open :: Bounded(grid, part2, n.state))
    && (forall u {:trigger u in settled} | u in settled :: Bounded(grid, part2, u) && !IsGoal(grid, u))
  }

  ghost predicate SearchInv(grid: Grid, part2: bool, open: seq<Node>, settled: map<State, nat>)
    requires WellFormed(grid)
  {
    && InStateSpace(grid, part2, open, settled)
    && StartsPending(part2, open, settled)
    && EdgesPending(grid, part2, open, settled)
    && Optimal(grid, part2, settled)
    && Reachable(grid, part2, open)
  }

  /** The frontier the source starts from: both start states at cost 0. */
  function StartNodes(part2: bool): (r: seq<Node>)
    ensures |r| == 2
    ensures forall k | 0 <= k < 2 :: Node(Starts(part2)[k], 0) in r
    ensures forall n {:trigger n in r} | n in r :: n.state in Starts(part2) && n.cost == 0
  {
    [Node(Starts(part2)[0], 0), Node(Starts(part2)[1], 0)]
  }

  lemma InitialInv(grid: Grid, part2: bool)
    requires WellFormed(grid)
    ensures SearchInv(grid, part2, StartNodes(part2), map[])
  {
    forall n | n in StartNodes(part2) ensures exists q :: Witness(grid, part2, q, n) {
      assert Witness(grid, part2, [n.state], n);
    }
  }

  /** The first state of a walk that lies outside `settled`, when its last does. */
  lemma FirstOutside(q: seq<State>, settled: map<State, nat>) returns (k: nat)
    requires 0 < |q| && q[|q| - 1] !in settled
    ensures k < |q| && q[k] !in settled
    ensures 0 < k ==> q[k - 1] in settled
  {
    k := 0;
    while q[k] in settled
      invariant 0 <= k < |q|
      invariant 0 < k ==> q[k - 1] in settled
      decreases |q| - k
    {
      k := k + 1;
    }
  }

  /**
   * The heart of Dijkstra's argument: a walk that ends outside the expanded
   * states leaves them somewhere, and the node queued for the state where it
   * leaves costs no more than the walk.
   */
  lemma FrontierBound(grid: Grid, part2: bool, open: seq<Node>, settled: map<State, nat>, q: seq<State>)
    requires WellFormed(grid)
    requires StartsPending(part2, open, settled)
    requires EdgesPending(grid, part2, open, settled)
    requires Optimal(grid, part2, settled)
    requires Walk(grid, part2, q) && Last(q) !in settled
    ensures exists j, n :: 0 <= j < |q| && q[j] !in settled && n in open && n.state == q[j] && n.cost <= PathCost(grid, q)
  {
    var k := FirstOutside(q, settled);
    var n := QueuedAtExit(grid, part2, open, settled, q, k);
    assert 0 <= k < |q| && q[k] !in settled && n in open && n.state == q[k] && n.cost <= PathCost(grid, q);
  }

  /** The node queued for the first state of a walk outside `settled`. */
  lemma QueuedAtExit(grid: Grid, part2: bool, open: seq<Node>, settled: map<State, nat>, q: seq<State>, k: nat)
    returns (n: Node)
    requires WellFormed(grid)
    requires StartsPending(part2, open, settled)
    requires EdgesPending(grid, part2, open, settled)
    requires Optimal(grid, part2, settled)
    requires Walk(grid, part2, q) && k < |q| && q[k] !in settled && (0 < k ==> q[k - 1] in settled)
    ensures n in open && n.state == q[k] && n.cost <= PathCost(grid, q)
  {
    if k > 0 {
      var u, v := q[k - 1], q[k];
      assert Edge(grid, part2, u, v);
      SettledPrefix(grid, part2, settled, q, k);
      EdgeQueued(grid, part2, open, settled, u, v);
      n := Node(v, settled[u] + Digit(grid, v));
    } else {
      var ss := Starts(part2);
      n := Node(q[0], 0);
      if q[0] == ss[0] {
        assert ss[0] !in settled;
      } else {
        assert q[0] == ss[1] && ss[1] !in settled;
      }
      assert n in open;
    }
  }

  /** A settled state followed by the next state of a walk: the settled cost
      plus the entered digit is no more than the whole walk. */
  lemma SettledPrefix(grid: Grid, part2: bool, settled: map<State, nat>, q: seq<State>, k: nat)
    requires WellFormed(grid) && Optimal(grid, part2, settled)
    requires Walk(grid, part2, q) && 0 < k < |q| && q[k - 1] in settled
    ensures settled[q[k - 1]] + Digit(grid, q[k]) <= PathCost(grid, q)
  {
    var p := q[..k];
    PrefixIsWalk(grid, part2, q, k);
    assert Last(p) == q[k - 1];
    PrefixCostStep(grid, q, k);
  }

  /** The edge from a settled state to an unsettled one has its node queued. */
  lemma EdgeQueued(grid: Grid, part2: bool, open: seq<Node>, settled: map<State, nat>, u: State, v: State)
    requires WellFormed(grid) && EdgesPending(grid, part2, open, settled)
    requires u in settled && Edge(grid, part2, u, v) && v !in settled
    ensures Node(v, settled[u] + Digit(grid, v)) in open
  {
  }

  /** A popped node whose state was already expanded is dropped. */
  lemma DiscardKeepsInv(grid: Grid, part2: bool, open: seq<Node>, settled: map<State, nat>, i: nat)
    requires WellFormed(grid) && SearchInv(grid, part2, open, settled)
    requires i < |open| && open[i].state in settled
    ensures SearchInv(grid, part2, Remove(open, i), settled)
  {
  }

  /** The cheapest queued node, not yet expanded, carries an optimal cost. */
  lemma MinimalIsOptimal(grid: Grid, part2: bool, open: seq<Node>, settled: map<State, nat>, i: nat)
    requires WellFormed(grid) && SearchInv(grid, part2, open, settled)
    requires i < |open| && open[i].state !in settled
    requires forall j | 0 <= j < |open| :: open[i].cost <= open[j].cost
    ensures forall q | Walk(grid, part2, q) && Last(q) !in settled :: open[i].cost <= PathCost(grid, q)
  {
    forall q | Walk(grid, part2, q) && Last(q) !in settled
      ensures open[i].cost <= PathCost(grid, q)
    {
      FrontierBound(grid, part2, open, settled, q);
    }
  }

  /** The frontier and the expanded states after expanding `open[i]`. */
  ghost predicate ExpandStep(grid: Grid, part2: bool, open: seq<Node>, settled: map<State, nat>, i: nat,
                             open': seq<Node>, settled': map<State, nat>)
    requires WellFormed(grid)
  {
    && i < |open|
    && ValidState(part2, open[i].state)
    && open' == Remove(open, i) + Successors(grid, part2, open[i])
    && settled' == settled[open[i].state := open[i].cost]
  }

  lemma ExpandInStateSpace(grid: Grid, part2: bool, open: seq<Node>, settled: map<State, nat>, i: nat,
                           open': seq<Node>, settled': map<State, nat>)
    requires WellFormed(grid) && ExpandStep(grid, part2, open, settled, i, open', settled')
    requires InStateSpace(grid, part2, open, settled) && !IsGoal(grid, open[i].state)
    ensures InStateSpace(grid, part2, open', settled')
  {
    var succ := Successors(grid, part2, open[i]);
    assert open[i] in open;
    forall m | m in open' ensures Bounded(grid, part2, m.state) {
      if m in succ {
        MoveRules(part2, open[i].state, m.state);
      } else {
        assert m in open;
      }
    }
  }

  lemma ExpandStartsPending(grid: Grid, part2: bool, open: seq<Node>, settled: map<State, nat>, i: nat,
                            open': seq<Node>, settled': map<State, nat>)
    requires WellFormed(grid) && ExpandStep(grid, part2, open, settled, i, open', settled')
    requires StartsPending(part2, open, settled)
    ensures StartsPending(part2, open', settled')
  {
  }

  lemma ExpandEdgesPending(grid: Grid, part2: bool, open: seq<Node>, settled: map<State, nat>, i: nat,
                           open': seq<Node>, settled': map<State, nat>)
    requires WellFormed(grid) && ExpandStep(grid, part2, open, settled, i, open', settled')
    requires EdgesPending(grid, part2, open, settled)
    ensures EdgesPending(grid, part2, open', settled')
  {
    var s, c := open[i].state, open[i].cost;
    var succ := Successors(grid, part2, open[i]);
    forall u, v | u in settled' && Edge(grid, part2, u, v) && v !in settled'
      ensures Node(v, settled'[u] + Digit(grid, v)) in open'
    {
      if u == s {
        assert Node(v, c + Digit(grid, v)) in succ;
      } else {
        assert Node(v, settled[u] + Digit(grid, v)) in open;
      }
    }
  }

  lemma ExpandOptimal(grid: Grid, part2: bool, open: seq<Node>, settled: map<State, nat>, i: nat,
                      open': seq<Node>, settled': map<State, nat>)
    requires WellFormed(grid) && ExpandStep(grid, part2, open, settled, i, open', settled')
    requires Optimal(grid, part2, settled) && open[i].state !in settled
    requires forall q | Walk(grid, part2, q) && Last(q) !in settled :: open[i].cost <= PathCost(grid, q)
    ensures Optimal(grid, part2, settled')
  {
    forall q | Walk(grid, part2, q) && Last(q) in settled'
      ensures settled'[Last(q)] <= PathCost(grid, q)
    {
      if Last(q) != open[i].state {
        assert Last(q) in settled;
      }
    }
  }

  lemma ExpandReachable(grid: Grid, part2: bool, open: seq<Node>, settled: map<State, nat>, i: nat,
                        open': seq<Node>, settled': map<State, nat>)
    requires WellFormed(grid) && ExpandStep(grid, part2, open, settled, i, open', settled')
    requires Reachable(grid, part2, open)
    ensures Reachable(grid, part2, open')
  {
    var n := open[i];
    var succ := Successors(grid, part2, n);
    assert n in open;
    var qn :| Witness(grid, part2, qn, n);
    forall m | m in open' ensures exists q :: Witness(grid, part2, q, m) {
      if m in succ {
        WalkExtend(grid, part2, qn, m.state);
        assert Witness(grid, part2, qn + [m.state], m);
      } else {
        assert m in open;
      }
    }
  }

  /** Expanding the cheapest unexpanded node (not a goal) keeps the invariant. */
  lemma ExpandKeepsInv(grid: Grid, part2: bool, open: seq<Node>, settled: map<State, nat>, i: nat,
                       open': seq<Node>, settled': map<State, nat>)
    requires WellFormed(grid) && SearchInv(grid, part2, open, settled)
    requires ExpandStep(grid, part2, open, settled, i, open', settled')
    requires open[i].state !in settled && !IsGoal(grid, open[i].state)
    requires forall j | 0 <= j < |open| :: open[i].cost <= open[j].cost
    ensures SearchInv(grid, part2, open', settled')
  {
    MinimalIsOptimal(grid, part2, open, settled, i);
    ExpandInStateSpace(grid, part2, open, settled, i, open', settled');
    ExpandStartsPending(grid, part2, open, settled, i, open', settled');
    ExpandEdgesPending(grid, part2, open, settled, i, open', settled');
    ExpandOptimal(grid, part2, open, settled, i, open', settled');
    ExpandReachable(grid, part2, open, settled, i, open', settled');
  }

  /** Popping a goal state as the cheapest unexpanded node yields the answer. */
  lemma GoalIsMinimum(grid: Grid, part2: bool, open: seq<Node>, settled: map<State, nat>, i: nat)
    requires WellFormed(grid) && SearchInv(grid, part2, open, settled)
    requires i < |open| && open[i].state !in settled && IsGoal(grid, open[i].state)
    requires forall j | 0 <= j < |open| :: open[i].cost <= open[j].cost
    ensures IsMinCost(grid, part2, open[i].cost)
  {
    MinimalIsOptimal(grid, part2, open, settled, i);
    assert open[i] in open;
    var q :| Witness(grid, part2, q, open[i]);
    assert ValidPath(grid, part2, q);
  }

  /** An empty frontier leaves no valid path at all. */
  lemma ExhaustedMeansNoPath(grid: Grid, part2: bool, settled: map<State, nat>)
    requires WellFormed(grid) && SearchInv(grid, part2, [], settled)
    ensures forall q :: !ValidPath(grid, part2, q)
  {
    forall q | ValidPath(grid, part2, q) ensures false {
      FrontierBound(grid, part2, [], settled, q);
    }
  }

  /** Costs never decreasing along `ns`. */
  ghost predicate CostSorted(ns: seq<Node>) {
    forall j, k | 0 <= j < k < |ns| :: ns[j].cost <= ns[k].cost
  }

  /** No state twice, costs never decreasing. */
  ghost predicate Ordered(expanded: seq<Node>) {
    && (forall j, k | 0 <= j < k < |expanded| :: expanded[j].state != expanded[k].state)
    && CostSorted(expanded)
  }

  /** The record of the search so far: `popped` lists every node taken off
      the frontier and `expanded` the nodes closed, each in order; every closed
      node was popped, costs never decrease along either log, no state is
      closed twice, nothing popped costs more than `floor`, and nothing queued
      costs less. */
  ghost predicate ExpansionLog(open: seq<Node>, closed: set<State>, expanded: seq<Node>,
                               popped: seq<Node>, floor: nat) {
    && Ordered(expanded)
    && CostSorted(popped)
    && (forall j | 0 <= j < |expanded| :: expanded[j].state in closed && expanded[j].cost <= floor)
    && (forall j | 0 <= j < |expanded| :: expanded[j] in popped)
    && (forall j | 0 <= j < |popped| :: popped[j].cost <= floor)
    && (forall n {:trigger n in open} | n in open :: floor <= n.cost)
  }

  /** Popping the cheapest queued node logs it and raises the floor to its cost. */
  lemma LogPop(open: seq<Node>, i: nat, closed: set<State>, expanded: seq<Node>, popped: seq<Node>, floor: nat)
    requires i < |open| && ExpansionLog(open, closed, expanded, popped, floor)
    requires forall j | 0 <= j < |open| :: open[i].cost <= open[j].cost
    ensures ExpansionLog(Remove(open, i), closed, expanded, popped + [open[i]], open[i].cost)
  {
    assert open[i] in open;
    var p := popped + [open[i]];
    forall j, k | 0 <= j < k < |p| ensures p[j].cost <= p[k].cost {
      if k == |popped| {
        assert p[j] == popped[j];
      }
    }
  }

  /** Closing the node just popped appends it to the closed log. */
  lemma LogClose(open: seq<Node>, n: Node, closed: set<State>, expanded: seq<Node>, popped: seq<Node>)
    requires ExpansionLog(open, closed, expanded, popped, n.cost) && n.state !in closed && n in popped
    ensures ExpansionLog(open, closed + {n.state}, expanded + [n], popped, n.cost)
  {
    var e := expanded + [n];
    forall j, k | 0 <= j < k < |e| ensures e[j].state != e[k].state && e[j].cost <= e[k].cost {
      if k == |expanded| {
        assert e[j] == expanded[j];
      }
    }
  }

  /** Pushing the successors of the node just closed keeps the floor below the queue. */
  lemma LogPush(grid: Grid, part2: bool, open: seq<Node>, closed: set<State>, expanded: seq<Node>,
                popped: seq<Node>, n: Node)
    requires WellFormed(grid) && ValidState(part2, n.state)
    requires ExpansionLog(open, closed, expanded, popped, n.cost)
    ensures ExpansionLog(open + Successors(grid, part2, n), closed, expanded, popped, n.cost)
  {
  }

  /** `std::priority_queue::top` under the reversed comparator: an index of
      the frontier that no other entry outranks, hence one of least cost. */
  method ExtractMin(open: seq<Node>) returns (i: nat)
    requires 0 < |open|
    ensures i < |open|
    ensures forall j | 0 <= j < |open| :: !Less(open[i], open[j])
    ensures forall j | 0 <= j < |open| :: open[i].cost <= open[j].cost
  {
    i := 0;
    var j := 1;
    while j < |open|
      invariant i < j <= |open|
      invariant forall k | 0 <= k < j :: open[i].cost <= open[k].cost
    {
      if Less(open[i], open[j]) {
        i := j;
      }
      j := j + 1;
    }
  }

  /** The logs of a finished search: every closed node was popped, lies in the
      state space, and is a goal exactly when it is the last one closed and the
      search stopped at a goal (`atGoal`); no state closed twice, costs sorted. */
  ghost predicate FinalLog(grid: Grid, part2: bool, expanded: seq<Node>, popped: seq<Node>, atGoal: bool) {
    && Ordered(expanded)
    && CostSorted(popped)
    && (forall j | 0 <= j < |expanded| :: expanded[j] in popped && Bounded(grid, part2, expanded[j].state))
    && (forall j | 0 <= j < |expanded| :: IsGoal(grid, expanded[j].state) <==> atGoal && j == |expanded| - 1)
    && (atGoal ==> 0 < |expanded|)
  }

  /** What the final logs tell a caller of `day_17`. */
  lemma FinalLogFacts(grid: Grid, part2: bool, expanded: seq<Node>, popped: seq<Node>, atGoal: bool)
    requires FinalLog(grid, part2, expanded, popped, atGoal)
    ensures forall j, k | 0 <= j < k < |popped| :: popped[j].cost <= popped[k].cost
    ensures forall j, k | 0 <= j < k < |expanded| :: expanded[j].state != expanded[k].state
    ensures forall j | 0 <= j < |expanded| :: expanded[j] in popped && Bounded(grid, part2, expanded[j].state)
    ensures forall j | 0 <= j < |expanded| - 1 :: !IsGoal(grid, expanded[j].state)
    ensures atGoal ==> 0 < |expanded| && IsGoal(grid, expanded[|expanded| - 1].state)
    ensures !atGoal ==> forall j | 0 <= j < |expanded| :: !IsGoal(grid, expanded[j].state)
  {
  }

  /** Everything the loop of `day_17` keeps between two pops. */
  ghost predicate LoopInv(grid: Grid, part2: bool, open: seq<Node>, closed: set<State>,
                          settled: map<State, nat>, expanded: seq<Node>, popped: seq<Node>, floor: nat)
    requires WellFormed(grid)
  {
    && closed == settled.Keys
    && SearchInv(grid, part2, open, settled)
    && ExpansionLog(open, closed, expanded, popped, floor)
  }

  /** Between two pops every closed node was popped, lies in the state space
      and is not a goal. */
  lemma LoggedNodes(grid: Grid, part2: bool, open: seq<Node>, closed: set<State>, settled: map<State, nat>,
                    expanded: seq<Node>, popped: seq<Node>, floor: nat)
    requires WellFormed(grid) && LoopInv(grid, part2, open, closed, settled, expanded, popped, floor)
    ensures forall j | 0 <= j < |expanded| ::
      expanded[j] in popped && Bounded(grid, part2, expanded[j].state) && !IsGoal(grid, expanded[j].state)
  {
    forall j | 0 <= j < |expanded|
      ensures Bounded(grid, part2, expanded[j].state) && !IsGoal(grid, expanded[j].state)
    {
      assert expanded[j].state in settled;
    }
  }

  /** A search whose frontier ran dry has closed no goal. */
  lemma ExhaustedLog(grid: Grid, part2: bool, closed: set<State>, settled: map<State, nat>,
                     expanded: seq<Node>, popped: seq<Node>, floor: nat)
    requires WellFormed(grid) && LoopInv(grid, part2, [], closed, settled, expanded, popped, floor)
    ensures FinalLog(grid, part2, expanded, popped, false)
  {
    LoggedNodes(grid, part2, [], closed, settled, expanded, popped, floor);
  }

  /** One pop of the cheapest node, a goal not closed yet: its cost is the
      least cost of a valid path, and the logs end with it, after no other goal. */
  lemma GoalStep(grid: Grid, part2: bool, open: seq<Node>, closed: set<State>, settled: map<State, nat>,
                expanded: seq<Node>, popped: seq<Node>, floor: nat, i: nat)
    requires WellFormed(grid) && LoopInv(grid, part2, open, closed, settled, expanded, popped, floor)
    requires i < |open| && open[i].state !in closed && IsGoal(grid, open[i].state)
    requires forall j | 0 <= j < |open| :: open[i].cost <= open[j].cost
    ensures IsMinCost(grid, part2, open[i].cost)
    ensures FinalLog(grid, part2, expanded + [open[i]], popped + [open[i]], true)
  {
    var n := open[i];
    assert n in open;
    GoalIsMinimum(grid, part2, open, settled, i);
    LoggedNodes(grid, part2, open, closed, settled, expanded, popped, floor);
    LogPop(open, i, closed, expanded, popped, floor);
    LogClose(Remove(open, i), n, closed, expanded, popped + [n]);
    var e := expanded + [n];
    forall j | 0 <= j < |e| ensures e[j] in popped + [n] && Bounded(grid, part2, e[j].state) {
      if j < |expanded| {
        assert e[j] == expanded[j];
      }
    }
    forall j | 0 <= j < |e| ensures IsGoal(grid, e[j].state) <==> j == |e| - 1 {
      if j < |expanded| {
        assert e[j] == expanded[j];
      }
    }
  }

  /** One pop of a state already closed: the node is dropped. */
  lemma DiscardStep(grid: Grid, part2: bool, open: seq<Node>, closed: set<State>, settled: map<State, nat>,
                    expanded: seq<Node>, popped: seq<Node>, floor: nat, i: nat)
    requires WellFormed(grid) && LoopInv(grid, part2, open, closed, settled, expanded, popped, floor)
    requires i < |open| && open[i].state in closed
    requires forall j | 0 <= j < |open| :: open[i].cost <= open[j].cost
    ensures LoopInv(grid, part2, Remove(open, i), closed, settled, expanded, popped + [open[i]], open[i].cost)
  {
    DiscardKeepsInv(grid, part2, open, settled, i);
    LogPop(open, i, closed, expanded, popped, floor);
  }

  /** One pop of the cheapest node, whose state is neither closed nor a goal:
      closing it and queueing its successors keeps the loop invariant, and the
      unclosed states shrink. */
  lemma CloseStep(grid: Grid, part2: bool, open: seq<Node>, closed: set<State>, settled: map<State, nat>,
                  expanded: seq<Node>, popped: seq<Node>, floor: nat, i: nat)
    requires WellFormed(grid) && LoopInv(grid, part2, open, closed, settled, expanded, popped, floor)
    requires i < |open| && open[i].state !in closed && !IsGoal(grid, open[i].state)
    requires forall j | 0 <= j < |open| :: open[i].cost <= open[j].cost
    ensures Bounded(grid, part2, open[i].state)
    ensures |AllStates(grid, part2) - (closed + {open[i].state})| < |AllStates(grid, part2) - closed|
    ensures LoopInv(grid, part2, Remove(open, i) + Successors(grid, part2, open[i]), closed + {open[i].state},
                    settled[open[i].state := open[i].cost], expanded + [open[i]], popped + [open[i]], open[i].cost)
  {
    var n := open[i];
    assert n in open;
    ClosingShrinks(grid, part2, closed, n.state);
    var open' := Remove(open, i) + Successors(grid, part2, n);
    var settled' := settled[n.state := n.cost];
    LogPop(open, i, closed, expanded, popped, floor);
    LogClose(Remove(open, i), n, closed, expanded, popped + [n]);
    LogPush(grid, part2, Remove(open, i), closed + {n.state}, expanded + [n], popped + [n], n);
    ExpandKeepsInv(grid, part2, open, settled, i, open', settled');
  }


  /**
   * `day_17`: the least cost of a legal route rendered in decimal, or
   * `ErrNoSolution` with the output left as it was when there is no legal
   * route.  The ghost `popped` lists the nodes in the order they were taken
   * off the frontier, `expanded` those of them that were closed and expanded.
   */
  method Day17(grid: Grid, output: string, part2: bool)
    returns (status: Status, result: string, ghost expanded: seq<Node>, ghost popped: seq<Node>)
    requires WellFormed(grid)
    ensures status == ErrNoSolution ==> result == output
    ensures status == ErrNoSolution <==> forall h0, ds :: !RouteOk(grid, part2, h0, ds)
    ensures status == Success ==> exists c: nat :: result == DecimalString(c) && IsMinRouteCost(grid, part2, c)
    ensures FinalLog(grid, part2, expanded, popped, status == Success)
    ensures status == Success ==> 0 < |expanded| && result == DecimalString(expanded[|expanded| - 1].cost)
  {
    var shortest: int := -1;
    var closed: set<State> := {};
    ghost var settled: map<State, nat> := map[];
    var open := StartNodes(part2);
    expanded, popped := [], [];
    ghost var floor: nat := 0;
    InitialInv(grid, part2);

    while open != []
      invariant LoopInv(grid, part2, open, closed, settled, expanded, popped, floor)
      invariant shortest == -1
      decreases |AllStates(grid, part2) - closed|, |open|
    {
      var i := ExtractMin(open);
      var next := open[i];
      if next.state in closed {
        DiscardStep(grid, part2, open, closed, settled, expanded, popped, floor, i);
        open := Remove(open, i);
        popped, floor := popped + [next], next.cost;
        continue;
      }
      if IsGoal(grid, next.state) {
        GoalStep(grid, part2, open, closed, settled, expanded, popped, floor, i);
      } else {
        CloseStep(grid, part2, open, closed, settled, expanded, popped, floor, i);
      }
      open := Remove(open, i);
      closed := closed + {next.state};
      expanded, popped, floor := expanded + [next], popped + [next], next.cost;

      if IsGoal(grid, next.state) {
        shortest := next.cost;
        break;
      }

      settled := settled[next.state := next.cost];
      open := open + Successors(grid, part2, next);
    }

    if shortest == -1 {
      ExhaustedMeansNoPath(grid, part2, settled);
      ExhaustedLog(grid, part2, closed, settled, expanded, popped, floor);
      ExistsAgrees(grid, part2);
      status, result := ErrNoSolution, output;
    } else {
      MinCostAgrees(grid, part2, shortest);
      status, result := Success, DecimalString(shortest);
    }
  }
}
