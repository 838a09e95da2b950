# Clumsy crucible: a verified model of `day_17`

This project models `day_17` of 2023/day17.cpp in Dafny. The function
computes the cheapest route for a crucible across a rectangle of digit
cells, from the top-left cell to the bottom-right one. The crucible pays
the digit of every cell it enters; the start cell is free. It may never
reverse. It may take at most 3 straight steps in a row in part 1 and at
most 10 in part 2. In part 2 it must also take at least 4 steps in a
heading before it turns or stops.

The source runs a best-first (Dijkstra) search:
- A state is `(x, y, dir, moves)`, where `moves` is the number of straight
  steps still allowed.
- The frontier is a priority queue ordered by a reversed comparator, so it
  yields the cheapest node first.
- A closed table makes sure each state is expanded at most once.
- The first popped node that stands on the bottom-right cell with
  `moves <= 6` gives the answer.

The model has six modules:
- `Crucible` (crucible.dfy) is the search graph: grid, states, nodes, the
  movement rule `IsMove`, the successors of a node and the comparator.
- `Paths` (paths.dfy) defines walks of that graph, valid paths (walks that
  end in a goal state) and their cost.
- `Routes` (routes.dfy) is the puzzle's own rule for a legal route. It is
  stated over the headings of the steps, without the `moves` counter. The
  module proves that legal routes and valid paths are the same thing at the
  same cost, in both directions.
- `Search` (search.dfy) is `day_17` itself, as the method `Search.Day17`.
  It keeps a sequence as frontier, a set of closed states and a `shortest`
  sentinel of -1, as the source does. Its contract gives one of two
  outcomes:
  - `Success` with the decimal rendering of the least cost over legal routes;
  - `ErrNoSolution` with the output untouched, exactly when no legal route
    exists.

  The loop carries the Dijkstra invariant, and the lemmas beside it prove
  each step keeps it. Ghost logs of the popped and the closed nodes show
  that popped costs never decrease and that no state is closed twice.
- `Decimal` (decimal.dfy) models `std::to_string` of the answer and its
  round trip.
- `ClosedTable` (closed.dfy) models the source's bit-packed closed table;
  see Findings.

Headings are numbered 0 north, 1 east, 2 south, 3 west. Then `(dir + 1) % 4`
turns right, `(dir + 3) % 4` turns left, and the two start headings 1 and 2
lead away from the top-left corner.

## Model

| member | source | states |
|---|---|---|
| Crucible.CellCost | 2023/day17.cpp:83 | the price of entering a cell is its digit less '0', at most 9 |
| Crucible.Digit | 2023/day17.cpp:106 | the price of entering the cell of a state, at most 9 |
| Crucible.TurnMoves | 2023/day17.cpp:80 | after a turn `moves` is the maximum less one: 2 in part 1, 9 in part 2 |
| Crucible.Starts | 2023/day17.cpp:47-55 | exactly two start states, both at the origin with full `moves` (3 or 10), the first heading east (1) and the second south (2), as the two pushes do |
| Crucible.IsGoal | 2023/day17.cpp:71 | the goal test: the bottom-right cell (last row, last column) reached with `moves <= 6` |
| Crucible.IsMove | 2023/day17.cpp:77-104 | the three moves: a left or a right turn only when `moves <= 6`, one cell in the new heading with `moves` reset to the maximum less one; or one cell straight on only when `moves > 0`, with `moves` one less |
| Crucible.MoveRules | 2023/day17.cpp:77-111 | every move keeps `moves` in 0..max and below max; it is a unit step in its new heading; it never reverses; it turns left or right only from `moves <= 6` and resets `moves` to max-1; it goes straight only from `moves > 0` and decrements `moves` |
| Crucible.Candidates | 2023/day17.cpp:77-104 | left, right and straight candidates are exactly the moves of the state, at most three |
| Crucible.Enter | 2023/day17.cpp:82-87 | keeps exactly the in-grid candidates, each charged the parent cost plus its cell's digit |
| Crucible.Successors | 2023/day17.cpp:77-111 | the pushed nodes are exactly the in-grid moves of the expanded state, each costing the parent cost plus the digit of the entered cell |
| Crucible.Less | 2023/day17.cpp:30-35 | the specialised `std::less<node *>`: `a` ranks below `b` exactly when `a` costs more, so the max-first queue yields the cheapest node |
| Paths.WalkExtend | 2023/day17.cpp:105-107 | extending a walk by an edge gives a walk that costs the entered digit more |
| Paths.PrefixCost | 2023/day17.cpp:106 | digits are non-negative, so a prefix of a walk never costs more than the walk |
| Paths.PrefixCostStep | 2023/day17.cpp:106 | a prefix plus the digit of the next cell never costs more than the whole walk |
| Decimal.DecimalString | 2023/day17.cpp:133 | the answer is rendered as a non-empty string of decimal digits, with no leading zero |
| Decimal.DecimalRoundTrip | 2023/day17.cpp:133 | reading the rendered answer back as a decimal number gives the answer |
| Routes.RunAt | 2023/day17.cpp:101-103 | the length of the final straight run is at most the number of steps, and at least one after any step |
| Routes.StepAgrees | 2023/day17.cpp:77-111 | a step of a route is a move of the search, with `moves` equal to max less the current run, if and only if it does not reverse, does not exceed the maximum run, and turns only after the minimum run (4 in part 2) |
| Routes.MoveIsStep | 2023/day17.cpp:77-111 | a move of the search from a route's state, in the heading of the route's next step, is the route's next state |
| Routes.RouteStepIsEdge | 2023/day17.cpp:77-111 | each step of a legal route is an in-grid move of the search |
| Routes.RouteEndIsGoal | 2023/day17.cpp:71 | a legal route ends in a goal state: bottom-right cell, `moves <= 6` |
| Routes.GoalIsRouteEnd | 2023/day17.cpp:71 | a goal state ends a route on the bottom-right cell after at least the minimum run |
| Routes.RouteIsPath | 2023/day17.cpp:47-111 | every legal route, walked state by state, is a valid path of the search |
| Routes.WalkTracks | 2023/day17.cpp:77-111 | every walk visits exactly the states of the route of its own headings |
| Routes.EdgeIsStep | 2023/day17.cpp:77-111 | every edge of a walk is a legal step of its route |
| Routes.PathIsRoute | 2023/day17.cpp:47-111 | every valid path of the search is a legal route |
| Routes.TrackedCost | 2023/day17.cpp:83-106 | a walk and the route it follows cost the same |
| Routes.PathCostIsRouteCost | 2023/day17.cpp:83-106 | every valid path is a legal route of the same cost |
| Routes.RouteCostIsPathCost | 2023/day17.cpp:83-106 | every legal route is a valid path of the same cost |
| Routes.MinPathIsMinRoute | 2023/day17.cpp:71-75 | the least cost over valid paths is the least cost over legal routes |
| Routes.MinRouteIsMinPath | 2023/day17.cpp:71-75 | the least cost over legal routes is the least cost over valid paths |
| Routes.MinCostAgrees | 2023/day17.cpp:71-75 | the two least costs agree, both directions |
| Routes.ExistsAgrees | 2023/day17.cpp:129-131 | a valid path exists if and only if a legal route exists |
| Routes.SingleCellPart1 | 2023/day17.cpp:47-75 | on a one-cell grid part 1 answers 0: the start state is already a goal |
| Routes.SingleCellPart2 | 2023/day17.cpp:49-71 | on a one-cell grid part 2 has no legal route (`moves` 10 is above 6, and any step leaves the grid) |
| Search.Remove | 2023/day17.cpp:58-59 | popping one entry removes exactly one copy of it: the multiset of queued nodes loses that entry and nothing else |
| Search.ExtractMin | 2023/day17.cpp:30-35 | `top` under the reversed comparator: no queued node outranks the chosen one, so it is of least cost |
| Search.StartNodes | 2023/day17.cpp:47-55 | the frontier starts with exactly the two start states at cost 0 |
| Search.InitialInv | 2023/day17.cpp:47-55 | the initial frontier with nothing closed satisfies the search invariant |
| Search.ClosingShrinks | 2023/day17.cpp:61-69 | closing a not-yet-closed state shrinks the finite set of states left, so the loop terminates |
| Search.FrontierBound | 2023/day17.cpp:57-59 | any walk to an unclosed state passes a state of its own that is not closed and is queued at a cost no more than the walk's |
| Search.MinimalIsOptimal | 2023/day17.cpp:57-59 | the cheapest queued node that is not yet closed costs no more than any walk to an unclosed state |
| Search.DiscardKeepsInv | 2023/day17.cpp:61-67 | dropping a popped node whose state is closed keeps the invariant |
| Search.ExpandInStateSpace | 2023/day17.cpp:82-107 | after an expansion every queued state is in the grid with `moves` in range |
| Search.ExpandStartsPending | 2023/day17.cpp:47-69 | a start state not yet closed stays queued at cost 0 |
| Search.ExpandEdgesPending | 2023/day17.cpp:77-111 | after an expansion, every edge from a closed state to an unclosed one has its node queued |
| Search.ExpandOptimal | 2023/day17.cpp:69 | a state closed at the least queued cost is closed at its least walk cost |
| Search.ExpandReachable | 2023/day17.cpp:83-107 | every queued cost is the cost of some walk to the queued state |
| Search.ExpandKeepsInv | 2023/day17.cpp:69-111 | expanding the cheapest unclosed non-goal node keeps the whole invariant |
| Search.GoalIsMinimum | 2023/day17.cpp:71-75 | the first goal popped carries the least cost of any valid path, and some valid path costs that |
| Search.ExhaustedMeansNoPath | 2023/day17.cpp:129-131 | an empty frontier means no valid path exists |
| Search.LogPop | 2023/day17.cpp:57-59 | popped costs never decrease, and every queued node costs at least the last popped one |
| Search.LogClose | 2023/day17.cpp:61-69 | a state is closed at most once, and closed costs never decrease |
| Search.LogPush | 2023/day17.cpp:77-111 | pushed successors never cost less than the node just popped |
| Search.DiscardStep | 2023/day17.cpp:61-67 | one pop of a closed state keeps the loop invariant |
| Search.GoalStep | 2023/day17.cpp:69-75 | popping an unclosed goal as the cheapest node yields the least valid-path cost, and the closed log then ends with that goal after no other goal |
| Search.CloseStep | 2023/day17.cpp:69-111 | one pop of an unclosed non-goal state keeps the loop invariant with one state fewer left |
| Search.LoggedNodes | 2023/day17.cpp:61-69 | between two pops every closed node was popped, lies in the grid with `moves` in range, and is not a goal |
| Search.ExhaustedLog | 2023/day17.cpp:57-76 | when the frontier runs dry no goal was ever closed |
| Search.FinalLogFacts | 2023/day17.cpp:57-76 | the final logs, clause by clause: popped costs never decrease, no state closed twice, every closed node popped and in the state space, at most the last closed node is a goal, and it is one exactly when the search stopped at a goal |
| Search.Day17 | 2023/day17.cpp:37-135 | `SUCCESS` with the decimal least cost over legal routes, or `ERR_NO_SOLUTION` with the output untouched exactly when no legal route exists. The ghost logs of the run satisfy `FinalLog` with its goal flag set exactly on `SUCCESS`: popped costs never decrease, no state is closed twice, each closed node was popped and lies in the state space, and on `SUCCESS` the last closed node is the first and only goal closed and the result renders its cost |
| ClosedTable.CellIndex | 2023/day17.cpp:61 | the word of the closed table for the cell of a state: `x * height + y` |
| ClosedTable.CellIndexInjective | 2023/day17.cpp:61 | the word index `x * height + y` differs for every in-grid cell and lies in the `width * height` table |
| ClosedTable.IntendedBitInjective | 2023/day17.cpp:62 | the bit position `moves * 4 + dir` differs for every heading and count, and is below 64 |
| ClosedTable.IntendedKeyInjective | 2023/day17.cpp:61-63 | word and intended bit together identify the state, as the model's set of closed states does |
| ClosedTable.BitAsWritten | 2023/day17.cpp:62 | the bit `1 << (moves * 4 + dir)` as written on a 32-bit `int`, with the shift count taken modulo 32 as the x86 shift instruction does; always a bit of the 32-bit word |
| ClosedTable.BitAsWrittenPart1 | 2023/day17.cpp:62 | in part 1 the 32-bit shift is exact |
| ClosedTable.BitAsWrittenAliases | 2023/day17.cpp:62 | in part 2 two different states of one cell get the same bit from the 32-bit shift |

## Left out

- Input splitting: `split` (2023/day17.cpp:39) lives in util.hpp, which is not part of this model. `Search.Day17` takes the grid as a sequence of rows. It requires at least one row, rows of equal non-zero length and digits only, because the source indexes `map[0]` and subtracts '0' without checks.
- `move` (2023/day17.cpp:81, 92, 104) also lives in util.hpp. It is modelled by the delta table `Crucible.Deltas`. This assumes headings 1 and 2 are east and south, the two headings that lead away from the start corner.
- The bit-packed closed table: the search model keeps a set of closed states keyed by the whole `(x, y, dir, moves)` tuple, which is what the table intends. `ClosedTable` models the table's index and bit on their own (see Findings). The sign extension of `1 << 31` into the 64-bit word is not modelled.
- `new`, `delete`, `calloc`, `free` and the drain loop after the search (2023/day17.cpp:113-119) do not affect the result and are left out.
- The `parent` pointer and the commented-out path printing (2023/day17.cpp:21-27, 121-127) are not part of the result and are left out.
- The start nodes' `x`, `y` and `cost` are left uninitialised by `node()` (2023/day17.cpp:23, 47, 52). The model starts them at `(0, 0)` with cost 0, as intended.
- Search.Day17: costs are unbounded naturals; the source's `unsigned short` cost (2023/day17.cpp:20) wraps past 65535, which the model does not capture.
- `std::priority_queue` is modelled as a sequence with a linear scan for a least-cost entry. Which of several equally cheap nodes the heap yields is unspecified; every proof holds for any least-cost choice.
- The numeric values of `SUCCESS` and `ERR_NO_SOLUTION` live in status.hpp, which is not part of this model; `Search.Status` names the two outcomes.

## Findings

| source | as written | input that shows it | evidently intended | confidence | as-written member | corrected member |
|---|---|---|---|---|---|---|
| 2023/day17.cpp:62 | `1 << (moves * 4 + dir)` shifts the 32-bit `int` 1 by up to 43 in part 2. C++ leaves shift counts of 32 or more undefined; x86 takes them modulo 32. | Part 2, one cell, heading east with `moves` 8 and with `moves` 0: the shift counts 33 and 1 both set bit 1, so closing one state marks the other closed. | One distinct bit per `(dir, moves)` pair in the 64-bit word, e.g. `uint64_t(1) << (moves * 4 + dir)`. | High that the shift is undefined in part 2. The aliasing assumes x86 behaviour. Not executed. | ClosedTable.BitAsWrittenAliases | ClosedTable.IntendedKeyInjective |
