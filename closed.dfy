/**
 * The closed table of 2023/day17.cpp: one 64-bit word per cell, at index
 * `x * height + y`, and in it one bit per pair of heading and `moves`, at
 * position `moves * 4 + dir`.  The search model keys its closed set by the
 * whole state; the lemmas here show the intended table is keyed the same way,
 * and that the bit the source actually computes is not, in part 2.
 */
module ClosedTable {
  import opened Crucible

  /** The word of the table that holds the bits of the cell of `s`. */
  function CellIndex(grid: Grid, s: State): int {
    s.x * Height(grid) + s.y
  }

  /** Every in-grid cell has its own word, and every word lies in the table of
      `width * height` words the source allocates. */
  lemma CellIndexInjective(grid: Grid, s: State, t: State)
    requires InGrid(grid, s) && InGrid(grid, t)
    ensures 0 <= CellIndex(grid, s) < Width(grid) * Height(grid)
    ensures CellIndex(grid, s) == CellIndex(grid, t) <==> s.x == t.x && s.y == t.y
  {
    var h := Height(grid);
    IndexBelow(s.x, s.y, Width(grid), h);
    if s.x < t.x {
      IndexOrder(s.x, s.y, t.x, t.y, h);
    } else if t.x < s.x {
      IndexOrder(t.x, t.y, s.x, s.y, h);
    }
  }

  /** A cell of an earlier column comes first. */
  lemma IndexOrder(x1: int, y1: int, x2: int, y2: int, h: int)
    requires 0 <= x1 < x2 && 0 <= y1 < h && 0 <= y2
    ensures x1 * h + y1 < x2 * h + y2
  {
    MulMono(x1 + 1, x2, h);
    assert (x1 + 1) * h == x1 * h + h;
  }

  /** The index of a cell lies within the table. */
  lemma IndexBelow(x: int, y: int, w: int, h: int)
    requires 0 <= x < w && 0 <= y < h
    ensures 0 <= x * h + y < w * h
  {
    IndexOrder(x, y, w, 0, h);
    MulMono(0, x, h);
  }

  lemma {:induction false} MulMono(a: int, b: int, h: nat)
    requires 0 <= a <= b
    ensures 0 <= a * h <= b * h
  {
    if a < b {
      MulMono(a, b - 1, h);
      assert b * h == (b - 1) * h + h;
    }
  }

  /** The bit position the source intends for the heading and `moves` of `s`. */
  function IntendedBit(s: State): int {
    s.moves * 4 + s.dir
  }

  /** The intended bit tells every heading and count apart, and fits a 64-bit
      word for every count up to 10. */
  lemma IntendedBitInjective(part2: bool, s: State, t: State)
    requires ValidState(part2, s) && ValidState(part2, t)
    ensures 0 <= IntendedBit(s) < 64
    ensures IntendedBit(s) == IntendedBit(t) <==> s.dir == t.dir && s.moves == t.moves
  {
  }

  /** Cell word and intended bit together identify a state of the grid: the
      intended table is the set of closed states the search model keeps. */
  lemma IntendedKeyInjective(grid: Grid, part2: bool, s: State, t: State)
    requires ValidState(part2, s) && ValidState(part2, t) && InGrid(grid, s) && InGrid(grid, t)
    ensures (CellIndex(grid, s), IntendedBit(s)) == (CellIndex(grid, t), IntendedBit(t)) <==> s == t
  {
    CellIndexInjective(grid, s, t);
    IntendedBitInjective(part2, s, t);
  }

  /**
   * The bit the source sets, `1 << (moves * 4 + dir)`: a shift of the 32-bit
   * `int` 1, which C++ leaves undefined for counts of 32 or more; the x86
   * shift instruction takes the count modulo 32, which is what this states.
   */
  function BitAsWritten(s: State): (b: int)
    ensures 0 <= b < 32
  {
    (s.moves * 4 + s.dir) % 32
  }

  /** In part 1 counts stay below 32, so the source's bit is the intended one. */
  lemma BitAsWrittenPart1(s: State)
    requires ValidState(false, s)
    ensures BitAsWritten(s) == IntendedBit(s)
  {
  }

  /** In part 2 two different states of the same cell share the source's bit:
      heading east with 8 steps left and heading east with none left. */
  lemma BitAsWrittenAliases()
    ensures var s, t := State(0, 0, 1, 8), State(0, 0, 1, 0);
      && ValidState(true, s) && ValidState(true, t) && s != t
      && BitAsWritten(s) == BitAsWritten(t)
      && IntendedBit(s) != IntendedBit(t)
  {
  }
}
