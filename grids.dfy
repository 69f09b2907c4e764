/**
 * Dense occupancy grids indexed grid[y][x], as both projects build them
 * (a numpy array in one, a list of lists in the other).
 */
module Grids {
  import opened Coords

  /** Every row has the length of the first one. */
  predicate IsRect(rows: seq<seq<int>>) {
    forall y :: 0 <= y < |rows| ==> |rows[y]| == |rows[0]|
  }

  type Grid = rows: seq<seq<int>> | IsRect(rows) witness []

  function Height(g: Grid): nat {
    |g|
  }

  function Width(g: Grid): nat {
    if |g| == 0 then 0 else |g[0]|
  }

  /** The cell lies inside the grid (both grid-bounds checks of the sources). */
  predicate InBounds(g: Grid, c: Coord) {
    0 <= c.x < Width(g) && 0 <= c.y < Height(g)
  }

  function Cell(g: Grid, c: Coord): int
    requires InBounds(g, c)
  {
    g[c.y][c.x]
  }

  /** Passability for a grid search: inside the grid and not holding a blocking code. */
  function Passable(g: Grid, blocking: set<int>): Coord -> bool {
    c => InBounds(g, c) && g[c.y][c.x] !in blocking
  }

  /** All cells of the grid; the region every grid search stays in. */
  function Cells(g: Grid): (s: set<Coord>)
    ensures forall c :: c in s <==> InBounds(g, c)
  {
    var s := set x, y | 0 <= x < Width(g) && 0 <= y < Height(g) :: Coord(x, y);
    assert forall c :: InBounds(g, c) ==> Coord(c.x, c.y) in s;
    s
  }

  /** A height x width grid of zeros. */
  function Zeros(height: nat, width: nat): (g: Grid)
    ensures Height(g) == height && (height > 0 ==> Width(g) == width)
    ensures forall y, x :: 0 <= y < height && 0 <= x < width ==> g[y][x] == 0
  {
    seq(height, _ => seq(width, _ => 0))
  }

  /** The grid with one cell replaced. */
  function SetCell(g: Grid, c: Coord, v: int): (g': Grid)
    requires InBounds(g, c)
    ensures Height(g') == Height(g) && Width(g') == Width(g)
    ensures g'[c.y][c.x] == v
    ensures forall y, x :: 0 <= y < Height(g) && 0 <= x < Width(g) && (y, x) != (c.y, c.x) ==> g'[y][x] == g[y][x]
  {
    g[c.y := g[c.y][c.x := v]]
  }

  /** One numeric column of a sequence of records, such as data['x']. */
  function Column<T>(data: seq<T>, f: T -> nat): (col: seq<nat>)
    ensures |col| == |data| && forall i :: 0 <= i < |data| ==> col[i] == f(data[i])
  {
    seq(|data|, i requires 0 <= i < |data| => f(data[i]))
  }

  /** The largest of a non-empty list of naturals (pandas' column max). */
  function MaxOf(s: seq<nat>): (m: nat)
    requires |s| > 0
    ensures forall i :: 0 <= i < |s| ==> s[i] <= m
    ensures m in s
  {
    if |s| == 1 then s[0]
    else
      var m := MaxOf(s[1..]);
      assert forall i :: 1 <= i < |s| ==> s[i] == s[1..][i - 1];
      if s[0] >= m then s[0] else m
  }
}
