/**
 * The eight-directional grid search as every grid variant calls it: the two
 * endpoints must lie inside the grid, then neither endpoint may hold a blocking
 * code, then the breadth-first search runs over the in-bounds cells whose code
 * is not blocking. The variants differ only in the blocking codes.
 */
module GridSearch {
  import opened Coords
  import opened Walks
  import opened Grids
  import opened Bfs

  /** Both endpoints are inside the grid and neither holds a blocking code. */
  predicate OpenEnds(g: Grid, blocking: set<int>, start: Coord, end: Coord) {
    InBounds(g, start) && InBounds(g, end) && Cell(g, start) !in blocking && Cell(g, end) !in blocking
  }

  /**
   * The shortest eight-directional path from start to end through cells that
   * are inside the grid and do not hold a blocking code, or None.
   */
  method GridBfs(g: Grid, blocking: set<int>, start: Coord, end: Coord) returns (r: Option<seq<Coord>>)
    ensures !OpenEnds(g, blocking, start, end) ==> r.None?
    ensures r.Some? ==> WalkFrom(Passable(g, blocking), Moves8, r.value, start, end) && Distinct(r.value)
    ensures r.Some? ==> forall i :: 0 <= i < |r.value| ==> InBounds(g, r.value[i]) && Cell(g, r.value[i]) !in blocking
    ensures r.Some? ==> Fewest(Passable(g, blocking), Moves8, r.value, start, end)
    ensures OpenEnds(g, blocking, start, end) && r.None? ==> Unreachable(Passable(g, blocking), Moves8, start, end)
    ensures OpenEnds(g, blocking, start, end) && start == end ==> r == Some([start])
  {
    if !InBounds(g, start) || !InBounds(g, end) {
      return None;
    }
    if Cell(g, start) in blocking {
      return None;
    }
    if Cell(g, end) in blocking {
      return None;
    }
    r := SearchPaths(Passable(g, blocking), Moves8, Cells(g), start, end);
    if r.Some? {
      ghost var p := r.value;
      assert forall i :: 1 <= i < |p| ==> Passable(g, blocking)(p[i]);
    }
  }

  /**
   * Codes that never occur in a grid do not change which cells pass: on a grid
   * holding only codes 0, 1 and 2, blocking {1, 2, 3, 4} and blocking {1, 2}
   * admit exactly the same walks.
   */
  lemma UnusedCodesChangeNothing(g: Grid, p: seq<Coord>)
    requires forall y, x :: 0 <= y < Height(g) && 0 <= x < Width(g) ==> g[y][x] in {0, 1, 2}
    ensures Walk(Passable(g, {1, 2, 3, 4}), Moves8, p) <==> Walk(Passable(g, {1, 2}), Moves8, p)
    ensures forall c :: Passable(g, {1, 2, 3, 4})(c) <==> Passable(g, {1, 2})(c)
  {
    forall c
      ensures Passable(g, {1, 2, 3, 4})(c) <==> Passable(g, {1, 2})(c)
    {
      if InBounds(g, c) {
        assert g[c.y][c.x] in {0, 1, 2};
      }
    }
  }
}
