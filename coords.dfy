/** Grid coordinates, the offsets a search may take, and the generic Option result. */
module Coords {

  datatype Option<+T> = None | Some(value: T)

  /** A cell (x, y); offsets (dx, dy) use the same type. */
  datatype Coord = Coord(x: int, y: int)

  function Add(c: Coord, d: Coord): Coord {
    Coord(c.x + d.x, c.y + d.y)
  }

  function Diff(b: Coord, a: Coord): Coord {
    Coord(b.x - a.x, b.y - a.y)
  }

  /** The eight grid offsets (dx, dy) in the order the grid searches try them. */
  const Moves8: seq<Coord> :=
    [Coord(-1, -1), Coord(-1, 0), Coord(-1, 1), Coord(0, -1),
     Coord(0, 1), Coord(1, -1), Coord(1, 0), Coord(1, 1)]

  /** The four unit moves of the plane search, in the order it tries them. */
  const Moves4: seq<Coord> := [Coord(1, 0), Coord(-1, 0), Coord(0, 1), Coord(0, -1)]

  /** b is reached from a by one of the moves. */
  predicate Adjacent(moves: seq<Coord>, a: Coord, b: Coord) {
    Diff(b, a) in moves
  }

  /** Stepping by moves[k] is an adjacent step, and every adjacent step is such a move. */
  lemma AdjacentByIndex(moves: seq<Coord>, a: Coord, b: Coord)
    ensures Adjacent(moves, a, b) <==> exists k :: 0 <= k < |moves| && b == Add(a, moves[k])
  {
    if Adjacent(moves, a, b) {
      var k :| 0 <= k < |moves| && moves[k] == Diff(b, a);
      assert b == Add(a, moves[k]);
    }
  }

  /** The eight moves are exactly the non-zero offsets with both components in -1..1. */
  lemma Moves8AreKingMoves(d: Coord)
    ensures d in Moves8 <==> -1 <= d.x <= 1 && -1 <= d.y <= 1 && d != Coord(0, 0)
  {
  }

  /** The four moves are exactly the offsets at Manhattan distance 1. */
  lemma Moves4AreUnitSteps(d: Coord)
    ensures d in Moves4 <==> (d.x == 0 || d.y == 0) && -1 <= d.x + d.y <= 1 && d != Coord(0, 0)
  {
  }
}
