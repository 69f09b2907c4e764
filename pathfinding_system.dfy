/**
 * The PathfindingSystem class: it holds an occupancy grid (absent until
 * create_grid runs), fills it from the merged structure records, and answers
 * breadth-first and Dijkstra path queries over it. Grid codes: 0 empty,
 * 1 building, 2 road, 3 construction site; buildings and construction sites
 * block, roads do not.
 */
module Pathfinding {
  import opened Coords
  import opened Walks
  import opened Grids
  import opened GridSearch
  import Dijkstra

  /** One merged record: a structure of the given type at (x, y). */
  datatype Structure = Structure(x: nat, y: nat, kind: int)

  /** The default grid size (50, 50): the grid always reaches at least index 50 on each axis. */
  const DefaultSize: nat := 50

  /** Codes a search may not enter: buildings and construction sites. */
  const Obstacles: set<int> := {1, 3}

  function Max(a: nat, b: nat): nat {
    if a >= b then a else b
  }

  /** Some record at (x, y) is a construction site. */
  predicate HasSite(data: seq<Structure>, x: nat, y: nat) {
    exists i :: 0 <= i < |data| && data[i].x == x && data[i].y == y && data[i].kind == 3
  }

  /** A record at (x, y) that is a building or a road. */
  predicate IsStructAt(d: Structure, x: nat, y: nat) {
    d.x == x && d.y == y && d.kind in {1, 2}
  }

  /** The type of the first building or road record at (x, y), if any. */
  function FirstStructAt(data: seq<Structure>, x: nat, y: nat): (r: Option<int>)
    ensures r.None? <==> forall i :: 0 <= i < |data| ==> !IsStructAt(data[i], x, y)
    ensures r.Some? ==> exists i :: 0 <= i < |data| && IsStructAt(data[i], x, y) && data[i].kind == r.value &&
                                   forall j :: 0 <= j < i ==> !IsStructAt(data[j], x, y)
  {
    if |data| == 0 then None
    else
      var f := FirstStructAt(data[..|data| - 1], x, y);
      assert forall j :: 0 <= j < |data| - 1 ==> data[j] == data[..|data| - 1][j];
      if f.Some? then f
      else if IsStructAt(data[|data| - 1], x, y) then Some(data[|data| - 1].kind)
      else None
  }

  /**
   * The code create_grid leaves at (x, y): a construction site wherever any
   * record puts one; otherwise the first building or road record there; 0 when
   * neither exists.
   */
  function OriginalCell(data: seq<Structure>, x: nat, y: nat): int {
    if HasSite(data, x, y) then 3
    else match FirstStructAt(data, x, y)
      case Some(k) => k
      case None => 0
  }

  /** Processing one more record changes only its own cell, as the loop body of create_grid does. */
  lemma OriginalCellStep(data: seq<Structure>, i: nat, x: nat, y: nat)
    requires i < |data|
    ensures var old_ := OriginalCell(data[..i], x, y);
            var d := data[i];
            OriginalCell(data[..i + 1], x, y) ==
              if d.x != x || d.y != y then old_
              else if d.kind == 3 then 3
              else if d.kind == 1 && old_ == 0 then 1
              else if d.kind == 2 && old_ == 0 then 2
              else old_
  {
    var p, q := data[..i], data[..i + 1];
    assert q[..i] == p;
    assert forall j :: 0 <= j < i ==> q[j] == p[j];
    assert q[i] == data[i];
    if HasSite(q, x, y) && !HasSite(p, x, y) {
      var j :| 0 <= j < |q| && q[j].x == x && q[j].y == y && q[j].kind == 3;
      assert j == i;
    }
  }

  /** Every cell holds one of the four codes. */
  lemma OriginalCellCodes(data: seq<Structure>, x: nat, y: nat)
    ensures OriginalCell(data, x, y) in {0, 1, 2, 3}
  {
    var f := FirstStructAt(data, x, y);
    if f.Some? {
      var i :| 0 <= i < |data| && IsStructAt(data[i], x, y) && data[i].kind == f.value;
    }
  }

  /** A cell no record names stays empty. */
  lemma UntouchedCellEmpty(data: seq<Structure>, x: nat, y: nat)
    requires forall i :: 0 <= i < |data| ==> data[i].x != x || data[i].y != y
    ensures OriginalCell(data, x, y) == 0
  {
  }

  /**
   * Between buildings and roads at one cell with no construction site the first
   * record wins: a road listed before a building leaves a road there, although
   * the class documents buildings as taking priority over roads.
   */
  lemma RoadBeforeBuilding(data: seq<Structure>, x: nat, y: nat, i: nat)
    requires !HasSite(data, x, y)
    requires i < |data| && IsStructAt(data[i], x, y)
    requires forall h :: 0 <= h < i ==> !IsStructAt(data[h], x, y)
    ensures OriginalCell(data, x, y) == data[i].kind
    ensures data[i].kind == 2 ==> OriginalCell(data, x, y) == 2
  {
    var f := FirstStructAt(data, x, y);
    var j :| 0 <= j < |data| && IsStructAt(data[j], x, y) && data[j].kind == f.value &&
             forall h :: 0 <= h < j ==> !IsStructAt(data[h], x, y);
  }

  /** One pass of the create_grid loop: record i written into a grid that holds records 0 .. i - 1. */
  method PlaceRecord(data: seq<Structure>, i: nat, g0: Grid) returns (g: Grid)
    requires i < |data| && InBounds(g0, Coord(data[i].x, data[i].y))
    requires forall y, x :: 0 <= y < Height(g0) && 0 <= x < Width(g0) ==> g0[y][x] == OriginalCell(data[..i], x, y)
    ensures Height(g) == Height(g0) && Width(g) == Width(g0)
    ensures forall y, x :: 0 <= y < Height(g) && 0 <= x < Width(g) ==> g[y][x] == OriginalCell(data[..i + 1], x, y)
  {
    var d := data[i];
    forall y: nat, x: nat | y < Height(g0) && x < Width(g0) {
      OriginalCellStep(data, i, x, y);
    }
    var c := Coord(d.x, d.y);
    g := g0;
    if d.kind == 3 {
      g := SetCell(g, c, 3);
    } else if d.kind == 1 && g[d.y][d.x] == 0 {
      g := SetCell(g, c, 1);
    } else if d.kind == 2 && g[d.y][d.x] == 0 {
      g := SetCell(g, c, 2);
    }
  }

  class PathfindingSystem {
    /** The occupancy grid, or None before create_grid has run. */
    var grid: Option<Grid>

    constructor()
      ensures grid == None
    {
      grid := None;
    }

    /** is_valid_position: false while there is no grid, otherwise whether pos is one of its cells. */
    function IsValidPosition(pos: Coord): (r: bool)
      reads this
      ensures r <==> grid.Some? && pos in Cells(grid.value)
    {
      if grid.None? then false
      else 0 <= pos.x < Width(grid.value) && 0 <= pos.y < Height(grid.value)
    }

    /**
     * create_grid: a zero grid of (max(max y, 50) + 1) rows by (max(max x, 50) + 1)
     * columns, then every record in order: a construction site is always
     * written, a building or a road only into an empty cell. Returns the two
     * maxima. With no records the maximum is undefined and nothing changes.
     */
    method CreateGrid(data: seq<Structure>) returns (r: Option<(nat, nat)>)
      modifies this
      ensures |data| == 0 ==> r.None? && grid == old(grid)
      ensures |data| > 0 ==> r.Some? && r.value.0 >= DefaultSize && r.value.1 >= DefaultSize
      ensures |data| > 0 ==> forall i :: 0 <= i < |data| ==> data[i].x <= r.value.0 && data[i].y <= r.value.1
      ensures |data| > 0 ==> r.value.0 == DefaultSize || exists i :: 0 <= i < |data| && data[i].x == r.value.0
      ensures |data| > 0 ==> r.value.1 == DefaultSize || exists i :: 0 <= i < |data| && data[i].y == r.value.1
      ensures |data| > 0 ==> grid.Some? && Height(grid.value) == r.value.1 + 1 && Width(grid.value) == r.value.0 + 1
      ensures |data| > 0 ==> forall y, x :: 0 <= y < Height(grid.value) && 0 <= x < Width(grid.value) ==>
        grid.value[y][x] == OriginalCell(data, x, y)
    {
      if |data| == 0 {
        return None;
      }
      var maxX := Max(MaxOf(Column(data, (d: Structure) => d.x)), DefaultSize);
      var maxY := Max(MaxOf(Column(data, (d: Structure) => d.y)), DefaultSize);
      var g := Zeros(maxY + 1, maxX + 1);
      var i := 0;
      while i < |data|
        invariant 0 <= i <= |data|
        invariant Height(g) == maxY + 1 && Width(g) == maxX + 1
        invariant forall y, x :: 0 <= y <= maxY && 0 <= x <= maxX ==> g[y][x] == OriginalCell(data[..i], x, y)
      {
        g := PlaceRecord(data, i, g);
        i := i + 1;
      }
      assert data[..i] == data;
      grid := Some(g);
      r := Some((maxX, maxY));
    }

    /**
     * bfs_pathfinding: None when an endpoint is outside the grid (or there is
     * no grid) or on a building or construction site; otherwise the fewest-cell
     * eight-directional path around buildings and construction sites, or None
     * when there is none.
     */
    method BfsPathfinding(start: Coord, end: Coord) returns (r: Option<seq<Coord>>)
      ensures grid.None? ==> r.None?
      ensures grid.Some? && !OpenEnds(grid.value, Obstacles, start, end) ==> r.None?
      ensures r.Some? ==> grid.Some? && WalkFrom(Passable(grid.value, Obstacles), Moves8, r.value, start, end) &&
                          Distinct(r.value) && Fewest(Passable(grid.value, Obstacles), Moves8, r.value, start, end)
      ensures r.Some? ==> forall i :: 0 <= i < |r.value| ==>
                            InBounds(grid.value, r.value[i]) && Cell(grid.value, r.value[i]) !in Obstacles
      ensures grid.Some? && OpenEnds(grid.value, Obstacles, start, end) && r.None? ==>
                Unreachable(Passable(grid.value, Obstacles), Moves8, start, end)
    {
      if !IsValidPosition(start) || !IsValidPosition(end) {
        return None;
      }
      r := GridBfs(grid.value, Obstacles, start, end);
    }

    /**
     * dijkstra_pathfinding with consistent step costs (10 orthogonal, 14
     * diagonal): None for the same endpoint cases as the breadth-first search;
     * otherwise a cheapest path around buildings and construction sites, or
     * None when there is none.
     */
    method DijkstraPathfinding(start: Coord, end: Coord) returns (r: Option<seq<Coord>>)
      ensures grid.None? ==> r.None?
      ensures grid.Some? && !OpenEnds(grid.value, Obstacles, start, end) ==> r.None?
      ensures r.Some? ==> grid.Some? && WalkFrom(Passable(grid.value, Obstacles), Moves8, r.value, start, end) &&
                          Dijkstra.Cheapest(Passable(grid.value, Obstacles), r.value, start, end)
      ensures grid.Some? && OpenEnds(grid.value, Obstacles, start, end) && r.None? ==>
                Unreachable(Passable(grid.value, Obstacles), Moves8, start, end)
    {
      if !IsValidPosition(start) || !IsValidPosition(end) {
        return None;
      }
      var g := grid.value;
      if Cell(g, start) in Obstacles {
        return None;
      }
      if Cell(g, end) in Obstacles {
        return None;
      }
      r := Dijkstra.Search(Passable(g, Obstacles), Cells(g), start, end);
    }
  }
}
