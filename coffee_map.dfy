/**
 * The coffee-map grid builders and searches. A record carries a position, a
 * category, a construction-site flag and a structure name. The grid marks
 * construction sites 1 and apartments or buildings (category 1 or 2, not a
 * construction site) 2, the second pass overwriting the first; both codes
 * block the eight-directional search. The detailed variant builds from every
 * record; the direct variant skips the records named MyHome and
 * BandalgomCoffee, so the start and the goal never block.
 */
module CoffeeMap {
  import opened Coords
  import opened Walks
  import opened Grids
  import opened GridSearch

  datatype Place = Place(x: nat, y: nat, category: int, constructionSite: int, structName: string)

  /** Names the direct builder never marks. */
  const DirectExempt: set<string> := {"MyHome", "BandalgomCoffee"}

  /** Codes the searches may not enter. */
  const Blocking: set<int> := {1, 2}

  /** The codes the direct search tests, two of which no builder writes. */
  const DirectBlocking: set<int> := {1, 2, 3, 4}

  /** A row of the construction-site pass. */
  predicate IsSiteRow(p: Place) {
    p.constructionSite == 1
  }

  /** A row of the apartment/building pass. */
  predicate IsStructureRow(p: Place) {
    p.category in {1, 2} && p.constructionSite == 0
  }

  /** Some record at (x, y) with a name outside exempt is a construction site. */
  predicate HasSiteRow(data: seq<Place>, exempt: set<string>, x: nat, y: nat) {
    exists i :: 0 <= i < |data| && data[i].x == x && data[i].y == y && IsSiteRow(data[i]) && data[i].structName !in exempt
  }

  /** Some record at (x, y) with a name outside exempt is an apartment or building. */
  predicate HasStructureRow(data: seq<Place>, exempt: set<string>, x: nat, y: nat) {
    exists i :: 0 <= i < |data| && data[i].x == x && data[i].y == y && IsStructureRow(data[i]) && data[i].structName !in exempt
  }

  /**
   * The code create_grid leaves at (x, y): 2 where an unexempted apartment or
   * building record lies, else 1 where an unexempted construction site lies,
   * else 0.
   */
  function CoffeeCell(data: seq<Place>, exempt: set<string>, x: nat, y: nat): int {
    if HasStructureRow(data, exempt, x, y) then 2
    else if HasSiteRow(data, exempt, x, y) then 1
    else 0
  }

  lemma SiteRowStep(data: seq<Place>, exempt: set<string>, i: nat, x: nat, y: nat)
    requires i < |data|
    ensures HasSiteRow(data[..i + 1], exempt, x, y) <==>
              HasSiteRow(data[..i], exempt, x, y) ||
              (data[i].x == x && data[i].y == y && IsSiteRow(data[i]) && data[i].structName !in exempt)
  {
    var p, q := data[..i], data[..i + 1];
    assert forall j :: 0 <= j < i ==> q[j] == p[j];
    assert q[i] == data[i];
  }

  lemma StructureRowStep(data: seq<Place>, exempt: set<string>, i: nat, x: nat, y: nat)
    requires i < |data|
    ensures HasStructureRow(data[..i + 1], exempt, x, y) <==>
              HasStructureRow(data[..i], exempt, x, y) ||
              (data[i].x == x && data[i].y == y && IsStructureRow(data[i]) && data[i].structName !in exempt)
  {
    var p, q := data[..i], data[..i + 1];
    assert forall j :: 0 <= j < i ==> q[j] == p[j];
    assert q[i] == data[i];
  }

  /** The code after the construction-site pass: 1 where an unexempted construction site lies, else 0. */
  function SiteCell(data: seq<Place>, exempt: set<string>, x: nat, y: nat): int {
    if HasSiteRow(data, exempt, x, y) then 1 else 0
  }

  /** The construction-site pass: 1 at every construction site whose name is not exempt. */
  method MarkSites(data: seq<Place>, exempt: set<string>, g0: Grid) returns (g: Grid)
    requires forall i :: 0 <= i < |data| ==> InBounds(g0, Coord(data[i].x, data[i].y))
    requires forall y, x :: 0 <= y < Height(g0) && 0 <= x < Width(g0) ==> g0[y][x] == 0
    ensures Height(g) == Height(g0) && Width(g) == Width(g0)
    ensures forall y, x :: 0 <= y < Height(g) && 0 <= x < Width(g) ==> g[y][x] == SiteCell(data, exempt, x, y)
  {
    g := g0;
    for i := 0 to |data|
      invariant Height(g) == Height(g0) && Width(g) == Width(g0)
      invariant forall y, x :: 0 <= y < Height(g) && 0 <= x < Width(g) ==> g[y][x] == SiteCell(data[..i], exempt, x, y)
    {
      var p := data[i];
      forall y: nat, x: nat | y < Height(g) && x < Width(g) {
        SiteRowStep(data, exempt, i, x, y);
      }
      if IsSiteRow(p) {
        if p.structName in exempt {
          continue;
        }
        g := SetCell(g, Coord(p.x, p.y), 1);
      }
    }
    assert data[..|data|] == data;
  }

  /** The apartment/building pass: 2 at every such record whose name is not exempt, over the site pass. */
  method MarkStructures(data: seq<Place>, exempt: set<string>, g0: Grid) returns (g: Grid)
    requires forall i :: 0 <= i < |data| ==> InBounds(g0, Coord(data[i].x, data[i].y))
    requires forall y, x :: 0 <= y < Height(g0) && 0 <= x < Width(g0) ==> g0[y][x] == SiteCell(data, exempt, x, y)
    ensures Height(g) == Height(g0) && Width(g) == Width(g0)
    ensures forall y, x :: 0 <= y < Height(g) && 0 <= x < Width(g) ==> g[y][x] == CoffeeCell(data, exempt, x, y)
  {
    g := g0;
    for i := 0 to |data|
      invariant Height(g) == Height(g0) && Width(g) == Width(g0)
      invariant forall y, x :: 0 <= y < Height(g) && 0 <= x < Width(g) ==>
                  g[y][x] == if HasStructureRow(data[..i], exempt, x, y) then 2 else SiteCell(data, exempt, x, y)
    {
      var p := data[i];
      forall y: nat, x: nat | y < Height(g) && x < Width(g) {
        StructureRowStep(data, exempt, i, x, y);
      }
      if IsStructureRow(p) {
        if p.structName in exempt {
          continue;
        }
        g := SetCell(g, Coord(p.x, p.y), 2);
      }
    }
    assert data[..|data|] == data;
  }

  /**
   * create_grid: a zero grid of (max y + 1) rows by (max x + 1) columns; then
   * 1 at every construction site, then 2 at every apartment or building that
   * is not a construction site, skipping records whose name is in exempt.
   * Returns the grid and the two maxima; with no records there is no maximum
   * and the builder fails.
   */
  method CreateGrid(data: seq<Place>, exempt: set<string>) returns (r: Option<(Grid, nat, nat)>)
    ensures |data| == 0 <==> r.None?
    ensures r.Some? ==> Height(r.value.0) == r.value.2 + 1 && Width(r.value.0) == r.value.1 + 1
    ensures r.Some? ==> forall i :: 0 <= i < |data| ==> data[i].x <= r.value.1 && data[i].y <= r.value.2
    ensures r.Some? ==> (exists i :: 0 <= i < |data| && data[i].x == r.value.1) && (exists i :: 0 <= i < |data| && data[i].y == r.value.2)
    ensures r.Some? ==> forall y, x :: 0 <= y < Height(r.value.0) && 0 <= x < Width(r.value.0) ==>
                          r.value.0[y][x] == CoffeeCell(data, exempt, x, y)
  {
    if |data| == 0 {
      return None;
    }
    var maxX := MaxOf(Column(data, (p: Place) => p.x));
    var maxY := MaxOf(Column(data, (p: Place) => p.y));
    var g := Zeros(maxY + 1, maxX + 1);
    g := MarkSites(data, exempt, g);
    g := MarkStructures(data, exempt, g);
    r := Some((g, maxX, maxY));
  }

  /** The detailed builder: every record counts. */
  method CreateGridDetailed(data: seq<Place>) returns (r: Option<(Grid, nat, nat)>)
    ensures |data| == 0 <==> r.None?
    ensures r.Some? ==> var g := r.value.0;
      Height(g) == r.value.2 + 1 && Width(g) == r.value.1 + 1 &&
      forall y, x :: 0 <= y < Height(g) && 0 <= x < Width(g) ==> g[y][x] == CoffeeCell(data, {}, x, y)
  {
    r := CreateGrid(data, {});
  }

  /** The direct builder: MyHome and BandalgomCoffee records are skipped. */
  method CreateGridDirect(data: seq<Place>) returns (r: Option<(Grid, nat, nat)>)
    ensures |data| == 0 <==> r.None?
    ensures r.Some? ==> var g := r.value.0;
      Height(g) == r.value.2 + 1 && Width(g) == r.value.1 + 1 &&
      forall y, x :: 0 <= y < Height(g) && 0 <= x < Width(g) ==> g[y][x] == CoffeeCell(data, DirectExempt, x, y)
  {
    r := CreateGrid(data, DirectExempt);
  }

  /** Builders write only the codes 0, 1 and 2. */
  lemma CoffeeCellCodes(data: seq<Place>, exempt: set<string>, x: nat, y: nat)
    ensures CoffeeCell(data, exempt, x, y) in {0, 1, 2}
  {
  }

  /** A cell whose records are all exempt stays open. */
  lemma ExemptCellOpen(data: seq<Place>, exempt: set<string>, x: nat, y: nat)
    requires forall i :: 0 <= i < |data| && data[i].x == x && data[i].y == y ==> data[i].structName in exempt
    ensures CoffeeCell(data, exempt, x, y) == 0
  {
  }

  /** Exempting more names only opens cells: a cell blocked with more exemptions is blocked with fewer. */
  lemma ExemptingOnlyOpens(data: seq<Place>, fewer: set<string>, more: set<string>, x: nat, y: nat)
    requires fewer <= more
    ensures CoffeeCell(data, more, x, y) != 0 ==> CoffeeCell(data, fewer, x, y) != 0
    ensures CoffeeCell(data, more, x, y) == 2 ==> CoffeeCell(data, fewer, x, y) == 2
  {
  }

  /**
   * An unexempted apartment or building record fixes its cell at 2, whatever
   * records come before or after it. A construction-site record blocks its
   * cell, and when every unexempted record there is a construction site (an
   * apartment flagged as one included) the cell is 1.
   */
  lemma StructureOverridesSite(data: seq<Place>, exempt: set<string>, x: nat, y: nat, i: nat)
    requires i < |data| && data[i].x == x && data[i].y == y && data[i].structName !in exempt
    ensures IsStructureRow(data[i]) ==> CoffeeCell(data, exempt, x, y) == 2
    ensures IsSiteRow(data[i]) ==> CoffeeCell(data, exempt, x, y) in Blocking
    ensures IsSiteRow(data[i]) &&
            (forall j :: 0 <= j < |data| && data[j].x == x && data[j].y == y && data[j].structName !in exempt ==>
                           IsSiteRow(data[j])) ==>
              CoffeeCell(data, exempt, x, y) == 1
  {
  }

  /** is_valid_position: inside the list of rows and inside the first row. */
  function IsValidPosition(pos: Coord, g: Grid): (r: bool)
    ensures r <==> pos in Cells(g)
  {
    !(pos.x < 0 || pos.y < 0 || pos.y >= |g| || pos.x >= |g[0]|)
  }

  /**
   * bfs_pathfinding of the detailed variant, with the grid indexed grid[y][x]:
   * None when an endpoint is outside the grid or on code 1 or 2; otherwise a
   * fewest-cell eight-directional path avoiding codes 1 and 2, or None when
   * there is none.
   */
  method DetailedBfsPathfinding(start: Coord, end: Coord, g: Grid) returns (r: Option<seq<Coord>>)
    ensures !OpenEnds(g, Blocking, start, end) ==> r.None?
    ensures r.Some? ==> WalkFrom(Passable(g, Blocking), Moves8, r.value, start, end) && Distinct(r.value)
    ensures r.Some? ==> Fewest(Passable(g, Blocking), Moves8, r.value, start, end)
    ensures OpenEnds(g, Blocking, start, end) && r.None? ==> Unreachable(Passable(g, Blocking), Moves8, start, end)
  {
    if !IsValidPosition(start, g) || !IsValidPosition(end, g) {
      return None;
    }
    r := GridBfs(g, Blocking, start, end);
  }

  /**
   * bfs_pathfinding of the direct variant, which blocks codes 1 to 4. On a
   * grid from the builders (codes 0 to 2 only) its answer is a fewest-cell path
   * avoiding codes 1 and 2, exactly as if only those blocked.
   */
  method DirectBfsPathfinding(start: Coord, end: Coord, g: Grid) returns (r: Option<seq<Coord>>)
    ensures !OpenEnds(g, DirectBlocking, start, end) ==> r.None?
    ensures r.Some? ==> WalkFrom(Passable(g, DirectBlocking), Moves8, r.value, start, end) && Distinct(r.value)
    ensures r.Some? ==> Fewest(Passable(g, DirectBlocking), Moves8, r.value, start, end)
    ensures OpenEnds(g, DirectBlocking, start, end) && r.None? ==>
              Unreachable(Passable(g, DirectBlocking), Moves8, start, end)
    ensures (forall y, x :: 0 <= y < Height(g) && 0 <= x < Width(g) ==> g[y][x] in {0, 1, 2}) ==>
              (r.Some? ==> WalkFrom(Passable(g, Blocking), Moves8, r.value, start, end) &&
                           Fewest(Passable(g, Blocking), Moves8, r.value, start, end)) &&
              (OpenEnds(g, Blocking, start, end) && r.None? ==> Unreachable(Passable(g, Blocking), Moves8, start, end))
  {
    if !IsValidPosition(start, g) || !IsValidPosition(end, g) {
      return None;
    }
    r := GridBfs(g, DirectBlocking, start, end);
    if forall y, x :: 0 <= y < Height(g) && 0 <= x < Width(g) ==> g[y][x] in {0, 1, 2} {
      SameWalks(g, start, end);
    }
  }

  /** With codes 0 to 2 only, both blocking sets give the same walks, fewest paths and reachability. */
  lemma SameWalks(g: Grid, start: Coord, end: Coord)
    requires forall y, x :: 0 <= y < Height(g) && 0 <= x < Width(g) ==> g[y][x] in {0, 1, 2}
    ensures OpenEnds(g, Blocking, start, end) <==> OpenEnds(g, DirectBlocking, start, end)
    ensures forall p :: WalkFrom(Passable(g, DirectBlocking), Moves8, p, start, end) <==>
                        WalkFrom(Passable(g, Blocking), Moves8, p, start, end)
    ensures forall p :: Fewest(Passable(g, DirectBlocking), Moves8, p, start, end) <==>
                        Fewest(Passable(g, Blocking), Moves8, p, start, end)
    ensures Unreachable(Passable(g, DirectBlocking), Moves8, start, end) <==>
            Unreachable(Passable(g, Blocking), Moves8, start, end)
  {
    forall p
      ensures Walk(Passable(g, DirectBlocking), Moves8, p) <==> Walk(Passable(g, Blocking), Moves8, p)
    {
      UnusedCodesChangeNothing(g, p);
    }
  }

  /** What running a piece of the source ends in: an exception, or a value. */
  datatype Outcome<T> = Raises | Returns(value: T)

  /**
   * create_grid of the detailed variant as written: it indexes the list of
   * rows with a tuple, grid[y, x], which raises a TypeError as soon as either
   * pass has a row to place. With no records the maximum is undefined and it
   * raises as well.
   */
  function DetailedCreateGridAsWritten(data: seq<Place>): (r: Outcome<(Grid, nat, nat)>)
    ensures r.Returns? <==> |data| > 0 && forall i :: 0 <= i < |data| ==> !IsSiteRow(data[i]) && !IsStructureRow(data[i])
  {
    if |data| == 0 then Raises
    else if exists i :: 0 <= i < |data| && (IsSiteRow(data[i]) || IsStructureRow(data[i])) then Raises
    else
      var maxX, maxY := MaxOf(Column(data, (p: Place) => p.x)), MaxOf(Column(data, (p: Place) => p.y));
      Returns((Zeros(maxY + 1, maxX + 1), maxX, maxY))
  }

  /**
   * bfs_pathfinding of the detailed variant as written: once both endpoints
   * are in bounds it reads grid[start[1], start[0]], which raises a TypeError
   * on a list of rows.
   */
  function DetailedBfsAsWritten(start: Coord, end: Coord, g: Grid): (r: Outcome<Option<seq<Coord>>>)
    ensures r == Raises <==> IsValidPosition(start, g) && IsValidPosition(end, g)
  {
    if !IsValidPosition(start, g) || !IsValidPosition(end, g) then Returns(None)
    else Raises
  }

  /**
   * One apartment record makes the written builder raise, where the
   * corrected builder marks the apartment's cell 2; and a one-cell grid with
   * start equal to goal makes the written search raise, where the corrected
   * search answers the one-cell path.
   */
  lemma DetailedTupleIndexRaises()
    ensures DetailedCreateGridAsWritten([Place(1, 1, 1, 0, "Apartment")]) == Raises
    ensures CoffeeCell([Place(1, 1, 1, 0, "Apartment")], {}, 1, 1) == 2
    ensures DetailedBfsAsWritten(Coord(0, 0), Coord(0, 0), [[0]]) == Raises
    ensures OpenEnds([[0]], Blocking, Coord(0, 0), Coord(0, 0))
  {
    var a := [Place(1, 1, 1, 0, "Apartment")];
    assert IsStructureRow(a[0]);
  }
}
