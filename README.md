# Grid shortest-path kernel of teamproject1, in Dafny

This project models the path-finding core of the teamproject1 repository. The
repository places map records (buildings, roads, construction sites, apartments,
the user's home, a coffee shop) on an integer occupancy grid indexed
`grid[y][x]`, and finds routes over that grid. It also finds routes over an
unbounded plane minus an obstacle set. The variants are:

- **The `PathfindingSystem` class** (`original_pathfinding_project/pathfinding_system_fixed.py`,
  and its earlier copy `pathfinding_system.py`):
  - the grid is at least 51 by 51;
  - a construction site (code 3) is always written, while a building (1) or a
    road (2) is written only into an empty cell;
  - breadth-first and Dijkstra searches go eight-directionally around codes 1 and 3.
- **The coffee-map builders and searches** (`coffee_pathfinding_project/map_direct_save_detailed.py`
  and `coffee_pathfinding_project/map_direct_save.py`):
  - construction sites become 1, then apartments and buildings become 2;
  - the direct variant skips the MyHome and BandalgomCoffee records;
  - the searches block codes {1, 2} or {1, 2, 3, 4}.
- **The plane search** `bfs_shortest_path` in `map_direct_save.py`: four
  directions, a parent map, the goal checked when it is discovered, and the path
  rebuilt from the parents.
- **`classify_kind`** in `map_direct_save.py` and `map_draw.py`: the kind of a
  record, from ordered keyword tests on its lower-cased name.

Modules:

- `Coords`: coordinates and the two move lists, in the source's order.
- `Walks`: walks, shortest walks and unreachability over any passability test.
- `Grids`: rectangular grids.
- `Bfs`: the path-carrying breadth-first search (a deque of (cell, path) pairs,
  the goal checked when a pair is popped). All grid variants use it.
- `GridSearch`: the endpoint checks shared by the grid variants.
- `PlaneBfs`: the parent-map search.
- `Dijkstra`: the Dijkstra search, with integer step costs 10 and 14, plus the
  queue key the source actually pushes.
- `Pathfinding`: the class.
- `CoffeeMap`: the coffee-map functions.
- `Classify`: `classify_kind`.

How the model is built:

- Loops that mutate a deque, a set, a dict or a grid are methods with loop
  invariants. Each is proved against the specification predicates of `Walks`.
  - `Fewest`: no walk is shorter.
  - `Unreachable`: no walk exists.
  - `Dijkstra.Cheapest`: no walk costs less.
- Grids are sequences of rows. A builder reassigns them cell by cell.
- The class's `grid` field is a Dafny class field, which `CreateGrid` assigns.

## Model

| member | source | states |
|---|---|---|
| Coords.Moves8AreKingMoves | original_pathfinding_project/pathfinding_system_fixed.py:327-336 | the eight offsets, in the order tried, are exactly the moves with each coordinate changing by at most one, excluding standing still |
| Coords.Moves4AreUnitSteps | map_direct_save.py:107 | the four moves of the plane search are exactly the unit steps along one axis |
| Coords.AdjacentByIndex | original_pathfinding_project/pathfinding_system_fixed.py:353-357 | a cell is a neighbour exactly when it is the current cell plus one of the listed offsets |
| Grids.Cells | original_pathfinding_project/pathfinding_system_fixed.py:494-509 | the cell set of a grid holds exactly the in-bounds positions, 0 <= x < width and 0 <= y < height |
| Grids.Zeros | original_pathfinding_project/pathfinding_system_fixed.py:178 | a fresh grid has the requested height and width and every cell 0 |
| Grids.SetCell | original_pathfinding_project/pathfinding_system_fixed.py:189-195 | writing one cell changes that cell and no other, and keeps the dimensions |
| Grids.MaxOf | original_pathfinding_project/pathfinding_system_fixed.py:169-170 | the maximum of a column bounds every entry and is one of them |
| Walks.StaysInside | original_pathfinding_project/pathfinding_system_fixed.py:341-373 | a walk that starts in a set closed under moves never leaves it; this is why an exhausted queue means no path |
| Walks.LeaveSeen | original_pathfinding_project/pathfinding_system_fixed.py:341-373 | a walk from start to a cell not yet seen is at least as long as the current search level, which is the breadth-first invariant |
| Walks.Expanded | original_pathfinding_project/pathfinding_system_fixed.py:353-369 | once every passable neighbour of the current cell is visited, the cell joins the closed set |
| Bfs.SearchPaths | original_pathfinding_project/pathfinding_system_fixed.py:319-373 | the deque search's path starts at start, ends at the goal, steps by the offsets through passable cells and never repeats a cell; no passable walk is shorter; None means no passable walk exists; start == goal gives [start]; the same loop is in the earlier copy of the class (pathfinding_system.py, lines 133-157) and in both coffee variants (map_direct_save_detailed.py, lines 223-279; map_direct_save.py, lines 138-172) |
| Bfs.TryMoves | original_pathfinding_project/pathfinding_system_fixed.py:353-369 | trying the offsets keeps the queue already there and appends, in offset order, (n, path + [n]) for exactly the passable neighbours n not visited before, each once, all marked visited; the queue stays in order of path length and the unvisited part of the region shrinks by what was enqueued |
| Bfs.TryMove | original_pathfinding_project/pathfinding_system_fixed.py:355-369 | one offset: an unvisited passable neighbour is marked visited and appended with the path extended by it; otherwise queue and visited set stay as they were; the search invariant is kept |
| Bfs.Newcomers | original_pathfinding_project/pathfinding_system_fixed.py:353-369 | the entries the offsets add are passable neighbours not visited before, paired with the path extended by them, none twice, and every passable neighbour ends up visited |
| Bfs.NewcomersNext | original_pathfinding_project/pathfinding_system_fixed.py:355-369 | one more offset extends the added entries exactly as one loop pass extends the queue |
| Bfs.Pop | original_pathfinding_project/pathfinding_system_fixed.py:343 | the popped path is a valid walk to its cell and no walk from start to that cell is shorter; the rest of the queue keeps its invariants |
| Bfs.Exhausted | original_pathfinding_project/pathfinding_system_fixed.py:371-373 | when the queue is empty and the goal was never popped, the goal is unreachable |
| GridSearch.GridBfs | original_pathfinding_project/pathfinding_system_fixed.py:292-312 | an endpoint outside the grid or on a blocking code gives None before any search; otherwise the result is a shortest in-grid path avoiding the blocking codes, or None exactly when no such path exists |
| GridSearch.UnusedCodesChangeNothing | coffee_pathfinding_project/map_direct_save.py:129-135 | on a grid holding only codes 0, 1 and 2, blocking {1, 2, 3, 4} admits exactly the same cells and walks as blocking {1, 2} |
| PlaneBfs.BfsShortestPath | map_direct_save.py:94-120 | start == goal gives [start] at once; otherwise a shortest four-directional path whose cells after the first are not obstacles, or None (the source's "no path" error) exactly when none exists |
| PlaneBfs.SearchParents | map_direct_save.py:104-120 | the parent-map loop returns a shortest non-repeating walk from start to goal, or None only when the goal is unreachable |
| PlaneBfs.TryMove | map_direct_save.py:111-119 | a neighbour that already has a parent or is an obstacle changes nothing; otherwise it gets the current cell as its parent, and the move stops the search exactly when it is the goal or else appends it to the queue; the parent tree and the search invariant are kept |
| PlaneBfs.TryMoves | map_direct_save.py:111-119 | the loop over the four moves keeps every existing parent, gives each new key the current cell as parent (a passable neighbour), only appends new keys to the queue, and reports the goal exactly when it gained a parent |
| PlaneBfs.GrowOne | map_direct_save.py:114-119 | one move keeps the parent map and queue grown from their values before the loop |
| PlaneBfs.Adopt | map_direct_save.py:114-116 | recording the current cell as the parent of a new passable neighbour keeps the parents a tree rooted at start, one level apart |
| PlaneBfs.Enqueue | map_direct_save.py:119 | appending a newly discovered cell keeps the queue in level order and the level bounds of the search |
| Bfs.DiscoverKeepsSearching | map_direct_save.py:114-118 | marking a newly discovered passable cell at level m + 1, with every unfinished cell at level m or more, keeps every recorded level a lower bound on the walk length; the plane search uses it for every discovery, the goal included |
| PlaneBfs.ReconstructPath | map_direct_save.py:123-132 | appending cells from the goal until the parent is None and then reversing gives a list that ends at the goal, begins at the parentless cell and links each cell to its parent |
| PlaneBfs.ChainIsWalk | map_direct_save.py:127-132 | that parent chain is a non-repeating walk from start, and its i-th cell sits at level i + 1 |
| Dijkstra.Search | original_pathfinding_project/pathfinding_system_fixed.py:411-492 | with step costs 10 and 14, the returned path runs from start to the goal through passable cells and no walk costs less; None means the goal is unreachable; start == goal gives [start]; the earlier copy of the class has the same loop (pathfinding_system.py, lines 175-221) |
| Dijkstra.PopLeast | original_pathfinding_project/pathfinding_system_fixed.py:440 | the popped entry is the least queue entry in tuple order, so its distance is no larger than any other |
| Dijkstra.LeastEntry | original_pathfinding_project/pathfinding_system_fixed.py:440 | every non-empty queue has a least entry in tuple order |
| Dijkstra.Settle | original_pathfinding_project/pathfinding_system_fixed.py:440-447 | a popped cell not yet finished has the popped key as its recorded distance, and that distance is the cost of a cheapest walk to it; the first cell finished is start |
| Dijkstra.CostLeave | original_pathfinding_project/pathfinding_system_fixed.py:440-447 | any walk from start that leaves the finished set costs at least the least queued key |
| Dijkstra.Expand | original_pathfinding_project/pathfinding_system_fixed.py:466-489 | finishing a non-goal cell and relaxing its neighbours keeps the search invariant: a predecessor tree of true walk costs, finished cells cheapest, all their neighbours relaxed, every unfinished estimate queued |
| Dijkstra.RelaxAll | original_pathfinding_project/pathfinding_system_fixed.py:466-489 | relaxing all eight neighbours of the cell being finished restores the search invariant |
| Dijkstra.RelaxMove | original_pathfinding_project/pathfinding_system_fixed.py:470-489 | one neighbour: when it is passable, unfinished and the cost through the current cell is strictly smaller than its estimate (or it has none), distance, predecessor and queue are updated together; otherwise nothing changes; a passable unfinished neighbour ends with an estimate no larger than the cost through the current cell |
| Dijkstra.Relax | original_pathfinding_project/pathfinding_system_fixed.py:470-489 | one neighbour: when it is passable, unfinished and either unrecorded or recorded above the cost through the current cell, it gets that cost, the current cell as predecessor and a queue entry; otherwise distance, predecessor and queue are unchanged |
| Dijkstra.RelaxCovers | original_pathfinding_project/pathfinding_system_fixed.py:470-489 | after relaxing move k, every passable unfinished cell among the first k + 1 moves has an estimate no larger than the cost through the current cell |
| Dijkstra.Improve | original_pathfinding_project/pathfinding_system_fixed.py:485-489 | a strict improvement updates distance, predecessor and queue together, keeping the invariant |
| Dijkstra.TreeImprove | original_pathfinding_project/pathfinding_system_fixed.py:485-487 | the new predecessor is finished and adjacent, and the new distance is its distance plus the step cost |
| Dijkstra.WalkBack | original_pathfinding_project/pathfinding_system_fixed.py:452-462 | following predecessors from the goal, appending start and reversing gives a list from start to the goal in which each cell's predecessor is the one before it |
| Dijkstra.ReverseLinked | original_pathfinding_project/pathfinding_system_fixed.py:462 | reversing a goal-first predecessor chain gives a start-first chain |
| Dijkstra.ChainCost | original_pathfinding_project/pathfinding_system_fixed.py:452-462 | a predecessor chain from start is a passable eight-directional walk whose cost equals the recorded distance of its last cell |
| Dijkstra.Arrive | original_pathfinding_project/pathfinding_system_fixed.py:449-464 | the rebuilt path for the finished goal is a walk from start to the goal that no walk undercuts in cost |
| Dijkstra.Exhausted | original_pathfinding_project/pathfinding_system_fixed.py:491-492 | an empty queue with the goal unfinished means the goal is unreachable |
| Dijkstra.StepCosts | original_pathfinding_project/pathfinding_system_fixed.py:481 | the four diagonal offsets cost 14 and the four orthogonal ones cost 10 |
| Dijkstra.CostBounds | original_pathfinding_project/pathfinding_system_fixed.py:481 | a walk of n steps costs between 10n and 14n |
| Dijkstra.LegacyKeyBySteps | original_pathfinding_project/pathfinding_system_fixed.py:489 | under the pushed key int(new_dist * 10), every walk with fewer steps has a smaller key, whatever it costs |
| Dijkstra.LegacyKeyInversion | original_pathfinding_project/pathfinding_system_fixed.py:482-489 | a four-step straight walk (cost 40) gets key 11110, while a three-step diagonal walk (cost 42) gets key 1554 |
| Pathfinding.PathfindingSystem.constructor | original_pathfinding_project/pathfinding_system_fixed.py:88 | a new system has no grid |
| Pathfinding.PathfindingSystem.IsValidPosition | original_pathfinding_project/pathfinding_system_fixed.py:494-509 | false while there is no grid; otherwise true exactly for 0 <= x < width and 0 <= y < height; the earlier copy has the same test (lines 223-228) |
| Pathfinding.PathfindingSystem.CreateGrid | original_pathfinding_project/pathfinding_system_fixed.py:155-198 | the grid has max(max y, 50) + 1 rows and max(max x, 50) + 1 columns; every record lies inside; every cell holds the code given by the priority rule; the two maxima are returned; with no records the grid is unchanged; the earlier copy has the same builder (lines 63-82) |
| Pathfinding.PlaceRecord | original_pathfinding_project/pathfinding_system_fixed.py:184-195 | writing one more record leaves every cell as the priority rule gives it for the longer record prefix |
| Pathfinding.OriginalCellStep | original_pathfinding_project/pathfinding_system_fixed.py:189-195 | one more record changes only its own cell: a construction site always writes 3, while a building or road writes only into a 0 cell |
| Pathfinding.FirstStructAt | original_pathfinding_project/pathfinding_system_fixed.py:192-195 | the building or road code at a cell is that of the first such record there, or none when no such record exists |
| Pathfinding.OriginalCellCodes | original_pathfinding_project/pathfinding_system_fixed.py:184-195 | every cell holds 0, 1, 2 or 3 |
| Pathfinding.UntouchedCellEmpty | original_pathfinding_project/pathfinding_system_fixed.py:178 | a cell that no record names stays 0 |
| Pathfinding.RoadBeforeBuilding | original_pathfinding_project/pathfinding_system.py:71-79 | at a cell without a construction site the first building or road record decides the code, so a road listed before a building leaves 2 there, whatever the comment says about priority |
| Pathfinding.PathfindingSystem.BfsPathfinding | original_pathfinding_project/pathfinding_system_fixed.py:275-373 | None without a grid, or for an endpoint out of bounds or on code 1 or 3; otherwise a shortest non-repeating eight-directional path avoiding codes 1 and 3, or None exactly when none exists; the earlier copy has the same search (lines 118-157) |
| Pathfinding.PathfindingSystem.DijkstraPathfinding | original_pathfinding_project/pathfinding_system_fixed.py:375-409 | the same endpoint rejections; otherwise a cheapest walk around codes 1 and 3 at costs 10 and 14, or None exactly when the goal is unreachable; the earlier copy has the same checks and search (lines 159-221) |
| CoffeeMap.CreateGrid | coffee_pathfinding_project/map_direct_save.py:59-90 | no records gives no grid; otherwise (max y + 1) rows by (max x + 1) columns, every record inside, and every cell 2 where an unexempted apartment or building is, else 1 where an unexempted construction site is, else 0 |
| CoffeeMap.CreateGridDirect | coffee_pathfinding_project/map_direct_save.py:74-88 | the direct builder's cells follow that rule with the MyHome and BandalgomCoffee records skipped |
| CoffeeMap.CreateGridDetailed | coffee_pathfinding_project/map_direct_save_detailed.py:96-151 | the detailed builder, as intended, follows the same rule with no record skipped |
| CoffeeMap.MarkSites | coffee_pathfinding_project/map_direct_save.py:74-80 | after the first pass, exactly the cells of unexempted construction sites hold 1 and all others 0 |
| CoffeeMap.MarkStructures | coffee_pathfinding_project/map_direct_save.py:82-88 | the second pass writes 2 at every unexempted apartment or building and leaves the first pass's codes elsewhere |
| CoffeeMap.CoffeeCellCodes | coffee_pathfinding_project/map_direct_save.py:70-88 | the builders write only codes 0, 1 and 2 |
| CoffeeMap.ExemptCellOpen | coffee_pathfinding_project/map_direct_save.py:77-79 | a cell whose records all carry exempt names stays 0 |
| CoffeeMap.ExemptingOnlyOpens | coffee_pathfinding_project/map_direct_save.py:85-87 | exempting more names never blocks a cell that was open and never raises a cell's code |
| CoffeeMap.StructureOverridesSite | coffee_pathfinding_project/map_direct_save.py:74-88 | an unexempted apartment or building record makes its cell 2 whatever records come before or after; an unexempted construction site blocks its cell, and a cell whose unexempted records are all construction sites (a flagged apartment included) is 1 |
| CoffeeMap.IsValidPosition | coffee_pathfinding_project/map_direct_save.py:93-107 | true exactly for positions inside the grid; the detailed variant has the same test (map_direct_save_detailed.py, lines 154-173) |
| CoffeeMap.DetailedBfsPathfinding | coffee_pathfinding_project/map_direct_save_detailed.py:176-279 | an endpoint out of bounds or on code 1 or 2 gives None; otherwise a shortest non-repeating eight-directional path avoiding codes 1 and 2, or None exactly when none exists |
| CoffeeMap.DirectBfsPathfinding | coffee_pathfinding_project/map_direct_save.py:110-172 | the same with blocking codes {1, 2, 3, 4}; on a grid from the builders the answer is also shortest for blocking {1, 2} |
| CoffeeMap.SameWalks | coffee_pathfinding_project/map_direct_save.py:166 | on a grid of codes 0 to 2, both blocking sets agree on open endpoints, walks, shortest paths and unreachability |
| CoffeeMap.DetailedCreateGridAsWritten | coffee_pathfinding_project/map_direct_save_detailed.py:135-146 | the builder as written returns only when there are records and none is a construction site, apartment or building; otherwise it raises |
| CoffeeMap.DetailedBfsAsWritten | coffee_pathfinding_project/map_direct_save_detailed.py:203-216 | the search as written raises exactly when both endpoints are in bounds |
| CoffeeMap.DetailedTupleIndexRaises | coffee_pathfinding_project/map_direct_save_detailed.py:137 | one apartment record makes the builder as written raise where the intended grid marks the cell 2; a one-cell open grid makes the search as written raise where the endpoints are open |
| Classify.ClassifyKind | map_direct_save.py:74-86 | the kind is the first, in the order construction, cafe, home, apartment, building, other, whose test holds for the flag and the lower-cased name |
| Classify.ClassifyKindDraw | map_draw.py:68-80 | the same, with a missing construction flag read as 0; construction exactly when the flag is present and 1 |
| Classify.FirstMatchUnique | map_direct_save.py:74-86 | any kind that matches and has no earlier matching kind is the classification, so the ordered tests define it uniquely |
| Classify.Lower | map_direct_save.py:77 | the lower-cased name has the same length, each character lower-cased |
| Classify.CaseInsensitive | map_draw.py:71 | classifying an already lower-cased name gives the same kind |
| Classify.MyHomeKeywordRedundant | map_draw.py:74 | a name containing "myhome" contains "home", so the first home keyword never decides anything |
| Classify.ConstructionFirst | map_draw.py:68-69 | a construction flag of 1 gives construction whatever the name |
| Classify.CafeBeforeHome | map_draw.py:72-75 | without the construction flag, a name with both a cafe keyword (coffee or its Korean form) and a home keyword (myhome, home, house or the Korean word for house) is a cafe |
| Classify.ApartmentBeforeBuilding | map_draw.py:76-79 | without the construction flag and with no cafe or home keyword, a name with both an apartment keyword (English or Korean) and a building keyword (English or Korean) is an apartment |
| Classify.CoffeeShopName | map_direct_save.py:77-79 | example: "BandalgomCoffee" is a cafe because the name is lower-cased before the test, and a construction site when flagged |

## Left out

- CSV loading, the DataFrame merges and the start/goal lookups in `main` and `run_demo` are not modelled.
  - Builders take a sequence of records instead.
  - With an empty record list the builders return None, because the maximum of an empty column is NaN and `int()` of it raises. `PathfindingSystem.CreateGrid` then leaves the grid as it was, since the source raises before it assigns `self.grid`.
- Plotting, printing, CSV output, the interactive loop, `test_all.py` and the `step_count` counter are left out. They have no effect on the results.
- Record coordinates are natural numbers. Python wraps negative list and numpy indices to the end of a row; that is not modelled.
- The grid `None` check inside `dijkstra_pathfinding` of `pathfinding_system_fixed.py` is not modelled separately. `is_valid_position` has already returned false for both endpoints when there is no grid, so the check never decides.
- PlaneBfs.BfsShortestPath: the source searches the unbounded plane and does not terminate when the goal is unreachable from an infinite region. The model confines the search to a finite `arena` given by the caller; cells outside it count as blocked.
- Dijkstra.Search: the source uses float costs 1.0 and 1.4. The model uses the exact integers 10 and 14, so float rounding is not modelled.
- Dijkstra.Search: the source's heap is a binary-heap list that may hold one cell several times. The model's queue is a set of (distance, cell) entries popped least-first in the same tuple order. An entry equal to one already queued is not repeated, so heap layout and duplicate pops are not modelled. Stale entries for finished cells are still skipped as in the source.
- Dijkstra.Search: the queue key actually pushed is `int(new_dist * 10)`, which the next pop reads as a plain distance. The main model uses the consistent key instead; the pushed key is modelled separately (see Findings).
- Classify.Lower: only ASCII capitals are lower-cased. Python's `str.lower` also folds other cased letters; Hangul has no case.

Two behaviours of the source are captured as lemmas rather than findings:

- A road listed before a building at one cell stays a road (`Pathfinding.RoadBeforeBuilding`). The class's comment documents building as taking priority over road.
- Codes 3 and 4 in the direct coffee search's blocking set are never written by its builder (`GridSearch.UnusedCodesChangeNothing`, `CoffeeMap.SameWalks`).

## Findings

| source | as written | input that shows it | evidently intended | confidence | as-written member | corrected member |
|---|---|---|---|---|---|---|
| coffee_pathfinding_project/map_direct_save_detailed.py:137 | `grid[row['y'], row['x']]` (and at lines 146, 210, 214 and 268) indexes a list of lists with a tuple, which raises TypeError | one apartment record `Place(1, 1, 1, 0, "Apartment")`; or the grid `[[0]]` with start = end = (0, 0) | `grid[y][x]`, as in the direct variant | not executed | CoffeeMap.DetailedTupleIndexRaises | CoffeeMap.CreateGridDetailed |
| original_pathfinding_project/pathfinding_system_fixed.py:489 | the heap key is `int(new_dist * 10)` but the popped key is reused as an unscaled distance (line 482), so each step multiplies the key by ten and cells are finished in order of step count | from (0, 0): four straight steps east (cost 4.0, key 11110) and three diagonal steps to (3, 3) (cost 4.2, key 1554); the dearer cell is finished first | push and pop the same consistent distance, so the cheapest cell is finished first | not executed | Dijkstra.LegacyKeyInversion | Dijkstra.Search |
