/**
 * The four-directional breadth-first search over the plane minus a set of
 * obstacles: a queue of cells, a parent map seeded with start -> None, the goal
 * checked when a cell is first discovered, and the path rebuilt by following
 * parents back from the goal. The plane is unbounded, so the model confines the
 * search to a caller-chosen finite `arena`; cells outside it count as blocked.
 */
module PlaneBfs {
  import opened Coords
  import opened Walks
  import opened Bfs

  /**
   * The parent map is a tree rooted at start: start has no parent, every other
   * cell's parent is recorded, passable-adjacent, and one level nearer the root.
   */
  ghost predicate ParentsOk(ok: Coord -> bool, moves: seq<Coord>, start: Coord,
                            parent: map<Coord, Option<Coord>>, rec: map<Coord, nat>)
  {
    parent.Keys == rec.Keys && start in parent && parent[start] == None && rec[start] == 1 &&
    forall v {:trigger parent[v]} :: v in parent && v != start ==>
      parent[v].Some? && parent[v].value in parent && ok(v) &&
      Adjacent(moves, parent[v].value, v) && rec[v] == rec[parent[v].value] + 1
  }

  /** Every parent is recorded and strictly lower in `rank`: following parents stops. */
  ghost predicate Ranked(parent: map<Coord, Option<Coord>>, rank: map<Coord, nat>) {
    parent.Keys <= rank.Keys &&
    forall v {:trigger parent[v]} :: v in parent && parent[v].Some? ==> parent[v].value in parent && rank[parent[v].value] < rank[v]
  }

  /**
   * _reconstruct_path: append cells from goal on, each followed by its parent,
   * until the parent is None; then reverse.
   */
  method ReconstructPath(parent: map<Coord, Option<Coord>>, goal: Coord, ghost rank: map<Coord, nat>)
    returns (path: seq<Coord>)
    requires goal in parent && Ranked(parent, rank)
    ensures |path| >= 1 && Last(path) == goal
    ensures path[0] in parent && parent[path[0]] == None
    ensures forall i :: 0 <= i < |path| ==> path[i] in parent
    ensures forall i :: 1 <= i < |path| ==> parent[path[i]] == Some(path[i - 1])
  {
    var back: seq<Coord> := [];
    var cur: Option<Coord> := Some(goal);
    while cur.Some?
      invariant cur.Some? ==> cur.value in parent
      invariant back == [] ==> cur == Some(goal)
      invariant forall i :: 0 <= i < |back| ==> back[i] in parent
      invariant back != [] ==> back[0] == goal && parent[Last(back)] == cur
      invariant forall i :: 0 <= i < |back| - 1 ==> parent[back[i]] == Some(back[i + 1])
      decreases if cur.Some? then rank[cur.value] + 1 else 0
    {
      back := back + [cur.value];
      cur := parent[cur.value];
    }
    path := Reverse(back);
    forall i | 1 <= i < |path|
      ensures parent[path[i]] == Some(path[i - 1])
    {
      assert path[i] == back[|back| - 1 - i] && path[i - 1] == back[|back| - 1 - i + 1];
    }
  }

  /** A parent chain in a tree rooted at start is a distinct walk whose i-th cell has bound i + 1. */
  lemma {:induction false} ChainIsWalk(ok: Coord -> bool, moves: seq<Coord>, start: Coord,
                                       parent: map<Coord, Option<Coord>>, rec: map<Coord, nat>, path: seq<Coord>)
    requires ParentsOk(ok, moves, start, parent, rec)
    requires |path| >= 1 && path[0] in parent && parent[path[0]] == None
    requires forall i :: 0 <= i < |path| ==> path[i] in parent
    requires forall i :: 1 <= i < |path| ==> parent[path[i]] == Some(path[i - 1])
    ensures forall i :: 0 <= i < |path| ==> rec[path[i]] == i + 1
    ensures WalkFrom(ok, moves, path, start, Last(path)) && Distinct(path)
  {
    ChainLevels(ok, moves, start, parent, rec, path);
    forall i | 1 <= i < |path|
      ensures ok(path[i]) && Adjacent(moves, path[i - 1], path[i])
    {
      assert path[i] != start by { assert rec[path[i]] == i + 1; }
    }
    forall i, j | 0 <= i < j < |path|
      ensures path[i] != path[j]
    {
      assert rec[path[i]] != rec[path[j]];
    }
  }

  /** Along a chain of parents from the root, the i-th cell sits at level i + 1. */
  lemma {:induction false} ChainLevels(ok: Coord -> bool, moves: seq<Coord>, start: Coord,
                                       parent: map<Coord, Option<Coord>>, rec: map<Coord, nat>, path: seq<Coord>)
    requires ParentsOk(ok, moves, start, parent, rec)
    requires |path| >= 1 && path[0] in parent && parent[path[0]] == None
    requires forall i :: 0 <= i < |path| ==> path[i] in parent
    requires forall i :: 1 <= i < |path| ==> parent[path[i]] == Some(path[i - 1])
    ensures forall i :: 0 <= i < |path| ==> rec[path[i]] == i + 1
    decreases |path|
  {
    var n := |path|;
    assert path[0] == start;
    if n > 1 {
      var p := path[..n - 1];
      ChainLevels(ok, moves, start, parent, rec, p);
      assert forall i :: 0 <= i < n - 1 ==> path[i] == p[i];
      assert rec[path[n - 1]] == rec[path[n - 2]] + 1;
    }
  }

  /** A unit-length queue of cells: all visited, bounds never decreasing. */
  ghost predicate CellQueueOk(rec: map<Coord, nat>, visited: set<Coord>, queue: seq<Coord>) {
    (forall i :: 0 <= i < |queue| ==> queue[i] in visited) &&
    rec.Keys == visited &&
    (forall i, j :: 0 <= i <= j < |queue| ==> rec[queue[i]] <= rec[queue[j]])
  }

  /** The state inside the loop over the moves from `current`, whose bound is m. */
  ghost predicate Expanding(ok: Coord -> bool, moves: seq<Coord>, start: Coord, goal: Coord, U: set<Coord>,
                            current: Coord, m: nat, queue0: seq<Coord>, visited0: set<Coord>, done: set<Coord>,
                            queue: seq<Coord>, visited: set<Coord>, parent: map<Coord, Option<Coord>>, rec: map<Coord, nat>)
  {
    Frontier(ok, moves, start, goal, U, current, m, queue0, visited0, done, queue, visited, rec) &&
    ParentsOk(ok, moves, start, parent, rec) && parent.Keys == visited
  }

  /** The part of the loop state that does not mention the parent map. */
  ghost predicate Frontier(ok: Coord -> bool, moves: seq<Coord>, start: Coord, goal: Coord, U: set<Coord>,
                           current: Coord, m: nat, queue0: seq<Coord>, visited0: set<Coord>, done: set<Coord>,
                           queue: seq<Coord>, visited: set<Coord>, rec: map<Coord, nat>)
  {
    Searching(ok, moves, start, goal, U, visited, done, rec) && goal !in visited &&
    current in visited && rec[current] == m &&
    CellQueueOk(rec, visited, queue) &&
    (forall v :: v in visited && v !in done ==> v == current || v in queue) &&
    (forall v :: v in visited && v !in done ==> rec[v] >= m) &&
    (forall i :: 0 <= i < |queue| ==> m <= rec[queue[i]] <= m + 1) &&
    |queue| + |U - visited| == |queue0| + |U - visited0| && |queue| >= |queue0|
  }

  /** Giving a newly discovered cell current as its parent, one level below it, keeps the tree. */
  lemma Adopt(ok: Coord -> bool, moves: seq<Coord>, start: Coord, parent: map<Coord, Option<Coord>>,
              rec: map<Coord, nat>, current: Coord, next: Coord)
    requires ParentsOk(ok, moves, start, parent, rec)
    requires current in parent && next !in parent && ok(next) && Adjacent(moves, current, next)
    ensures ParentsOk(ok, moves, start, parent[next := Some(current)], rec[next := rec[current] + 1])
  {
  }

  /** Enqueueing a newly discovered cell other than the goal keeps the frontier state. */
  lemma Enqueue(ok: Coord -> bool, moves: seq<Coord>, start: Coord, goal: Coord, U: set<Coord>,
                current: Coord, m: nat, queue0: seq<Coord>, visited0: set<Coord>, done: set<Coord>,
                queue: seq<Coord>, visited: set<Coord>, rec: map<Coord, nat>, next: Coord)
    requires forall c :: ok(c) ==> c in U
    requires Frontier(ok, moves, start, goal, U, current, m, queue0, visited0, done, queue, visited, rec)
    requires next !in visited && next != goal && ok(next)
    ensures Frontier(ok, moves, start, goal, U, current, m, queue0, visited0, done,
                     queue + [next], visited + {next}, rec[next := m + 1])
  {
    DiscoverKeepsSearching(ok, moves, start, goal, U, visited, done, rec, m, next);
    assert (U - visited) == (U - (visited + {next})) + {next};
    CellQueueAppend(rec, visited, queue, next, m + 1);
  }

  /** Appending a new cell whose bound is at least every queued bound keeps the queue sorted. */
  lemma CellQueueAppend(rec: map<Coord, nat>, visited: set<Coord>, queue: seq<Coord>, next: Coord, n: nat)
    requires CellQueueOk(rec, visited, queue) && next !in visited
    requires forall i :: 0 <= i < |queue| ==> rec[queue[i]] <= n
    ensures CellQueueOk(rec[next := n], visited + {next}, queue + [next])
  {
  }

  /**
   * One pass of the loop over the moves: if the cell moves[k] away from current
   * is passable and has no parent, it gets current as its parent; the search
   * stops there when it is the goal, and otherwise the cell is appended to the queue.
   */
  method TryMove(ok: Coord -> bool, moves: seq<Coord>, start: Coord, goal: Coord, current: Coord, k: nat,
                 queue: seq<Coord>, parent: map<Coord, Option<Coord>>,
                 ghost U: set<Coord>, ghost m: nat, ghost queue0: seq<Coord>, ghost visited0: set<Coord>,
                 ghost done: set<Coord>, ghost visited: set<Coord>, ghost rec: map<Coord, nat>)
    returns (found: bool, queue': seq<Coord>, parent': map<Coord, Option<Coord>>,
             ghost visited': set<Coord>, ghost rec': map<Coord, nat>)
    requires forall c :: ok(c) ==> c in U
    requires k < |moves|
    requires Expanding(ok, moves, start, goal, U, current, m, queue0, visited0, done, queue, visited, parent, rec)
    requires Tried(ok, moves, current, k, visited)
    ensures found ==> goal in parent' && ParentsOk(ok, moves, start, parent', rec') &&
                      LowerBounds(ok, moves, start, rec')
    ensures !found ==> Expanding(ok, moves, start, goal, U, current, m, queue0, visited0, done, queue', visited', parent', rec')
    ensures !found ==> Tried(ok, moves, current, k + 1, visited')
    ensures var next := Add(current, moves[k]);
            if next !in parent && ok(next)
            then parent' == parent[next := Some(current)] && (found <==> next == goal) &&
                 queue' == (if next == goal then queue else queue + [next])
            else !found && parent' == parent && queue' == queue
  {
    found, queue', parent', visited', rec' := false, queue, parent, visited, rec;
    var next := Add(current, moves[k]);
    if next !in parent && ok(next) {
      assert Diff(next, current) == moves[k];
      Adopt(ok, moves, start, parent, rec, current, next);
      if next == goal {
        DiscoverKeepsSearching(ok, moves, start, goal, U, visited, done, rec, m, next);
        return true, queue, parent[next := Some(current)], visited + {next}, rec[next := m + 1];
      }
      Enqueue(ok, moves, start, goal, U, current, m, queue0, visited0, done, queue, visited, rec, next);
      parent' := parent[next := Some(current)];
      visited' := visited + {next};
      rec' := rec[next := m + 1];
      queue' := queue + [next];
    }
    TriedStep(ok, moves, current, k, visited, visited');
  }

  /**
   * parent' and queue' extend parent and queue by moves from current: the old
   * parents are kept, each new key is a passable neighbour of current with
   * current as its parent, and the queue grows at its end by new keys only.
   */
  ghost predicate Grown(ok: Coord -> bool, moves: seq<Coord>, current: Coord,
                        parent: map<Coord, Option<Coord>>, queue: seq<Coord>,
                        parent': map<Coord, Option<Coord>>, queue': seq<Coord>)
  {
    parent.Keys <= parent'.Keys && (forall v :: v in parent ==> parent'[v] == parent[v]) &&
    (forall v :: v in parent' && v !in parent ==> parent'[v] == Some(current) && ok(v) && Adjacent(moves, current, v)) &&
    |queue'| >= |queue| && queue'[..|queue|] == queue &&
    (forall i :: |queue| <= i < |queue'| ==> queue'[i] in parent' && queue'[i] !in parent)
  }

  /** One pass of TryMove keeps parent and queue grown from their values before the loop. */
  lemma GrowOne(ok: Coord -> bool, moves: seq<Coord>, current: Coord, k: nat,
                parent: map<Coord, Option<Coord>>, queue: seq<Coord>,
                p: map<Coord, Option<Coord>>, q: seq<Coord>, p': map<Coord, Option<Coord>>, q': seq<Coord>)
    requires k < |moves| && Grown(ok, moves, current, parent, queue, p, q)
    requires var next := Add(current, moves[k]);
             if next !in p && ok(next) then p' == p[next := Some(current)] && (q' == q || q' == q + [next])
             else p' == p && q' == q
    ensures Grown(ok, moves, current, parent, queue, p', q')
  {
    var next := Add(current, moves[k]);
    if next !in p && ok(next) {
      assert Diff(next, current) == moves[k];
      assert q'[..|queue|] == q[..|queue|];
    }
  }

  /** The loop over the moves from the popped cell. */
  method TryMoves(ok: Coord -> bool, moves: seq<Coord>, start: Coord, goal: Coord, current: Coord,
                  queue: seq<Coord>, parent: map<Coord, Option<Coord>>,
                  ghost U: set<Coord>, ghost visited: set<Coord>, ghost done: set<Coord>, ghost rec: map<Coord, nat>)
    returns (found: bool, queue': seq<Coord>, parent': map<Coord, Option<Coord>>,
             ghost visited': set<Coord>, ghost rec': map<Coord, nat>)
    requires forall c :: ok(c) ==> c in U
    requires Searching(ok, moves, start, goal, U, visited, done, rec)
    requires ParentsOk(ok, moves, start, parent, rec) && goal !in visited && current in visited
    requires CellQueueOk(rec, visited, queue)
    requires forall v :: v in visited && v !in done ==> v == current || v in queue
    requires forall i :: 0 <= i < |queue| ==> rec[current] <= rec[queue[i]] <= rec[current] + 1
    ensures found ==> goal in parent' && ParentsOk(ok, moves, start, parent', rec') &&
                      LowerBounds(ok, moves, start, rec')
    ensures !found ==> Searching(ok, moves, start, goal, U, visited', done + {current}, rec')
    ensures !found ==> ParentsOk(ok, moves, start, parent', rec') && goal !in visited'
    ensures !found ==> CellQueueOk(rec', visited', queue')
    ensures !found ==> forall v :: v in visited' && v !in done + {current} ==> v in queue'
    ensures !found ==> forall i :: 0 <= i < |queue'| ==> rec'[current] <= rec'[queue'[i]] <= rec'[current] + 1
    ensures !found ==> |queue'| >= |queue| && current in visited' && rec'[current] == rec[current]
    ensures !found ==> |queue'| + |U - visited'| == |queue| + |U - visited|
    ensures found <==> goal in parent'
    ensures Grown(ok, moves, current, parent, queue, parent', queue')
  {
    queue', parent', visited', rec' := queue, parent, visited, rec;
    ghost var m := rec[current];
    for k := 0 to |moves|
      invariant Expanding(ok, moves, start, goal, U, current, m, queue, visited, done, queue', visited', parent', rec')
      invariant Tried(ok, moves, current, k, visited')
      invariant Grown(ok, moves, current, parent, queue, parent', queue')
    {
      ghost var p, q := parent', queue';
      found, queue', parent', visited', rec' := TryMove(ok, moves, start, goal, current, k, queue', parent',
                                                        U, m, queue, visited, done, visited', rec');
      GrowOne(ok, moves, current, k, parent, queue, p, q, parent', queue');
      if found {
        return;
      }
    }
    Expanded(ok, moves, current, done, visited');
    found := false;
  }

  /** Removing the head of the queue leaves the rest within one of the head's bound. */
  lemma PopCell(rec: map<Coord, nat>, visited: set<Coord>, done: set<Coord>, queue: seq<Coord>)
    requires CellQueueOk(rec, visited, queue) && |queue| > 0
    requires forall v :: v in visited && v !in done ==> v in queue
    requires forall i :: 0 <= i < |queue| ==> rec[queue[i]] <= rec[queue[0]] + 1
    ensures CellQueueOk(rec, visited, queue[1..])
    ensures forall v :: v in visited && v !in done ==> v == queue[0] || v in queue[1..]
    ensures forall v :: v in visited && v !in done ==> rec[v] >= rec[queue[0]]
    ensures forall i :: 0 <= i < |queue| - 1 ==> rec[queue[0]] <= rec[queue[1..][i]] <= rec[queue[0]] + 1
  {
    forall v | v in visited && v !in done && v != queue[0]
      ensures v in queue[1..]
    {
      var i :| 0 <= i < |queue| && queue[i] == v;
      assert queue[1..][i - 1] == v;
    }
  }

  /**
   * The search proper (bfs_shortest_path without its start == goal shortcut):
   * Some(path) is a fewest-cell walk, None means the goal is unreachable.
   */
  method SearchParents(ok: Coord -> bool, moves: seq<Coord>, arena: set<Coord>, start: Coord, goal: Coord)
    returns (r: Option<seq<Coord>>)
    requires forall c :: ok(c) ==> c in arena
    requires start != goal
    ensures r.Some? ==> WalkFrom(ok, moves, r.value, start, goal) && Distinct(r.value)
    ensures r.Some? ==> Fewest(ok, moves, r.value, start, goal)
    ensures r.None? ==> Unreachable(ok, moves, start, goal)
  {
    var queue: seq<Coord> := [start];
    var parent: map<Coord, Option<Coord>> := map[start := None];
    ghost var visited: set<Coord> := {start};
    ghost var done: set<Coord> := {};
    ghost var rec: map<Coord, nat> := map[start := 1];
    ghost var U := arena + {start};
    while queue != []
      invariant Searching(ok, moves, start, goal, U, visited, done, rec)
      invariant ParentsOk(ok, moves, start, parent, rec) && goal !in visited
      invariant CellQueueOk(rec, visited, queue)
      invariant forall v :: v in visited && v !in done ==> v in queue
      invariant forall i :: 0 <= i < |queue| ==> rec[queue[i]] <= rec[queue[0]] + 1
      decreases |U - visited|, |queue|
    {
      var current := queue[0];
      PopCell(rec, visited, done, queue);
      queue := queue[1..];
      var found;
      found, queue, parent, visited, rec := TryMoves(ok, moves, start, goal, current, queue, parent, U, visited, done, rec);
      if found {
        var path := ReconstructPath(parent, goal, rec);
        ChainIsWalk(ok, moves, start, parent, rec, path);
        return Some(path);
      }
      done := done + {current};
    }
    Exhausted(ok, moves, start, goal, visited, done);
    return None;
  }

  /** Passable cells of the bounded plane: inside the arena and not an obstacle. */
  function OpenCell(obstacles: set<Coord>, arena: set<Coord>): Coord -> bool {
    c => c in arena && c !in obstacles
  }

  /**
   * bfs_shortest_path over the arena: [start] at once when start == goal,
   * otherwise a fewest-step four-directional path avoiding the obstacles, or
   * None where the source raises its "no path" error.
   */
  method BfsShortestPath(obstacles: set<Coord>, arena: set<Coord>, start: Coord, goal: Coord)
    returns (r: Option<seq<Coord>>)
    ensures start == goal ==> r == Some([start])
    ensures r.Some? ==> WalkFrom(OpenCell(obstacles, arena), Moves4, r.value, start, goal) && Distinct(r.value)
    ensures r.Some? ==> forall i :: 1 <= i < |r.value| ==> r.value[i] !in obstacles
    ensures r.Some? ==> Fewest(OpenCell(obstacles, arena), Moves4, r.value, start, goal)
    ensures r.None? ==> Unreachable(OpenCell(obstacles, arena), Moves4, start, goal)
  {
    if start == goal {
      return Some([start]);
    }
    r := SearchParents(OpenCell(obstacles, arena), Moves4, arena, start, goal);
  }
}
