/**
 * The breadth-first search shared by every grid variant: a FIFO queue of
 * (cell, path so far) pairs seeded with (start, [start]), a visited set seeded
 * with start, the goal checked when an entry is popped, and neighbours tried in
 * the order of the move list. The variants differ only in the moves and in
 * `ok`, which combines their bounds check and their blocking codes.
 */
module Bfs {
  import opened Coords
  import opened Walks

  /** A queue entry holds a walk from start to its cell with rec[cell] cells, made of visited cells. */
  ghost predicate EntryOk(ok: Coord -> bool, moves: seq<Coord>, start: Coord,
                          visited: set<Coord>, rec: map<Coord, nat>, e: (Coord, seq<Coord>))
  {
    e.0 in rec &&
    WalkFrom(ok, moves, e.1, start, e.0) && |e.1| == rec[e.0] &&
    Distinct(e.1) && (forall j :: 0 <= j < |e.1| ==> e.1[j] in visited)
  }

  /** Path lengths never decrease along the queue. */
  ghost predicate Sorted(queue: seq<(Coord, seq<Coord>)>) {
    forall i, j :: 0 <= i <= j < |queue| ==> |queue[i].1| <= |queue[j].1|
  }

  /** The first k moves from c lead to visited cells or to cells that do not pass `ok`. */
  ghost predicate Tried(ok: Coord -> bool, moves: seq<Coord>, c: Coord, k: int, visited: set<Coord>) {
    forall i :: 0 <= i < k && i < |moves| && ok(Add(c, moves[i])) ==> Add(c, moves[i]) in visited
  }

  lemma TriedStep(ok: Coord -> bool, moves: seq<Coord>, c: Coord, k: nat, visited: set<Coord>, visited': set<Coord>)
    requires Tried(ok, moves, c, k, visited) && visited <= visited' && k < |moves|
    requires ok(Add(c, moves[k])) ==> Add(c, moves[k]) in visited'
    ensures Tried(ok, moves, c, k + 1, visited')
  {
  }

  /** Growing the visited set and the bounds map keeps an entry valid. */
  lemma EntryGrows(ok: Coord -> bool, moves: seq<Coord>, start: Coord,
                   visited: set<Coord>, rec: map<Coord, nat>, e: (Coord, seq<Coord>), w: Coord, n: nat)
    requires EntryOk(ok, moves, start, visited, rec, e) && e.0 in visited
    requires w !in visited
    ensures EntryOk(ok, moves, start, visited + {w}, rec[w := n], e)
  {
  }

  /** The entry for a newly discovered cell w: the current path extended by w. */
  lemma EntryExtend(ok: Coord -> bool, moves: seq<Coord>, start: Coord,
                    visited: set<Coord>, rec: map<Coord, nat>, c: Coord, path: seq<Coord>, w: Coord)
    requires EntryOk(ok, moves, start, visited, rec, (c, path))
    requires w !in visited && ok(w) && Adjacent(moves, c, w)
    ensures EntryOk(ok, moves, start, visited + {w}, rec[w := |path| + 1], (w, path + [w]))
  {
    WalkExtend(ok, moves, path, w);
  }

  /** What holds between two pops: bounds are sound and the expanded cells are closed. */
  ghost predicate Searching(ok: Coord -> bool, moves: seq<Coord>, start: Coord, goal: Coord, U: set<Coord>,
                            visited: set<Coord>, done: set<Coord>, rec: map<Coord, nat>)
  {
    visited <= U && start in visited && rec.Keys == visited && rec[start] == 1 &&
    done <= visited && goal !in done &&
    Closed(ok, moves, done, visited) && LowerBounds(ok, moves, start, rec)
  }

  /** Every queue entry is valid, `nodes` lists the queue's cells, and lengths are sorted. */
  ghost predicate QueueOk(ok: Coord -> bool, moves: seq<Coord>, start: Coord, visited: set<Coord>,
                          rec: map<Coord, nat>, queue: seq<(Coord, seq<Coord>)>, nodes: seq<Coord>)
  {
    |nodes| == |queue| && (forall i :: 0 <= i < |queue| ==> nodes[i] == queue[i].0) &&
    (forall i :: 0 <= i < |queue| ==> EntryOk(ok, moves, start, visited, rec, queue[i])) &&
    Sorted(queue)
  }

  /** The state inside the loop over the moves from `current`, whose path has m cells. */
  ghost predicate Expanding(ok: Coord -> bool, moves: seq<Coord>, start: Coord, goal: Coord, U: set<Coord>,
                            current: Coord, path: seq<Coord>, queue0: seq<(Coord, seq<Coord>)>, visited0: set<Coord>,
                            done: set<Coord>, queue: seq<(Coord, seq<Coord>)>, visited: set<Coord>,
                            nodes: seq<Coord>, rec: map<Coord, nat>)
  {
    Searching(ok, moves, start, goal, U, visited, done, rec) &&
    visited0 <= visited && current in visited &&
    EntryOk(ok, moves, start, visited, rec, (current, path)) &&
    QueueOk(ok, moves, start, visited, rec, queue, nodes) &&
    (forall v :: v in visited && v !in done ==> v == current || v in nodes) &&
    (forall v :: v in visited && v !in done ==> rec[v] >= |path|) &&
    (forall i :: 0 <= i < |queue| ==> |path| <= |queue[i].1| <= |path| + 1) &&
    |queue| + |U - visited| == |queue0| + |U - visited0| && |queue| >= |queue0|
  }

  /** Marking a passable, unvisited neighbour visited and enqueueing it keeps the loop state. */
  lemma Enqueue(ok: Coord -> bool, moves: seq<Coord>, start: Coord, goal: Coord, U: set<Coord>,
                current: Coord, path: seq<Coord>, queue0: seq<(Coord, seq<Coord>)>, visited0: set<Coord>,
                done: set<Coord>, queue: seq<(Coord, seq<Coord>)>, visited: set<Coord>,
                nodes: seq<Coord>, rec: map<Coord, nat>, next: Coord)
    requires forall c :: ok(c) ==> c in U
    requires Expanding(ok, moves, start, goal, U, current, path, queue0, visited0, done, queue, visited, nodes, rec)
    requires next !in visited && ok(next) && Adjacent(moves, current, next)
    ensures Expanding(ok, moves, start, goal, U, current, path, queue0, visited0, done,
                      queue + [(next, path + [next])], visited + {next}, nodes + [next], rec[next := |path| + 1])
  {
    var m := |path|;
    DiscoverKeepsSearching(ok, moves, start, goal, U, visited, done, rec, m, next);
    EnqueueKeepsQueue(ok, moves, start, current, path, visited, rec, queue, nodes, next);
    assert (U - visited) == (U - (visited + {next})) + {next};
  }

  lemma DiscoverKeepsSearching(ok: Coord -> bool, moves: seq<Coord>, start: Coord, goal: Coord, U: set<Coord>,
                               visited: set<Coord>, done: set<Coord>, rec: map<Coord, nat>, m: nat, next: Coord)
    requires forall c :: ok(c) ==> c in U
    requires Searching(ok, moves, start, goal, U, visited, done, rec)
    requires forall v :: v in visited && v !in done ==> rec[v] >= m
    requires next !in visited && ok(next)
    ensures Searching(ok, moves, start, goal, U, visited + {next}, done, rec[next := m + 1])
  {
    Discover(ok, moves, start, visited, done, rec, m, next);
  }

  lemma EnqueueKeepsQueue(ok: Coord -> bool, moves: seq<Coord>, start: Coord, current: Coord, path: seq<Coord>,
                          visited: set<Coord>, rec: map<Coord, nat>, queue: seq<(Coord, seq<Coord>)>,
                          nodes: seq<Coord>, next: Coord)
    requires QueueOk(ok, moves, start, visited, rec, queue, nodes)
    requires current in visited && EntryOk(ok, moves, start, visited, rec, (current, path))
    requires forall i :: 0 <= i < |queue| ==> |queue[i].1| <= |path| + 1
    requires next !in visited && ok(next) && Adjacent(moves, current, next)
    ensures QueueOk(ok, moves, start, visited + {next}, rec[next := |path| + 1],
                    queue + [(next, path + [next])], nodes + [next])
    ensures EntryOk(ok, moves, start, visited + {next}, rec[next := |path| + 1], (current, path))
  {
    var m := |path|;
    EntryExtend(ok, moves, start, visited, rec, current, path, next);
    QueueGrows(ok, moves, start, visited, rec, queue, nodes, next, m + 1);
    EntryGrows(ok, moves, start, visited, rec, (current, path), next, m + 1);
    SortedAppend(queue, (next, path + [next]));
  }

  lemma SortedAppend(queue: seq<(Coord, seq<Coord>)>, e: (Coord, seq<Coord>))
    requires Sorted(queue) && forall i :: 0 <= i < |queue| ==> |queue[i].1| <= |e.1|
    ensures Sorted(queue + [e])
  {
  }

  /** Appending an entry at least as long as every queued one keeps the queue valid. */
  lemma QueueGrows(ok: Coord -> bool, moves: seq<Coord>, start: Coord, visited: set<Coord>, rec: map<Coord, nat>,
                   queue: seq<(Coord, seq<Coord>)>, nodes: seq<Coord>, w: Coord, n: nat)
    requires QueueOk(ok, moves, start, visited, rec, queue, nodes) && w !in visited
    requires forall i :: 0 <= i < |queue| ==> queue[i].0 in visited
    ensures forall i :: 0 <= i < |queue| ==> EntryOk(ok, moves, start, visited + {w}, rec[w := n], queue[i])
  {
    forall i | 0 <= i < |queue|
      ensures EntryOk(ok, moves, start, visited + {w}, rec[w := n], queue[i])
    {
      EntryGrows(ok, moves, start, visited, rec, queue[i], w, n);
    }
  }

  /**
   * What trying moves[..k] from cell c, reached by path, adds: the entries
   * appended to the queue, in move order, and the visited set afterwards.
   * Each entry is a passable neighbour of c not visited before, paired with
   * path extended by it; no cell is entered twice; every passable neighbour
   * among the first k moves ends up visited.
   */
  function Newcomers(ok: Coord -> bool, moves: seq<Coord>, c: Coord, path: seq<Coord>, visited: set<Coord>, k: nat)
    : (r: (seq<(Coord, seq<Coord>)>, set<Coord>))
    requires k <= |moves|
    ensures visited <= r.1
    ensures forall i :: 0 <= i < |r.0| ==>
              r.0[i].1 == path + [r.0[i].0] && ok(r.0[i].0) && Adjacent(moves, c, r.0[i].0) &&
              r.0[i].0 !in visited && r.0[i].0 in r.1
    ensures forall i, j :: 0 <= i < j < |r.0| ==> r.0[i].0 != r.0[j].0
    ensures forall v :: v in r.1 && v !in visited ==> exists i :: 0 <= i < |r.0| && r.0[i].0 == v
    ensures forall i :: 0 <= i < k && ok(Add(c, moves[i])) ==> Add(c, moves[i]) in r.1
  {
    if k == 0 then ([], visited)
    else
      var before := Newcomers(ok, moves, c, path, visited, k - 1);
      var next := Add(c, moves[k - 1]);
      assert Diff(next, c) == moves[k - 1];
      if next !in before.1 && ok(next) then
        var entries := before.0 + [(next, path + [next])];
        assert entries[|before.0|].0 == next;
        assert forall i :: 0 <= i < |before.0| ==> entries[i] == before.0[i];
        (entries, before.1 + {next})
      else before
  }

  /** One more move tried extends the newcomers as one pass of the inner loop extends the queue. */
  lemma NewcomersNext(ok: Coord -> bool, moves: seq<Coord>, c: Coord, path: seq<Coord>, visited: set<Coord>, k: nat,
                      queue: seq<(Coord, seq<Coord>)>, q: seq<(Coord, seq<Coord>)>, v: set<Coord>,
                      q': seq<(Coord, seq<Coord>)>, v': set<Coord>)
    requires k < |moves|
    requires q == queue + Newcomers(ok, moves, c, path, visited, k).0 && v == Newcomers(ok, moves, c, path, visited, k).1
    requires var next := Add(c, moves[k]);
             if next !in v && ok(next) then q' == q + [(next, path + [next])] && v' == v + {next}
             else q' == q && v' == v
    ensures q' == queue + Newcomers(ok, moves, c, path, visited, k + 1).0
    ensures v' == Newcomers(ok, moves, c, path, visited, k + 1).1
  {
    var next := Add(c, moves[k]);
    if next !in v && ok(next) {
      assert q' == queue + (Newcomers(ok, moves, c, path, visited, k).0 + [(next, path + [next])]);
    }
  }

  /**
   * One pass of the inner loop: the cell moves[k] away from current, when
   * passable and not yet visited, is marked visited and enqueued with the path
   * extended by it.
   */
  method TryMove(ok: Coord -> bool, moves: seq<Coord>, start: Coord, goal: Coord, current: Coord, path: seq<Coord>,
                 k: nat, queue0: seq<(Coord, seq<Coord>)>, visited0: set<Coord>,
                 queue: seq<(Coord, seq<Coord>)>, visited: set<Coord>,
                 ghost U: set<Coord>, ghost nodes: seq<Coord>, ghost done: set<Coord>, ghost rec: map<Coord, nat>)
    returns (queue': seq<(Coord, seq<Coord>)>, visited': set<Coord>, ghost nodes': seq<Coord>, ghost rec': map<Coord, nat>)
    requires forall c :: ok(c) ==> c in U
    requires k < |moves|
    requires Expanding(ok, moves, start, goal, U, current, path, queue0, visited0, done, queue, visited, nodes, rec)
    requires Tried(ok, moves, current, k, visited)
    ensures Expanding(ok, moves, start, goal, U, current, path, queue0, visited0, done, queue', visited', nodes', rec')
    ensures Tried(ok, moves, current, k + 1, visited')
    ensures var next := Add(current, moves[k]);
            if next !in visited && ok(next)
            then queue' == queue + [(next, path + [next])] && visited' == visited + {next}
            else queue' == queue && visited' == visited
  {
    queue', visited', nodes', rec' := queue, visited, nodes, rec;
    var next := Add(current, moves[k]);
    if next !in visited && ok(next) {
      assert Diff(next, current) == moves[k];
      Enqueue(ok, moves, start, goal, U, current, path, queue0, visited0, done, queue, visited, nodes, rec, next);
      visited' := visited + {next};
      rec' := rec[next := |path| + 1];
      queue' := queue + [(next, path + [next])];
      nodes' := nodes + [next];
    }
    TriedStep(ok, moves, current, k, visited, visited');
  }

  /**
   * The inner loop over the moves: every passable, unvisited neighbour of the
   * popped cell is marked visited and enqueued with the path extended by it,
   * in move order, behind the entries already queued.
   */
  method TryMoves(ok: Coord -> bool, moves: seq<Coord>, start: Coord, goal: Coord, current: Coord, path: seq<Coord>,
                  queue: seq<(Coord, seq<Coord>)>, visited: set<Coord>,
                  ghost U: set<Coord>, ghost nodes: seq<Coord>, ghost done: set<Coord>, ghost rec: map<Coord, nat>)
    returns (queue': seq<(Coord, seq<Coord>)>, visited': set<Coord>, ghost nodes': seq<Coord>, ghost rec': map<Coord, nat>)
    requires forall c :: ok(c) ==> c in U
    requires Searching(ok, moves, start, goal, U, visited, done, rec)
    requires current != goal && EntryOk(ok, moves, start, visited, rec, (current, path))
    requires QueueOk(ok, moves, start, visited, rec, queue, nodes)
    requires forall v :: v in visited && v !in done ==> v == current || v in nodes
    requires forall i :: 0 <= i < |queue| ==> |path| <= |queue[i].1| <= |path| + 1
    ensures Searching(ok, moves, start, goal, U, visited', done + {current}, rec')
    ensures QueueOk(ok, moves, start, visited', rec', queue', nodes')
    ensures forall v :: v in visited' && v !in done + {current} ==> v in nodes'
    ensures forall i :: 0 <= i < |queue'| ==> |path| <= |queue'[i].1| <= |path| + 1
    ensures visited <= visited' && |queue'| >= |queue|
    ensures |queue'| + |U - visited'| == |queue| + |U - visited|
    ensures queue' == queue + Newcomers(ok, moves, current, path, visited, |moves|).0
    ensures visited' == Newcomers(ok, moves, current, path, visited, |moves|).1
  {
    queue', visited', nodes', rec' := queue, visited, nodes, rec;
    assert Expanding(ok, moves, start, goal, U, current, path, queue, visited, done, queue', visited', nodes', rec');
    for k := 0 to |moves|
      invariant Expanding(ok, moves, start, goal, U, current, path, queue, visited, done, queue', visited', nodes', rec')
      invariant Tried(ok, moves, current, k, visited')
      invariant queue' == queue + Newcomers(ok, moves, current, path, visited, k).0
      invariant visited' == Newcomers(ok, moves, current, path, visited, k).1
    {
      ghost var q, v := queue', visited';
      queue', visited', nodes', rec' := TryMove(ok, moves, start, goal, current, path, k, queue, visited,
                                                queue', visited', U, nodes', done, rec');
      NewcomersNext(ok, moves, current, path, visited, k, queue, q, v, queue', visited');
    }
    Expanded(ok, moves, current, done, visited');
  }

  /**
   * Removing the head entry: its path is a fewest-cell walk to its cell, and the
   * rest is a valid queue whose lengths lie within one of the head's.
   */
  lemma Pop(ok: Coord -> bool, moves: seq<Coord>, start: Coord, visited: set<Coord>, done: set<Coord>,
            rec: map<Coord, nat>, queue: seq<(Coord, seq<Coord>)>, nodes: seq<Coord>)
    requires QueueOk(ok, moves, start, visited, rec, queue, nodes) && |queue| > 0
    requires forall v :: v in visited && v !in done ==> v in nodes
    requires forall i :: 0 <= i < |queue| ==> |queue[i].1| <= |queue[0].1| + 1
    requires LowerBounds(ok, moves, start, rec)
    ensures EntryOk(ok, moves, start, visited, rec, queue[0])
    ensures Fewest(ok, moves, queue[0].1, start, queue[0].0)
    ensures QueueOk(ok, moves, start, visited, rec, queue[1..], nodes[1..])
    ensures forall v :: v in visited && v !in done ==> v == queue[0].0 || v in nodes[1..]
    ensures forall i :: 0 <= i < |queue| - 1 ==> |queue[0].1| <= |queue[1..][i].1| <= |queue[0].1| + 1
  {
    forall v | v in visited && v !in done && v != queue[0].0
      ensures v in nodes[1..]
    {
      var i :| 0 <= i < |nodes| && nodes[i] == v;
      assert nodes[1..][i - 1] == v;
    }
  }

  /** Once every visited cell is expanded and the goal is not among them, no walk reaches the goal. */
  lemma Exhausted(ok: Coord -> bool, moves: seq<Coord>, start: Coord, goal: Coord, visited: set<Coord>, done: set<Coord>)
    requires start in visited && visited <= done && goal !in done && Closed(ok, moves, done, visited)
    ensures Unreachable(ok, moves, start, goal)
  {
    forall q | Walk(ok, moves, q) && q[0] == start
      ensures Last(q) != goal
    {
      StaysInside(ok, moves, visited, q);
    }
  }

  method SearchPaths(ok: Coord -> bool, moves: seq<Coord>, arena: set<Coord>, start: Coord, goal: Coord)
    returns (r: Option<seq<Coord>>)
    requires forall c :: ok(c) ==> c in arena
    ensures r.Some? ==> WalkFrom(ok, moves, r.value, start, goal) && Distinct(r.value)
    ensures r.Some? ==> Fewest(ok, moves, r.value, start, goal)
    ensures r.None? ==> Unreachable(ok, moves, start, goal)
    ensures start == goal ==> r == Some([start])
  {
    var queue: seq<(Coord, seq<Coord>)> := [(start, [start])];
    var visited: set<Coord> := {start};
    ghost var nodes: seq<Coord> := [start];
    ghost var done: set<Coord> := {};
    ghost var rec: map<Coord, nat> := map[start := 1];
    ghost var U := arena + {start};
    while queue != []
      invariant Searching(ok, moves, start, goal, U, visited, done, rec)
      invariant QueueOk(ok, moves, start, visited, rec, queue, nodes)
      invariant forall v :: v in visited && v !in done ==> v in nodes
      invariant forall i :: 0 <= i < |queue| ==> |queue[i].1| <= |queue[0].1| + 1
      decreases |U - visited|, |queue|
    {
      var current, path := queue[0].0, queue[0].1;
      Pop(ok, moves, start, visited, done, rec, queue, nodes);
      queue := queue[1..];
      nodes := nodes[1..];
      if current == goal {
        assert start == goal ==> path == [start];
        return Some(path);
      }
      queue, visited, nodes, rec := TryMoves(ok, moves, start, goal, current, path, queue, visited, U, nodes, done, rec);
      done := done + {current};
    }
    Exhausted(ok, moves, start, goal, visited, done);
    return None;
  }
}
