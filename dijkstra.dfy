/**
 * Dijkstra's search over the eight-directional grid graph, with the step costs
 * scaled to integers: 10 for an orthogonal step and 14 for a diagonal one
 * (1.0 and 1.4 tenfold). A distance map, a predecessor map, a priority queue of
 * (distance, cell) entries popped smallest first, and a set of finished cells;
 * an entry for a finished cell is skipped, the goal is checked when its cell is
 * finished, and the path is rebuilt through the predecessors.
 */
module Dijkstra {
  import opened Coords
  import opened Walks

  function Abs(n: int): nat {
    if n < 0 then -n else n
  }

  /** The scaled cost of the step from a to b: 14 when |dx| + |dy| == 2, else 10. */
  function StepCost(a: Coord, b: Coord): nat {
    if Abs(b.x - a.x) + Abs(b.y - a.y) == 2 then 14 else 10
  }

  /** The summed step costs of a walk. */
  function Cost(p: seq<Coord>): nat {
    if |p| <= 1 then 0 else Cost(p[..|p| - 1]) + StepCost(p[|p| - 2], p[|p| - 1])
  }

  /** Of the eight moves, the four diagonal ones cost 14 and the four orthogonal ones 10. */
  lemma StepCosts(c: Coord, k: nat)
    requires k < |Moves8|
    ensures StepCost(c, Add(c, Moves8[k])) == (if k in {0, 2, 5, 7} then 14 else 10)
  {
  }

  /** A walk of n steps costs between 10n and 14n. */
  lemma {:induction false} CostBounds(p: seq<Coord>)
    requires |p| >= 1
    ensures 10 * (|p| - 1) <= Cost(p) <= 14 * (|p| - 1)
  {
    if |p| > 1 {
      CostBounds(p[..|p| - 1]);
    }
  }

  /** No walk from start to goal costs less than p. */
  ghost predicate Cheapest(ok: Coord -> bool, p: seq<Coord>, start: Coord, goal: Coord) {
    forall q {:trigger WalkFrom(ok, Moves8, q, start, goal)} :: WalkFrom(ok, Moves8, q, start, goal) ==> Cost(p) <= Cost(q)
  }

  /** A priority-queue entry: (distance, cell). */
  type Entry = (nat, Coord)

  /** Python's tuple order on entries: by distance, then x, then y. */
  predicate Before(e: Entry, f: Entry) {
    e.0 < f.0 || (e.0 == f.0 && (e.1.x < f.1.x || (e.1.x == f.1.x && e.1.y <= f.1.y)))
  }

  lemma BeforeTotal(e: Entry, f: Entry)
    ensures Before(e, f) || Before(f, e)
  {
  }

  lemma BeforeTransitive(e: Entry, f: Entry, g: Entry)
    requires Before(e, f) && Before(f, g)
    ensures Before(e, g)
  {
  }

  /** Every non-empty finite set of entries has a least one. */
  lemma {:induction false} LeastEntry(s: set<Entry>)
    requires s != {}
    ensures exists e :: e in s && forall f :: f in s ==> Before(e, f)
    decreases |s|
  {
    var e :| e in s;
    var rest := s - {e};
    if rest == {} {
      assert s == {e};
      assert Before(e, e);
    } else {
      LeastEntry(rest);
      var m :| m in rest && forall f :: f in rest ==> Before(m, f);
      BeforeTotal(e, m);
      var least := if Before(e, m) then e else m;
      forall f | f in s
        ensures Before(least, f)
      {
        if f == e {
          assert Before(e, e);
        } else {
          assert f in rest;
          if least == e {
            BeforeTransitive(e, m, f);
          }
        }
      }
      assert least in s;
    }
  }

  /** heappop's choice: the least entry in tuple order. */
  method PopLeast(pq: set<Entry>) returns (e: Entry)
    requires pq != {}
    ensures e in pq && forall f :: f in pq ==> Before(e, f)
    ensures forall f :: f in pq ==> e.0 <= f.0
  {
    LeastEntry(pq);
    e :| e in pq && forall f :: f in pq ==> Before(e, f);
  }

  /**
   * The predecessor map is a tree of finished cells rooted at start: start has
   * distance 0 and no predecessor, every other recorded cell has one, and its
   * distance is its predecessor's plus the step cost.
   */
  ghost predicate Tree(ok: Coord -> bool, start: Coord, visited: set<Coord>,
                       dist: map<Coord, nat>, prev: map<Coord, Coord>)
  {
    start in dist && dist[start] == 0 && start !in prev &&
    dist.Keys == prev.Keys + {start} && visited <= dist.Keys &&
    forall v {:trigger prev[v]} :: v in prev ==>
      prev[v] in visited && prev[v] in dist && ok(v) && Adjacent(Moves8, prev[v], v) &&
      dist[v] == dist[prev[v]] + StepCost(prev[v], v)
  }

  /** The distance of every finished cell is at most the cost of any walk to it. */
  ghost predicate Settled(ok: Coord -> bool, start: Coord, visited: set<Coord>, dist: map<Coord, nat>) {
    visited <= dist.Keys &&
    forall v, q {:trigger WalkFrom(ok, Moves8, q, start, v)} ::
      v in visited && WalkFrom(ok, Moves8, q, start, v) ==> dist[v] <= Cost(q)
  }

  /** Every unfinished passable neighbour of a finished cell has been relaxed through it. */
  ghost predicate Relaxed(ok: Coord -> bool, visited: set<Coord>, dist: map<Coord, nat>) {
    forall u, w {:trigger Adjacent(Moves8, u, w)} ::
      u in visited && ok(w) && Adjacent(Moves8, u, w) && w !in visited ==>
        u in dist && w in dist && dist[w] <= dist[u] + StepCost(u, w)
  }

  /** Every unfinished recorded cell is queued at its distance; no entry undercuts its cell's distance. */
  ghost predicate Queued(visited: set<Coord>, dist: map<Coord, nat>, pq: set<Entry>) {
    (forall v :: v in dist && v !in visited ==> (dist[v], v) in pq) &&
    (forall e :: e in pq ==> e.1 in dist && e.0 >= dist[e.1])
  }

  /** The state at the head of the main loop. */
  ghost predicate Searching(ok: Coord -> bool, start: Coord, goal: Coord, U: set<Coord>, visited: set<Coord>,
                            dist: map<Coord, nat>, prev: map<Coord, Coord>, pq: set<Entry>)
  {
    dist.Keys <= U && Tree(ok, start, visited, dist, prev) && Settled(ok, start, visited, dist) &&
    Relaxed(ok, visited, dist) && Queued(visited, dist, pq) &&
    (visited == {} || start in visited) && goal !in visited
  }

  /**
   * The first-exit argument: a walk from start that ends outside the finished
   * set leaves it through a relaxed neighbour, whose queued distance is at least
   * the smallest key m; so the walk costs at least m.
   */
  lemma {:induction false} CostLeave(ok: Coord -> bool, start: Coord, visited: set<Coord>,
                                     dist: map<Coord, nat>, pq: set<Entry>, m: nat, q: seq<Coord>)
    requires Settled(ok, start, visited, dist) && Relaxed(ok, visited, dist) && Queued(visited, dist, pq)
    requires forall f :: f in pq ==> m <= f.0
    requires start in visited
    requires Walk(ok, Moves8, q) && q[0] == start && Last(q) !in visited
    ensures m <= Cost(q)
    decreases |q|
  {
    var n := |q|;
    var p := q[..n - 1];
    WalkPrefix(ok, Moves8, q, n - 1);
    var u, w := q[n - 2], q[n - 1];
    assert Last(p) == u && p[|p| - 1] == u;
    assert ok(w) && Adjacent(Moves8, u, w);
    if u in visited {
      assert WalkFrom(ok, Moves8, p, start, u);
      assert (dist[w], w) in pq;
    } else {
      CostLeave(ok, start, visited, dist, pq, m, p);
    }
  }

  /**
   * Popping the least entry (k, v) of an unfinished cell: k is v's distance,
   * and no walk to v is cheaper, so v may be finished.
   */
  lemma Settle(ok: Coord -> bool, start: Coord, goal: Coord, U: set<Coord>, visited: set<Coord>,
               dist: map<Coord, nat>, prev: map<Coord, Coord>, pq: set<Entry>, k: nat, v: Coord)
    requires Searching(ok, start, goal, U, visited, dist, prev, pq)
    requires (k, v) in pq && (forall f :: f in pq ==> k <= f.0) && v !in visited
    ensures v in dist && k == dist[v]
    ensures visited == {} ==> v == start
    ensures Settled(ok, start, visited + {v}, dist)
  {
    assert (dist[v], v) in pq;
    forall u, q | u in visited + {v} && WalkFrom(ok, Moves8, q, start, u)
      ensures dist[u] <= Cost(q)
    {
      if u == v && v !in visited {
        if visited != {} {
          CostLeave(ok, start, visited, dist, pq, k, q);
        }
      }
    }
  }

  /** The state inside the loop over the moves from the newly finished cell cur, at distance d. */
  ghost predicate Relaxing(ok: Coord -> bool, start: Coord, goal: Coord, U: set<Coord>, visited: set<Coord>,
                           dist: map<Coord, nat>, prev: map<Coord, Coord>, pq: set<Entry>, cur: Coord, d: nat)
  {
    dist.Keys <= U && Tree(ok, start, visited, dist, prev) && Settled(ok, start, visited, dist) &&
    Queued(visited, dist, pq) && start in visited && goal !in visited &&
    cur in visited && cur in dist && dist[cur] == d && RelaxedBut(ok, visited, dist, cur)
  }

  /** Relaxed, except for the moves from cur. */
  ghost predicate RelaxedBut(ok: Coord -> bool, visited: set<Coord>, dist: map<Coord, nat>, cur: Coord) {
    forall u, w {:trigger Adjacent(Moves8, u, w)} ::
      u in visited && u != cur && ok(w) && Adjacent(Moves8, u, w) && w !in visited ==>
        u in dist && w in dist && dist[w] <= dist[u] + StepCost(u, w)
  }

  /** The first k moves from cur lead to finished or impassable cells, or to cells relaxed through cur. */
  ghost predicate TriedFrom(ok: Coord -> bool, visited: set<Coord>, dist: map<Coord, nat>, cur: Coord, d: nat, k: nat) {
    forall i :: 0 <= i < k && i < |Moves8| && ok(Add(cur, Moves8[i])) && Add(cur, Moves8[i]) !in visited ==>
      Add(cur, Moves8[i]) in dist && dist[Add(cur, Moves8[i])] <= d + StepCost(cur, Add(cur, Moves8[i]))
  }

  /** Finishing the popped cell cur starts the loop over its moves. */
  lemma StartRelaxing(ok: Coord -> bool, start: Coord, goal: Coord, U: set<Coord>, visited: set<Coord>,
                      dist: map<Coord, nat>, prev: map<Coord, Coord>, pq: set<Entry>, d: nat, cur: Coord)
    requires Searching(ok, start, goal, U, visited, dist, prev, pq)
    requires cur !in visited && cur != goal && cur in dist && dist[cur] == d
    requires visited == {} ==> cur == start
    requires Settled(ok, start, visited + {cur}, dist)
    ensures Relaxing(ok, start, goal, U, visited + {cur}, dist, prev, pq - {(d, cur)}, cur, d)
  {
    var pq' := pq - {(d, cur)};
    forall v | v in dist && v !in visited + {cur}
      ensures (dist[v], v) in pq'
    {
      assert (dist[v], v) in pq;
    }
  }

  /** A strictly shorter distance for next, reached from cur. */
  lemma Improve(ok: Coord -> bool, start: Coord, goal: Coord, U: set<Coord>, visited: set<Coord>,
                dist: map<Coord, nat>, prev: map<Coord, Coord>, pq: set<Entry>, cur: Coord, d: nat, next: Coord)
    requires Relaxing(ok, start, goal, U, visited, dist, prev, pq, cur, d)
    requires ok(next) && next in U && next !in visited && Adjacent(Moves8, cur, next)
    requires next !in dist || d + StepCost(cur, next) < dist[next]
    ensures Relaxing(ok, start, goal, U, visited, dist[next := d + StepCost(cur, next)], prev[next := cur],
                     pq + {(d + StepCost(cur, next), next)}, cur, d)
  {
    var nd := d + StepCost(cur, next);
    TreeImprove(ok, start, visited, dist, prev, cur, next, nd);
    SettledImprove(ok, start, visited, dist, next, nd);
    QueuedImprove(visited, dist, pq, next, nd);
    RelaxedButImprove(ok, visited, dist, cur, next, nd);
  }

  lemma TreeImprove(ok: Coord -> bool, start: Coord, visited: set<Coord>, dist: map<Coord, nat>,
                    prev: map<Coord, Coord>, cur: Coord, next: Coord, nd: nat)
    requires Tree(ok, start, visited, dist, prev) && start in visited && cur in visited
    requires ok(next) && next !in visited && Adjacent(Moves8, cur, next) && nd == dist[cur] + StepCost(cur, next)
    ensures Tree(ok, start, visited, dist[next := nd], prev[next := cur])
  {
    var dist', prev' := dist[next := nd], prev[next := cur];
    assert dist'.Keys == prev'.Keys + {start};
    forall v | v in prev'
      ensures prev'[v] in visited && prev'[v] in dist' && ok(v) && Adjacent(Moves8, prev'[v], v) &&
              dist'[v] == dist'[prev'[v]] + StepCost(prev'[v], v)
    {
      if v != next {
        assert prev[v] in visited;
      }
    }
  }

  lemma SettledImprove(ok: Coord -> bool, start: Coord, visited: set<Coord>, dist: map<Coord, nat>, next: Coord, nd: nat)
    requires Settled(ok, start, visited, dist) && next !in visited
    ensures Settled(ok, start, visited, dist[next := nd])
  {
  }

  lemma QueuedImprove(visited: set<Coord>, dist: map<Coord, nat>, pq: set<Entry>, next: Coord, nd: nat)
    requires Queued(visited, dist, pq) && next !in visited && (next in dist ==> nd < dist[next])
    ensures Queued(visited, dist[next := nd], pq + {(nd, next)})
  {
  }

  lemma RelaxedButImprove(ok: Coord -> bool, visited: set<Coord>, dist: map<Coord, nat>, cur: Coord, next: Coord, nd: nat)
    requires RelaxedBut(ok, visited, dist, cur) && next !in visited && (next in dist ==> nd < dist[next])
    ensures RelaxedBut(ok, visited, dist[next := nd], cur)
  {
  }

  lemma TriedImprove(ok: Coord -> bool, visited: set<Coord>, dist: map<Coord, nat>, cur: Coord, d: nat, k: nat, nd: nat)
    requires k < |Moves8| && TriedFrom(ok, visited, dist, cur, d, k)
    requires var next := Add(cur, Moves8[k]);
             nd == d + StepCost(cur, next) && (next in dist ==> nd < dist[next])
    ensures TriedFrom(ok, visited, dist[Add(cur, Moves8[k]) := nd], cur, d, k + 1)
  {
  }

  lemma TriedKeep(ok: Coord -> bool, visited: set<Coord>, dist: map<Coord, nat>, cur: Coord, d: nat, k: nat)
    requires k < |Moves8| && TriedFrom(ok, visited, dist, cur, d, k)
    requires var next := Add(cur, Moves8[k]);
             ok(next) && next !in visited ==> next in dist && dist[next] <= d + StepCost(cur, next)
    ensures TriedFrom(ok, visited, dist, cur, d, k + 1)
  {
  }

  /**
   * Relaxing the cell Moves8[k] away from cur, reached at distance d: when it is
   * passable, unfinished, and either unrecorded or recorded at more than d plus
   * the step cost, it gets that distance, cur as predecessor and a queue entry;
   * otherwise nothing changes.
   */
  method Relax(ok: Coord -> bool, cur: Coord, d: nat, k: nat, visited: set<Coord>,
               dist: map<Coord, nat>, prev: map<Coord, Coord>, pq: set<Entry>)
    returns (dist': map<Coord, nat>, prev': map<Coord, Coord>, pq': set<Entry>)
    requires k < |Moves8|
    ensures var next := Add(cur, Moves8[k]);
            var nd := d + StepCost(cur, next);
            if ok(next) && next !in visited && (next !in dist || nd < dist[next])
            then dist' == dist[next := nd] && prev' == prev[next := cur] && pq' == pq + {(nd, next)}
            else dist' == dist && prev' == prev && pq' == pq
  {
    dist', prev', pq' := dist, prev, pq;
    var next := Add(cur, Moves8[k]);
    if ok(next) && next !in visited {
      var newDist := d + StepCost(cur, next);
      if next !in dist || newDist < dist[next] {
        dist', prev', pq' := dist[next := newDist], prev[next := cur], pq + {(newDist, next)};
      }
    }
  }

  /** The two outcomes of one relaxation, read off apart from the loop state. */
  lemma RelaxOutcome(ok: Coord -> bool, cur: Coord, d: nat, k: nat, visited: set<Coord>,
                     dist: map<Coord, nat>, prev: map<Coord, Coord>, pq: set<Entry>,
                     dist': map<Coord, nat>, prev': map<Coord, Coord>, pq': set<Entry>)
    requires k < |Moves8|
    requires var next := Add(cur, Moves8[k]);
             var nd := d + StepCost(cur, next);
             if ok(next) && next !in visited && (next !in dist || nd < dist[next])
             then dist' == dist[next := nd] && prev' == prev[next := cur] && pq' == pq + {(nd, next)}
             else dist' == dist && prev' == prev && pq' == pq
    ensures var next := Add(cur, Moves8[k]);
            var nd := d + StepCost(cur, next);
            (ok(next) && next !in visited && (next !in dist || nd < dist[next]) ==>
               dist' == dist[next := nd] && prev' == prev[next := cur] && pq' == pq + {(nd, next)}) &&
            (!(ok(next) && next !in visited && (next !in dist || nd < dist[next])) ==>
               dist' == dist && prev' == prev && pq' == pq)
  {
  }

  /** One relaxation keeps the state of the loop over the moves. */
  lemma RelaxKeeps(ok: Coord -> bool, start: Coord, goal: Coord, cur: Coord, d: nat, k: nat, visited: set<Coord>,
                   dist: map<Coord, nat>, prev: map<Coord, Coord>, pq: set<Entry>, U: set<Coord>,
                   dist': map<Coord, nat>, prev': map<Coord, Coord>, pq': set<Entry>)
    requires Relaxing(ok, start, goal, U, visited, dist, prev, pq, cur, d)
    requires k < |Moves8|
    requires var next := Add(cur, Moves8[k]);
             var nd := d + StepCost(cur, next);
             ok(next) && next !in visited && (next !in dist || nd < dist[next]) &&
             dist' == dist[next := nd] && prev' == prev[next := cur] && pq' == pq + {(nd, next)}
    requires forall c :: ok(c) ==> c in U
    ensures Relaxing(ok, start, goal, U, visited, dist', prev', pq', cur, d)
  {
    var next := Add(cur, Moves8[k]);
    assert Diff(next, cur) == Moves8[k];
    Improve(ok, start, goal, U, visited, dist, prev, pq, cur, d, next);
  }

  /** One relaxation covers move k. */
  lemma RelaxCovers(ok: Coord -> bool, cur: Coord, d: nat, k: nat, visited: set<Coord>,
                    dist: map<Coord, nat>, prev: map<Coord, Coord>, pq: set<Entry>,
                    dist': map<Coord, nat>, prev': map<Coord, Coord>, pq': set<Entry>)
    requires k < |Moves8| && TriedFrom(ok, visited, dist, cur, d, k)
    requires var next := Add(cur, Moves8[k]);
             var nd := d + StepCost(cur, next);
             if ok(next) && next !in visited && (next !in dist || nd < dist[next])
             then dist' == dist[next := nd] && prev' == prev[next := cur] && pq' == pq + {(nd, next)}
             else dist' == dist && prev' == prev && pq' == pq
    ensures TriedFrom(ok, visited, dist', cur, d, k + 1)
  {
    var next := Add(cur, Moves8[k]);
    var nd := d + StepCost(cur, next);
    if ok(next) && next !in visited && (next !in dist || nd < dist[next]) {
      TriedImprove(ok, visited, dist, cur, d, k, nd);
    } else {
      TriedKeep(ok, visited, dist, cur, d, k);
    }
  }

  /** One pass of the loop over the moves: the relaxation keeps the loop state and covers move k. */
  method RelaxMove(ok: Coord -> bool, start: Coord, goal: Coord, cur: Coord, d: nat, k: nat, visited: set<Coord>,
                   dist: map<Coord, nat>, prev: map<Coord, Coord>, pq: set<Entry>, ghost U: set<Coord>)
    returns (dist': map<Coord, nat>, prev': map<Coord, Coord>, pq': set<Entry>)
    requires forall c :: ok(c) ==> c in U
    requires Relaxing(ok, start, goal, U, visited, dist, prev, pq, cur, d)
    requires k < |Moves8| && TriedFrom(ok, visited, dist, cur, d, k)
    ensures Relaxing(ok, start, goal, U, visited, dist', prev', pq', cur, d)
    ensures TriedFrom(ok, visited, dist', cur, d, k + 1)
    ensures var next := Add(cur, Moves8[k]);
            var nd := d + StepCost(cur, next);
            if ok(next) && next !in visited && (next !in dist || nd < dist[next])
            then dist' == dist[next := nd] && prev' == prev[next := cur] && pq' == pq + {(nd, next)}
            else dist' == dist && prev' == prev && pq' == pq
  {
    dist', prev', pq' := Relax(ok, cur, d, k, visited, dist, prev, pq);
    RelaxCovers(ok, cur, d, k, visited, dist, prev, pq, dist', prev', pq');
    RelaxOutcome(ok, cur, d, k, visited, dist, prev, pq, dist', prev', pq');
    var next := Add(cur, Moves8[k]);
    if ok(next) && next !in visited && (next !in dist || d + StepCost(cur, next) < dist[next]) {
      RelaxKeeps(ok, start, goal, cur, d, k, visited, dist, prev, pq, U, dist', prev', pq');
    }
  }

  /** After all eight moves from cur, the state is again the main-loop state. */
  lemma FinishRelaxing(ok: Coord -> bool, start: Coord, goal: Coord, U: set<Coord>, visited: set<Coord>,
                       dist: map<Coord, nat>, prev: map<Coord, Coord>, pq: set<Entry>, cur: Coord, d: nat)
    requires Relaxing(ok, start, goal, U, visited, dist, prev, pq, cur, d)
    requires TriedFrom(ok, visited, dist, cur, d, |Moves8|)
    ensures Searching(ok, start, goal, U, visited, dist, prev, pq)
  {
    forall u, w | u in visited && ok(w) && Adjacent(Moves8, u, w) && w !in visited
      ensures u in dist && w in dist && dist[w] <= dist[u] + StepCost(u, w)
    {
      if u == cur {
        AdjacentByIndex(Moves8, u, w);
      }
    }
  }

  /** The loop over the eight moves from the newly finished cell cur. */
  method RelaxAll(ok: Coord -> bool, start: Coord, goal: Coord, cur: Coord, d: nat, visited: set<Coord>,
                  dist: map<Coord, nat>, prev: map<Coord, Coord>, pq: set<Entry>, ghost U: set<Coord>)
    returns (dist': map<Coord, nat>, prev': map<Coord, Coord>, pq': set<Entry>)
    requires forall c :: ok(c) ==> c in U
    requires Relaxing(ok, start, goal, U, visited, dist, prev, pq, cur, d)
    ensures Searching(ok, start, goal, U, visited, dist', prev', pq')
  {
    dist', prev', pq' := dist, prev, pq;
    for k := 0 to |Moves8|
      invariant Relaxing(ok, start, goal, U, visited, dist', prev', pq', cur, d)
      invariant TriedFrom(ok, visited, dist', cur, d, k)
    {
      dist', prev', pq' := RelaxMove(ok, start, goal, cur, d, k, visited, dist', prev', pq', U);
    }
    FinishRelaxing(ok, start, goal, U, visited, dist', prev', pq', cur, d);
  }

  /** Following predecessors strictly lowers the distance and ends at start. */
  ghost predicate Descends(start: Coord, dist: map<Coord, nat>, prev: map<Coord, Coord>) {
    dist.Keys == prev.Keys + {start} && start !in prev &&
    forall v {:trigger prev[v]} :: v in prev ==> prev[v] in dist && dist[prev[v]] < dist[v]
  }

  lemma TreeDescends(ok: Coord -> bool, start: Coord, visited: set<Coord>,
                     dist: map<Coord, nat>, prev: map<Coord, Coord>)
    requires Tree(ok, start, visited, dist, prev)
    ensures Descends(start, dist, prev)
  {
  }

  /**
   * Path reconstruction: collect cells from goal while they have a
   * predecessor, then add start and reverse.
   */
  method WalkBack(prev: map<Coord, Coord>, start: Coord, goal: Coord, ghost dist: map<Coord, nat>)
    returns (path: seq<Coord>)
    requires goal in dist && Descends(start, dist, prev)
    ensures |path| >= 1 && path[0] == start && Last(path) == goal
    ensures forall i :: 1 <= i < |path| ==> path[i] in prev && prev[path[i]] == path[i - 1]
    ensures goal == start ==> path == [start]
  {
    var back: seq<Coord> := [];
    var cur := goal;
    while cur in prev
      invariant cur in dist && (back + [cur])[0] == goal
      invariant Linked(prev, back + [cur])
      decreases dist[cur]
    {
      assert back + [cur] + [prev[cur]] == (back + [cur]) + [prev[cur]];
      back := back + [cur];
      cur := prev[cur];
    }
    back := back + [start];
    path := Reverse(back);
    ReverseLinked(prev, back);
  }

  /** Each cell but the last has the next one as its predecessor. */
  ghost predicate Linked(prev: map<Coord, Coord>, s: seq<Coord>) {
    forall i :: 0 <= i < |s| - 1 ==> s[i] in prev && prev[s[i]] == s[i + 1]
  }

  lemma ReverseLinked(prev: map<Coord, Coord>, s: seq<Coord>)
    requires Linked(prev, s)
    ensures forall i :: 1 <= i < |s| ==> Reverse(s)[i] in prev && prev[Reverse(s)[i]] == Reverse(s)[i - 1]
  {
    var r := Reverse(s);
    forall i | 1 <= i < |s|
      ensures r[i] in prev && prev[r[i]] == r[i - 1]
    {
      assert r[i] == s[|s| - 1 - i] && r[i - 1] == s[|s| - 1 - i + 1];
    }
  }

  /** A predecessor chain from start is a walk whose cost is the distance of its last cell. */
  lemma {:induction false} ChainCost(ok: Coord -> bool, start: Coord, visited: set<Coord>,
                                     dist: map<Coord, nat>, prev: map<Coord, Coord>, path: seq<Coord>)
    requires Tree(ok, start, visited, dist, prev)
    requires |path| >= 1 && path[0] == start
    requires forall i :: 1 <= i < |path| ==> path[i] in prev && prev[path[i]] == path[i - 1]
    ensures Walk(ok, Moves8, path) && Last(path) in dist && Cost(path) == dist[Last(path)]
    decreases |path|
  {
    var n := |path|;
    if n > 1 {
      var p := path[..n - 1];
      ChainCost(ok, start, visited, dist, prev, p);
      assert Last(p) == path[n - 2];
      assert path[n - 1] in prev;
      WalkExtend(ok, Moves8, p, path[n - 1]);
      assert p + [path[n - 1]] == path;
    }
  }

  /** With the queue empty, every recorded cell is finished and closed: goal is unreachable. */
  lemma Exhausted(ok: Coord -> bool, start: Coord, goal: Coord, U: set<Coord>, visited: set<Coord>,
                  dist: map<Coord, nat>, prev: map<Coord, Coord>)
    requires Searching(ok, start, goal, U, visited, dist, prev, {})
    ensures Unreachable(ok, Moves8, start, goal)
  {
    assert start in visited;
    assert Closed(ok, Moves8, visited, visited);
    forall q | Walk(ok, Moves8, q) && q[0] == start
      ensures Last(q) != goal
    {
      StaysInside(ok, Moves8, visited, q);
    }
  }

  /** The goal has just been finished: rebuild the path to it, a cheapest walk. */
  method Arrive(ok: Coord -> bool, start: Coord, goal: Coord, ghost visited: set<Coord>,
                dist: map<Coord, nat>, prev: map<Coord, Coord>)
    returns (path: seq<Coord>)
    requires Tree(ok, start, visited, dist, prev) && Settled(ok, start, visited + {goal}, dist)
    ensures WalkFrom(ok, Moves8, path, start, goal) && Cheapest(ok, path, start, goal)
    ensures start == goal ==> path == [start]
  {
    TreeDescends(ok, start, visited, dist, prev);
    path := WalkBack(prev, start, goal, dist);
    ChainCost(ok, start, visited, dist, prev, path);
  }

  /** Finish the popped cell cur, which is not the goal, and relax its eight neighbours. */
  method Expand(ok: Coord -> bool, start: Coord, goal: Coord, cur: Coord, d: nat, visited: set<Coord>,
                dist: map<Coord, nat>, prev: map<Coord, Coord>, pq: set<Entry>, ghost U: set<Coord>)
    returns (dist': map<Coord, nat>, prev': map<Coord, Coord>, pq': set<Entry>)
    requires forall c :: ok(c) ==> c in U
    requires Searching(ok, start, goal, U, visited, dist, prev, pq)
    requires (d, cur) in pq && (forall f :: f in pq ==> d <= f.0) && cur !in visited && cur != goal
    ensures cur in U
    ensures Searching(ok, start, goal, U, visited + {cur}, dist', prev', pq')
  {
    Settle(ok, start, goal, U, visited, dist, prev, pq, d, cur);
    StartRelaxing(ok, start, goal, U, visited, dist, prev, pq, d, cur);
    dist', prev', pq' := RelaxAll(ok, start, goal, cur, d, visited + {cur}, dist, prev, pq - {(d, cur)}, U);
  }

  /** Finishing one more cell of U leaves fewer unfinished ones. */
  lemma FewerLeft(U: set<Coord>, visited: set<Coord>, c: Coord)
    requires c in U && c !in visited
    ensures |U - (visited + {c})| < |U - visited|
  {
    assert U - visited == (U - (visited + {c})) + {c};
  }

  /**
   * dijkstra_pathfinding's search: a cheapest eight-directional walk from start
   * to goal through cells that pass `ok`, or None when goal is unreachable.
   */
  method Search(ok: Coord -> bool, arena: set<Coord>, start: Coord, goal: Coord) returns (r: Option<seq<Coord>>)
    requires forall c :: ok(c) ==> c in arena
    ensures r.Some? ==> WalkFrom(ok, Moves8, r.value, start, goal) && Cheapest(ok, r.value, start, goal)
    ensures r.None? ==> Unreachable(ok, Moves8, start, goal)
    ensures start == goal ==> r == Some([start])
  {
    var dist: map<Coord, nat> := map[start := 0];
    var prev: map<Coord, Coord> := map[];
    var pq: set<Entry> := {(0, start)};
    var visited: set<Coord> := {};
    ghost var U := arena + {start};
    while pq != {}
      invariant Searching(ok, start, goal, U, visited, dist, prev, pq)
      decreases |U - visited|, |pq|
    {
      var e := PopLeast(pq);
      var (d, cur) := e;
      if cur in visited {
        pq := pq - {e};
        continue;
      }
      if cur == goal {
        Settle(ok, start, goal, U, visited, dist, prev, pq, d, cur);
        var path := Arrive(ok, start, goal, visited, dist, prev);
        return Some(path);
      }
      dist, prev, pq := Expand(ok, start, goal, cur, d, visited, dist, prev, pq, U);
      FewerLeft(U, visited, cur);
      visited := visited + {cur};
    }
    Exhausted(ok, start, goal, U, visited, dist, prev);
    return None;
  }

  /**
   * The key dijkstra_pathfinding pushes, along a walk. The popped key is taken
   * as the current distance, the step cost (1.0 or 1.4) is added, and the sum
   * is pushed multiplied by ten; scaled as everywhere here, each step turns a
   * key k into 10 * k + StepCost.
   */
  function LegacyKey(p: seq<Coord>): nat {
    if |p| <= 1 then 0 else 10 * LegacyKey(p[..|p| - 1]) + StepCost(p[|p| - 2], p[|p| - 1])
  }

  /** The repunit 11...1 with n digits. */
  function Repunit(n: nat): nat {
    if n == 0 then 0 else 10 * Repunit(n - 1) + 1
  }

  /** A walk of n steps gets a legacy key between 10 and 14 times the n-digit repunit. */
  lemma {:induction false} LegacyKeyBounds(p: seq<Coord>)
    requires |p| >= 1
    ensures 10 * Repunit(|p| - 1) <= LegacyKey(p) <= 14 * Repunit(|p| - 1)
  {
    if |p| > 1 {
      LegacyKeyBounds(p[..|p| - 1]);
    }
  }

  lemma {:induction false} RepunitGrows(n: nat, m: nat)
    requires n < m
    ensures 10 * Repunit(n) + 1 <= Repunit(m)
    decreases m
  {
    if n + 1 < m {
      RepunitGrows(n, m - 1);
    }
  }

  /**
   * The legacy key orders walks by their number of steps, whatever they cost:
   * every walk with fewer steps is popped first.
   */
  lemma LegacyKeyBySteps(p: seq<Coord>, q: seq<Coord>)
    requires 1 <= |p| < |q|
    ensures LegacyKey(p) < LegacyKey(q)
  {
    LegacyKeyBounds(p);
    LegacyKeyBounds(q);
    RepunitGrows(|p| - 1, |q| - 1);
  }

  /** Four orthogonal steps east, and three diagonal steps south-east, from (0, 0). */
  const Straight: seq<Coord> := [Coord(0, 0), Coord(1, 0), Coord(2, 0), Coord(3, 0), Coord(4, 0)]
  const Diagonal: seq<Coord> := [Coord(0, 0), Coord(1, 1), Coord(2, 2), Coord(3, 3)]

  /** Both are eight-directional walks on an open grid. */
  lemma InversionWalks()
    ensures Walk(_ => true, Moves8, Straight) && Walk(_ => true, Moves8, Diagonal)
  {
    assert forall i :: 1 <= i < |Straight| ==> Diff(Straight[i], Straight[i - 1]) == Moves8[6];
    assert forall i :: 1 <= i < |Diagonal| ==> Diff(Diagonal[i], Diagonal[i - 1]) == Moves8[7];
  }

  /**
   * The straight walk costs 40 but gets key 11110; the diagonal walk costs 42
   * but gets key 1554. A queue ordered by that key finishes the dearer cell first.
   */
  lemma LegacyKeyInversion()
    ensures Cost(Straight) == 40 && Cost(Diagonal) == 42
    ensures LegacyKey(Straight) == 11110 && LegacyKey(Diagonal) == 1554
  {
    var s1 := [Coord(0, 0)];
    var s2 := Snoc(s1, Coord(1, 0));
    var s3 := Snoc(s2, Coord(2, 0));
    var s4 := Snoc(s3, Coord(3, 0));
    var s5 := Snoc(s4, Coord(4, 0));
    assert s5 == Straight;
    var d2 := Snoc(s1, Coord(1, 1));
    var d3 := Snoc(d2, Coord(2, 2));
    var d4 := Snoc(d3, Coord(3, 3));
    assert d4 == Diagonal;
  }

  /** Extending a walk by one cell adds the step's cost, and the step's cost to ten times the key. */
  lemma Snoc(p: seq<Coord>, c: Coord) returns (q: seq<Coord>)
    requires |p| >= 1
    ensures q == p + [c]
    ensures Cost(q) == Cost(p) + StepCost(Last(p), c)
    ensures LegacyKey(q) == 10 * LegacyKey(p) + StepCost(Last(p), c)
  {
    q := p + [c];
    assert q[..|q| - 1] == p;
  }
}
