/**
 * Walks over a cell graph given by a passability test `ok` and a list of moves,
 * and the facts every breadth-first search here relies on.
 */
module Walks {
  import opened Coords

  function Last<T>(s: seq<T>): T
    requires |s| > 0
  {
    s[|s| - 1]
  }

  /** The sequence in reverse order. */
  function Reverse<T>(s: seq<T>): (r: seq<T>)
    ensures |r| == |s| && forall i :: 0 <= i < |s| ==> r[i] == s[|s| - 1 - i]
  {
    if |s| == 0 then [] else Reverse(s[1..]) + [s[0]]
  }

  /** p is a walk: each step is one of the moves and every cell after the first passes `ok`. */
  predicate Walk(ok: Coord -> bool, moves: seq<Coord>, p: seq<Coord>) {
    |p| >= 1 &&
    forall i :: 1 <= i < |p| ==> ok(p[i]) && Adjacent(moves, p[i - 1], p[i])
  }

  predicate WalkFrom(ok: Coord -> bool, moves: seq<Coord>, p: seq<Coord>, a: Coord, b: Coord) {
    Walk(ok, moves, p) && p[0] == a && Last(p) == b
  }

  /** No cell occurs twice. */
  predicate Distinct(p: seq<Coord>) {
    forall i, j :: 0 <= i < j < |p| ==> p[i] != p[j]
  }

  /** Every walk from start to b has at least as many cells as p. */
  ghost predicate Fewest(ok: Coord -> bool, moves: seq<Coord>, p: seq<Coord>, start: Coord, b: Coord) {
    forall q {:trigger WalkFrom(ok, moves, q, start, b)} :: WalkFrom(ok, moves, q, start, b) ==> |p| <= |q|
  }

  /** No walk leads from start to b. */
  ghost predicate Unreachable(ok: Coord -> bool, moves: seq<Coord>, start: Coord, b: Coord) {
    forall q {:trigger Walk(ok, moves, q)} :: Walk(ok, moves, q) && q[0] == start ==> Last(q) != b
  }

  /** Every passable neighbour of a cell of `done` is in `seen`. */
  ghost predicate Closed(ok: Coord -> bool, moves: seq<Coord>, done: set<Coord>, seen: set<Coord>) {
    forall u, w {:trigger Adjacent(moves, u, w)} :: u in done && ok(w) && Adjacent(moves, u, w) ==> w in seen
  }

  /** rec[v] is a lower bound on the number of cells of any walk from start to v. */
  ghost predicate LowerBounds(ok: Coord -> bool, moves: seq<Coord>, start: Coord, rec: map<Coord, nat>) {
    forall q {:trigger Walk(ok, moves, q)} :: Walk(ok, moves, q) && q[0] == start && Last(q) in rec ==> |q| >= rec[Last(q)]
  }

  lemma WalkPrefix(ok: Coord -> bool, moves: seq<Coord>, p: seq<Coord>, n: nat)
    requires Walk(ok, moves, p) && 1 <= n <= |p|
    ensures Walk(ok, moves, p[..n])
  {
  }

  /** Extending a walk by one passable adjacent cell gives a walk. */
  lemma WalkExtend(ok: Coord -> bool, moves: seq<Coord>, p: seq<Coord>, c: Coord)
    requires Walk(ok, moves, p) && ok(c) && Adjacent(moves, Last(p), c)
    ensures Walk(ok, moves, p + [c]) && (p + [c])[0] == p[0] && Last(p + [c]) == c
  {
  }

  /**
   * The breadth-first frontier argument: if the cells not yet expanded
   * (`seen - done`) all have lower bounds of at least L, and the expanded cells
   * have all their neighbours in `seen`, then any walk from start that ends
   * outside `seen` has at least L + 1 cells.
   */
  lemma {:induction false} LeaveSeen(ok: Coord -> bool, moves: seq<Coord>, start: Coord,
                                     seen: set<Coord>, done: set<Coord>, rec: map<Coord, nat>,
                                     L: int, q: seq<Coord>)
    requires start in seen && done <= seen && seen <= rec.Keys
    requires Closed(ok, moves, done, seen)
    requires forall v :: v in seen && v !in done ==> rec[v] >= L
    requires LowerBounds(ok, moves, start, rec)
    requires Walk(ok, moves, q) && q[0] == start && Last(q) !in seen
    ensures |q| >= L + 1
    decreases |q|
  {
    var n := |q|;
    assert n >= 2;
    var q' := q[..n - 1];
    WalkPrefix(ok, moves, q, n - 1);
    var u := q[n - 2];
    assert Last(q') == u;
    assert ok(q[n - 1]) && Adjacent(moves, u, q[n - 1]);
    if u in seen {
      assert u !in done;
      assert |q'| >= rec[u];
    } else {
      LeaveSeen(ok, moves, start, seen, done, rec, L, q');
    }
  }

  /** A walk that starts inside a set closed under passable steps never leaves it. */
  lemma {:induction false} StaysInside(ok: Coord -> bool, moves: seq<Coord>, seen: set<Coord>, q: seq<Coord>)
    requires Closed(ok, moves, seen, seen)
    requires Walk(ok, moves, q) && q[0] in seen
    ensures Last(q) in seen
    decreases |q|
  {
    var n := |q|;
    if n > 1 {
      WalkPrefix(ok, moves, q, n - 1);
      StaysInside(ok, moves, seen, q[..n - 1]);
      assert ok(q[n - 1]) && Adjacent(moves, q[n - 2], q[n - 1]);
    }
  }

  /**
   * Recording a newly discovered cell w with bound m + 1, where m bounds every
   * unexpanded cell, keeps all recorded bounds sound.
   */
  lemma Discover(ok: Coord -> bool, moves: seq<Coord>, start: Coord,
                 seen: set<Coord>, done: set<Coord>, rec: map<Coord, nat>, m: nat, w: Coord)
    requires start in seen && done <= seen && seen == rec.Keys
    requires Closed(ok, moves, done, seen)
    requires forall v :: v in seen && v !in done ==> rec[v] >= m
    requires LowerBounds(ok, moves, start, rec)
    requires w !in seen
    ensures LowerBounds(ok, moves, start, rec[w := m + 1])
  {
    var rec' := rec[w := m + 1];
    forall q | Walk(ok, moves, q) && q[0] == start && Last(q) in rec'
      ensures |q| >= rec'[Last(q)]
    {
      if Last(q) == w {
        LeaveSeen(ok, moves, start, seen, done, rec, m, q);
      }
    }
  }

  /** After all moves from c were tried, c's passable neighbours are all in seen. */
  lemma Expanded(ok: Coord -> bool, moves: seq<Coord>, c: Coord, done: set<Coord>, seen: set<Coord>)
    requires Closed(ok, moves, done, seen)
    requires forall k :: 0 <= k < |moves| && ok(Add(c, moves[k])) ==> Add(c, moves[k]) in seen
    ensures Closed(ok, moves, done + {c}, seen)
  {
    forall u, w | u in done + {c} && ok(w) && Adjacent(moves, u, w)
      ensures w in seen
    {
      if u == c {
        AdjacentByIndex(moves, u, w);
      }
    }
  }
}
