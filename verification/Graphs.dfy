/** Walks and shortest distances in a graph given by its adjacency relation: the reference
    against which the breadth-first search and the recursive neighbourhood query are proved. */
module Graphs {

  /** Consecutive nodes of `w` are adjacent. */
  ghost predicate IsWalk<T>(adj: (T, T) -> bool, w: seq<T>) {
    |w| > 0 && forall i :: 0 <= i < |w| - 1 ==> adj(w[i], w[i + 1])
  }

  /** Some walk of exactly `n` steps leads from a node of `from` to `x`. */
  ghost predicate Joins<T(!new)>(adj: (T, T) -> bool, from: set<T>, x: T, n: nat) {
    exists w: seq<T> :: IsWalk(adj, w) && |w| == n + 1 && w[0] in from && w[n] == x
  }

  /** The shortest walk from `from` to `x` has exactly `d` steps. */
  ghost predicate AtDistance<T(!new)>(adj: (T, T) -> bool, from: set<T>, x: T, d: nat) {
    Joins(adj, from, x, d) && forall m: nat :: m < d ==> !Joins(adj, from, x, m)
  }

  ghost predicate Symmetric<T(!new)>(adj: (T, T) -> bool) {
    forall x, y :: adj(x, y) ==> adj(y, x)
  }

  lemma JoinsZero<T(!new)>(adj: (T, T) -> bool, from: set<T>, x: T)
    ensures Joins(adj, from, x, 0) <==> x in from
  {
    if x in from {
      assert IsWalk(adj, [x]);
    }
  }

  lemma JoinsStep<T(!new)>(adj: (T, T) -> bool, from: set<T>, x: T, n: nat)
    ensures Joins(adj, from, x, n + 1) <==> exists y :: Joins(adj, from, y, n) && adj(y, x)
  {
    if Joins(adj, from, x, n + 1) {
      var w: seq<T> :| IsWalk(adj, w) && |w| == n + 2 && w[0] in from && w[n + 1] == x;
      var v := w[..n + 1];
      assert IsWalk(adj, v) && v[0] in from && v[n] == w[n];
      assert Joins(adj, from, w[n], n) && adj(w[n], x);
    }
    if y :| Joins(adj, from, y, n) && adj(y, x) {
      var v: seq<T> :| IsWalk(adj, v) && |v| == n + 1 && v[0] in from && v[n] == y;
      var w := v + [x];
      assert IsWalk(adj, w) && |w| == n + 2 && w[0] in from && w[n + 1] == x;
    }
  }

  /** A node at distance `d + 1` has a neighbour at distance `d`. */
  lemma Predecessor<T(!new)>(adj: (T, T) -> bool, from: set<T>, x: T, d: nat) returns (y: T)
    requires AtDistance(adj, from, x, d + 1)
    ensures AtDistance(adj, from, y, d) && adj(y, x)
  {
    JoinsStep(adj, from, x, d);
    y :| Joins(adj, from, y, d) && adj(y, x);
    forall m: nat | m < d
      ensures !Joins(adj, from, y, m)
    {
      JoinsStep(adj, from, x, m);
    }
  }

  /** A neighbour of a node at distance `d` is itself at some distance of at most `d + 1`. */
  lemma {:induction false} NeighbourIsClose<T(!new)>(adj: (T, T) -> bool, from: set<T>, y: T, x: T, d: nat)
    returns (e: nat)
    requires AtDistance(adj, from, y, d) && adj(y, x)
    ensures e <= d + 1 && AtDistance(adj, from, x, e)
  {
    JoinsStep(adj, from, x, d);
    e := Shortest(adj, from, x, d + 1);
  }

  /** Every reachable node has a distance. */
  lemma {:induction false} Shortest<T(!new)>(adj: (T, T) -> bool, from: set<T>, x: T, n: nat) returns (d: nat)
    requires Joins(adj, from, x, n)
    ensures d <= n && AtDistance(adj, from, x, d)
  {
    if m: nat :| m < n && Joins(adj, from, x, m) {
      d := Shortest(adj, from, x, m);
    } else {
      d := n;
    }
  }

  lemma DistanceUnique<T(!new)>(adj: (T, T) -> bool, from: set<T>, x: T, d: nat, e: nat)
    requires AtDistance(adj, from, x, d) && AtDistance(adj, from, x, e)
    ensures d == e
  {
  }

  /** Nothing lies beyond an empty layer. */
  lemma {:induction false} NothingBeyondEmptyLayer<T(!new)>(adj: (T, T) -> bool, from: set<T>, x: T, d: nat, e: nat)
    requires forall y :: !AtDistance(adj, from, y, d)
    requires d <= e
    ensures !AtDistance(adj, from, x, e)
    decreases e - d
  {
    if d < e && AtDistance(adj, from, x, e) {
      var y := Predecessor(adj, from, x, e - 1);
      NothingBeyondEmptyLayer(adj, from, y, d, e - 1);
    }
  }

  /** Walks can be reversed, so distance between two nodes does not depend on the direction. */
  lemma JoinsSymmetric<T(!new)>(adj: (T, T) -> bool, a: T, b: T, n: nat)
    requires Symmetric(adj)
    requires Joins(adj, {a}, b, n)
    ensures Joins(adj, {b}, a, n)
  {
    var w: seq<T> :| IsWalk(adj, w) && |w| == n + 1 && w[0] in {a} && w[n] == b;
    var v := seq(n + 1, i requires 0 <= i <= n => w[n - i]);
    forall i | 0 <= i < |v| - 1
      ensures adj(v[i], v[i + 1])
    {
      assert adj(w[n - i - 1], w[n - i - 1 + 1]);
    }
    assert IsWalk(adj, v) && v[0] in {b} && v[n] == a;
  }

  lemma DistanceSymmetric<T(!new)>(adj: (T, T) -> bool, a: T, b: T, d: nat)
    requires Symmetric(adj)
    ensures AtDistance(adj, {a}, b, d) <==> AtDistance(adj, {b}, a, d)
  {
    forall n: nat
      ensures Joins(adj, {a}, b, n) <==> Joins(adj, {b}, a, n)
    {
      if Joins(adj, {a}, b, n) { JoinsSymmetric(adj, a, b, n); }
      if Joins(adj, {b}, a, n) { JoinsSymmetric(adj, b, a, n); }
    }
  }
}
