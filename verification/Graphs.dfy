/** Directed graphs as successor lists, and reachability along their edges.
    A key that is absent from the map has no successors, as a lookup that
    falls back to the empty set has in the dependency tracer. */
module Graphs {

  type Graph<T> = map<T, seq<T>>

  function Succ<T>(g: Graph<T>, x: T): seq<T> {
    if x in g then g[x] else []
  }

  ghost predicate IsPath<T>(g: Graph<T>, p: seq<T>) {
    |p| > 0 && forall i :: 0 < i < |p| ==> p[i] in Succ(g, p[i - 1])
  }

  ghost predicate Connects<T>(g: Graph<T>, p: seq<T>, x: T, y: T) {
    IsPath(g, p) && p[0] == x && p[|p| - 1] == y
  }

  /** There is a path, possibly of length zero, from x to y. */
  ghost predicate Reach<T(!new)>(g: Graph<T>, x: T, y: T) {
    exists p :: Connects(g, p, x, y)
  }

  /** There is a path with at least one edge from x to y. */
  ghost predicate ReachPlus<T(!new)>(g: Graph<T>, x: T, y: T) {
    exists z :: z in Succ(g, x) && Reach(g, z, y)
  }

  ghost predicate Mutual<T(!new)>(g: Graph<T>, x: T, y: T) {
    Reach(g, x, y) && Reach(g, y, x)
  }

  /** Some start node reaches x. */
  ghost predicate ReachedFrom<T(!new)>(g: Graph<T>, starts: seq<T>, x: T) {
    exists s :: s in starts && Reach(g, s, x)
  }

  lemma ReachRefl<T(!new)>(g: Graph<T>, x: T)
    ensures Reach(g, x, x)
  {
    assert Connects(g, [x], x, x);
  }

  lemma ReachEdge<T(!new)>(g: Graph<T>, x: T, y: T)
    requires y in Succ(g, x)
    ensures Reach(g, x, y)
  {
    assert Connects(g, [x, y], x, y);
  }

  lemma ReachTrans<T(!new)>(g: Graph<T>, x: T, y: T, z: T)
    requires Reach(g, x, y) && Reach(g, y, z)
    ensures Reach(g, x, z)
  {
    var p :| Connects(g, p, x, y);
    var q :| Connects(g, q, y, z);
    var r := p + q[1..];
    forall i | 0 < i < |r| ensures r[i] in Succ(g, r[i - 1]) {
      if i >= |p| {
        assert r[i] == q[i + 1 - |p|];
        assert r[i - 1] == q[i - |p|];
      }
    }
    assert Connects(g, r, x, z);
  }

  lemma ReachSplit<T(!new)>(g: Graph<T>, x: T, y: T)
    ensures Reach(g, x, y) <==> x == y || ReachPlus(g, x, y)
  {
    if Reach(g, x, y) && x != y {
      var p :| Connects(g, p, x, y);
      var q := p[1..];
      assert p[1] in Succ(g, x);
      forall i | 0 < i < |q| ensures q[i] in Succ(g, q[i - 1]) {
        assert q[i] == p[i + 1];
      }
      assert Connects(g, q, p[1], y);
    }
    if x == y {
      ReachRefl(g, x);
    } else if ReachPlus(g, x, y) {
      var z :| z in Succ(g, x) && Reach(g, z, y);
      ReachEdge(g, x, z);
      ReachTrans(g, x, z, y);
    }
  }

  ghost predicate Closed<T>(g: Graph<T>, s: set<T>) {
    forall x, y :: x in s && y in Succ(g, x) ==> y in s
  }

  /** A set closed under the edge relation cannot be left. */
  lemma ClosedReach<T(!new)>(g: Graph<T>, s: set<T>, x: T, y: T)
    requires Closed(g, s) && x in s && Reach(g, x, y)
    ensures y in s
  {
    var p :| Connects(g, p, x, y);
    StaysInside(g, s, p, |p| - 1);
  }

  lemma {:induction false} StaysInside<T>(g: Graph<T>, s: set<T>, p: seq<T>, i: nat)
    requires Closed(g, s) && IsPath(g, p) && p[0] in s && i < |p|
    ensures p[i] in s
  {
    if i > 0 {
      StaysInside(g, s, p, i - 1);
    }
  }
}
