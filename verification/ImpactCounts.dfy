/** Upstream and downstream impact counts of the dependency tracer. */
module ImpactCounts {
  import opened Graphs
  import Tarjan

  ghost function Targets<T>(g: Graph<T>): set<T> {
    set x, y | x in g && y in g[x] :: y
  }

  /** The other nodes reachable from x by a nonempty path. */
  ghost function Downstream<T(!new)>(g: Graph<T>, x: T): set<T> {
    set y | y in Targets(g) && y != x && ReachPlus(g, x, y)
  }

  lemma ReachPlusTarget<T(!new)>(g: Graph<T>, x: T, y: T)
    requires ReachPlus(g, x, y)
    ensures y in Targets(g)
  {
    hide Reach;
    var z :| z in Succ(g, x) && Reach(g, z, y);
    forall v, w | v in Targets(g) && w in Succ(g, v) ensures w in Targets(g) {}
    assert z in Targets(g);
    ClosedReach(g, Targets(g), z, y);
  }

  lemma ReachPlusStep<T(!new)>(g: Graph<T>, x: T, y: T, z: T)
    requires ReachPlus(g, x, y) && z in Succ(g, y)
    ensures ReachPlus(g, x, z)
  {
    hide Reach;
    var v :| v in Succ(g, x) && Reach(g, v, y);
    ReachEdge(g, y, z);
    ReachTrans(g, v, y, z);
  }

  // ------------------------------------------------------------------ counting

  /** The queue search: all of it is reachable from start, and what start and the
      seen nodes lead to has been seen or is waiting. */
  ghost predicate Searching<T(!new)>(g: Graph<T>, start: T, seen: set<T>, queue: seq<T>) {
    && (forall y :: y in seen || y in queue ==> ReachPlus(g, start, y) && y in Targets(g))
    && (forall y :: y in Succ(g, start) ==> y in seen || y in queue)
    && (forall y, z :: y in seen && z in Succ(g, y) ==> z in seen || z in queue)
  }

  lemma SearchStarts<T(!new)>(g: Graph<T>, start: T)
    ensures Searching(g, start, {}, Succ(g, start))
  {
    hide Reach;
    forall y | y in Succ(g, start) ensures ReachPlus(g, start, y) && y in Targets(g) {
      ReachRefl(g, y);
    }
  }

  lemma SearchSkips<T(!new)>(g: Graph<T>, start: T, seen: set<T>, queue: seq<T>)
    requires Searching(g, start, seen, queue) && |queue| > 0 && queue[0] in seen
    ensures Searching(g, start, seen, queue[1..])
  {
    hide ReachPlus;
    assert queue == [queue[0]] + queue[1..];
  }

  lemma SearchVisits<T(!new)>(g: Graph<T>, start: T, seen: set<T>, queue: seq<T>, pushed: seq<T>)
    requires Searching(g, start, seen, queue) && |queue| > 0
    requires forall z :: z in Succ(g, queue[0]) ==> z in seen || z == queue[0] || z in pushed
    requires forall z :: z in pushed ==> z in Succ(g, queue[0])
    ensures Searching(g, start, seen + {queue[0]}, queue[1..] + pushed)
  {
    hide ReachPlus;
    assert queue == [queue[0]] + queue[1..];
    forall y | y in pushed ensures ReachPlus(g, start, y) && y in Targets(g) {
      ReachPlusStep(g, start, queue[0], y);
      ReachPlusTarget(g, start, y);
    }
  }

  lemma SearchDone<T(!new)>(g: Graph<T>, start: T, seen: set<T>)
    requires Searching(g, start, seen, [])
    ensures seen - {start} == Downstream(g, start)
  {
    hide Reach;
    forall y | y in Downstream(g, start) ensures y in seen {
      var z :| z in Succ(g, start) && Reach(g, z, y);
      ClosedReach(g, seen, z, y);
    }
  }

  /** How many other nodes a nonempty path from start leads to. */
  method ReachableCount<T(==, !new)>(start: T, successors: Graph<T>) returns (count: nat)
    ensures count == |Downstream(successors, start)|
  {
    hide Searching, ReachPlus, Downstream, Targets;
    var seen: set<T> := {};
    var queue := Succ(successors, start);
    SearchStarts(successors, start);
    while |queue| > 0
      invariant Searching(successors, start, seen, queue)
      decreases Targets(successors) - seen, |queue|
    {
      var node := queue[0];
      if node in seen {
        SearchSkips(successors, start, seen, queue);
        queue := queue[1..];
        continue;
      }
      HeadIsTarget(successors, start, seen, queue);
      ghost var seen0, queue0 := seen, queue;
      queue := queue[1..];
      seen := seen + {node};
      var pushed := [];
      var nexts := Succ(successors, node);
      for i := 0 to |nexts|
        invariant queue == queue0[1..] + pushed
        invariant forall k :: 0 <= k < i ==> nexts[k] in seen || nexts[k] in pushed
        invariant forall z :: z in pushed ==> z in nexts
      {
        if nexts[i] !in seen {
          queue := queue + [nexts[i]];
          pushed := pushed + [nexts[i]];
        }
      }
      SearchVisits(successors, start, seen0, queue0, pushed);
    }
    SearchDone(successors, start, seen);
    seen := seen - {start};
    return |seen|;
  }

  lemma HeadIsTarget<T(!new)>(g: Graph<T>, start: T, seen: set<T>, queue: seq<T>)
    requires Searching(g, start, seen, queue) && |queue| > 0
    ensures queue[0] in Targets(g)
  {
  }

  // ------------------------------------------------------------- adjacency maps

  function InsertNew<T(==)>(xs: seq<T>, x: T): seq<T> {
    if x in xs then xs else xs + [x]
  }

  /** h has exactly the edges of g, turned around. */
  ghost predicate Transposed<T(!new)>(g: Graph<T>, h: Graph<T>) {
    forall x, y :: y in Succ(g, x) <==> x in Succ(h, y)
  }

  /** The edges of g are the pairs of the list; for Backward, the pairs turned around. */
  ghost predicate Forward<T(!new)>(g: Graph<T>, edges: seq<(T, T)>) {
    forall x, y :: y in Succ(g, x) <==> (x, y) in edges
  }

  ghost predicate Backward<T(!new)>(g: Graph<T>, edges: seq<(T, T)>) {
    forall x, y :: x in Succ(g, y) <==> (x, y) in edges
  }

  lemma InsertedMembers<T(!new)>(xs: seq<T>, y: T, b: T)
    ensures b in InsertNew(xs, y) <==> b in xs || b == y
  {
    if y !in xs {
      assert (xs + [y])[|xs|] == y;
    }
  }

  lemma AddSuccessor<T(!new)>(g: Graph<T>, x: T, y: T)
    ensures forall a, b :: b in Succ(g[x := InsertNew(Succ(g, x), y)], a) <==> b in Succ(g, a) || (a == x && b == y)
  {
    var h := g[x := InsertNew(Succ(g, x), y)];
    hide InsertNew;
    forall a, b ensures b in Succ(h, a) <==> b in Succ(g, a) || (a == x && b == y) {
      InsertedMembers(Succ(g, x), y, b);
      if a != x {
        assert Succ(h, a) == Succ(g, a);
      }
    }
  }

  lemma AddEdge<T(!new)>(g: Graph<T>, h: Graph<T>, edges: seq<(T, T)>, x: T, y: T)
    requires Forward(g, edges) && Backward(h, edges)
    ensures Forward(g[x := InsertNew(Succ(g, x), y)], edges + [(x, y)])
    ensures Backward(h[y := InsertNew(Succ(h, y), x)], edges + [(x, y)])
  {
    AddSuccessor(g, x, y);
    AddSuccessor(h, y, x);
    hide Succ, InsertNew;
  }

  lemma AdjacencyBuilt<T(!new)>(g: Graph<T>, h: Graph<T>, edges: seq<(T, T)>)
    requires Forward(g, edges) && Backward(h, edges)
    ensures forall x, y :: y in Succ(g, x) <==> (x, y) in edges
    ensures Transposed(g, h)
  {
    hide Succ;
    forall x, y ensures y in Succ(g, x) <==> x in Succ(h, y) {
      assert y in Succ(g, x) <==> (x, y) in edges;
    }
  }

  /** The successor and predecessor maps of an edge list. */
  method BuildAdjacency<T(==, !new)>(edges: seq<(T, T)>) returns (successors: Graph<T>, predecessors: Graph<T>)
    ensures forall x, y :: y in Succ(successors, x) <==> (x, y) in edges
    ensures Transposed(successors, predecessors)
  {
    successors, predecessors := map[], map[];
    assert Forward(successors, edges[..0]) && Backward(predecessors, edges[..0]);
    hide *;
    for i := 0 to |edges|
      invariant Forward(successors, edges[..i])
      invariant Backward(predecessors, edges[..i])
    {
      var (from, to) := edges[i];
      assert edges[..i + 1] == edges[..i] + [(from, to)];
      AddEdge(successors, predecessors, edges[..i], from, to);
      successors := successors[from := InsertNew(Succ(successors, from), to)];
      predecessors := predecessors[to := InsertNew(Succ(predecessors, to), from)];
    }
    assert edges[..|edges|] == edges;
    AdjacencyBuilt(successors, predecessors, edges);
  }

  // ------------------------------------------------------------------- duality

  lemma DualReach<T(!new)>(g: Graph<T>, h: Graph<T>, x: T, y: T)
    requires Transposed(g, h) && Reach(g, x, y)
    ensures Reach(h, y, x)
  {
    var p :| Connects(g, p, x, y);
    var q := seq(|p|, i requires 0 <= i < |p| => p[|p| - 1 - i]);
    forall i | 0 < i < |q| ensures q[i] in Succ(h, q[i - 1]) {
      var j := |p| - i;
      assert p[j] in Succ(g, p[j - 1]);
    }
    assert Connects(h, q, y, x);
  }

  lemma DualReachPlus<T(!new)>(g: Graph<T>, h: Graph<T>, x: T, y: T)
    requires Transposed(g, h) && ReachPlus(g, x, y)
    ensures ReachPlus(h, y, x)
  {
    hide Reach;
    var z :| z in Succ(g, x) && Reach(g, z, y);
    DualReach(g, h, z, y);
    ReachSplit(h, y, z);
    if y == z {
      ReachRefl(h, x);
    } else {
      ReachPlusStep(h, y, z, x);
    }
  }

  /** y is downstream of x exactly when x is upstream of y. */
  lemma ImpactIsDual<T(!new)>(g: Graph<T>, h: Graph<T>, x: T, y: T)
    requires Transposed(g, h)
    ensures y in Downstream(g, x) <==> x in Downstream(h, y)
  {
    hide ReachPlus, Targets;
    if y in Downstream(g, x) {
      DualReachPlus(g, h, x, y);
      ReachPlusTarget(h, y, x);
    }
    if x in Downstream(h, y) {
      DualReachPlus(h, g, y, x);
      ReachPlusTarget(g, x, y);
    }
  }

  // -------------------------------------------------------------- double counting

  ghost function Total<T(!new)>(g: Graph<T>, nodes: seq<T>): nat {
    if nodes == [] then 0 else |Downstream(g, nodes[0])| + Total(g, nodes[1..])
  }

  ghost function Pairs<T(!new)>(g: Graph<T>, nodes: seq<T>): set<(T, T)> {
    set x, y | x in nodes && y in Downstream(g, x) :: (x, y)
  }

  ghost predicate Distinct<T>(xs: seq<T>) {
    forall i, j :: 0 <= i < j < |xs| ==> xs[i] != xs[j]
  }

  lemma {:induction false} RowSize<T>(x: T, ys: set<T>)
    ensures |set y | y in ys :: (x, y)| == |ys|
    decreases ys
  {
    var row := set y | y in ys :: (x, y);
    if ys != {} {
      var y :| y in ys;
      RowSize(x, ys - {y});
      assert row == (set v | v in ys - {y} :: (x, v)) + {(x, y)};
    } else {
      assert row == {};
    }
  }

  lemma {:induction false} TotalCountsPairs<T(!new)>(g: Graph<T>, nodes: seq<T>)
    requires Distinct(nodes)
    ensures Total(g, nodes) == |Pairs(g, nodes)|
  {
    hide Downstream;
    if nodes == [] {
      assert Pairs(g, nodes) == {};
    } else {
      var rest := nodes[1..];
      var row := set y | y in Downstream(g, nodes[0]) :: (nodes[0], y);
      TotalCountsPairs(g, rest);
      RowSize(nodes[0], Downstream(g, nodes[0]));
      assert nodes == [nodes[0]] + rest;
      assert nodes[0] !in rest;
      assert Pairs(g, nodes) == row + Pairs(g, rest);
      assert row !! Pairs(g, rest);
    }
  }

  ghost function Swapped<T>(p: (T, T)): (T, T) {
    (p.1, p.0)
  }

  /** Two sets of pairs that are each other's mirror image have the same size. */
  lemma {:induction false} MirrorSize<T(!new)>(ps: set<(T, T)>, qs: set<(T, T)>)
    requires forall p :: p in ps ==> Swapped(p) in qs
    requires forall q :: q in qs ==> Swapped(q) in ps
    ensures |ps| == |qs|
    decreases ps
  {
    if p :| p in ps {
      var ps', qs' := ps - {p}, qs - {Swapped(p)};
      forall r | r in ps' ensures Swapped(r) in qs' {}
      forall r | r in qs' ensures Swapped(r) in ps' {}
      MirrorSize(ps', qs');
    } else {
      assert qs == {};
    }
  }

  /** Both ends of every edge are listed. */
  ghost predicate HoldsEnds<T(!new)>(g: Graph<T>, nodes: seq<T>) {
    forall x, y {:trigger y in Succ(g, x)} :: y in Succ(g, x) ==> x in nodes && y in nodes
  }

  lemma DownstreamListed<T(!new)>(g: Graph<T>, nodes: seq<T>, x: T, y: T)
    requires HoldsEnds(g, nodes) && y in Downstream(g, x)
    ensures x in nodes && y in nodes
  {
    hide Reach;
    var z :| z in Succ(g, x) && Reach(g, z, y);
    var v, w :| v in g && w in g[v] && w == y;
    assert y in Succ(g, v);
  }

  lemma PairsMirror<T(!new)>(g: Graph<T>, h: Graph<T>, nodes: seq<T>, p: (T, T))
    requires Transposed(g, h) && HoldsEnds(g, nodes) && p in Pairs(g, nodes)
    ensures Swapped(p) in Pairs(h, nodes)
  {
    hide Downstream;
    ImpactIsDual(g, h, p.0, p.1);
    DownstreamListed(g, nodes, p.0, p.1);
  }

  lemma TransposedBack<T(!new)>(g: Graph<T>, h: Graph<T>, nodes: seq<T>)
    requires Transposed(g, h) && HoldsEnds(g, nodes)
    ensures Transposed(h, g) && HoldsEnds(h, nodes)
  {
    forall x, y {:trigger y in Succ(h, x)} | y in Succ(h, x) ensures x in nodes && y in nodes {
      assert x in Succ(g, y);
    }
  }

  /** Over a node list that holds every edge's ends, the downstream counts and the
      upstream counts have the same total. */
  lemma TotalsAgree<T(!new)>(g: Graph<T>, h: Graph<T>, nodes: seq<T>)
    requires Transposed(g, h) && Distinct(nodes) && HoldsEnds(g, nodes)
    ensures Total(g, nodes) == Total(h, nodes)
  {
    hide Transposed, HoldsEnds;
    TransposedBack(g, h, nodes);
    TotalCountsPairs(g, nodes);
    TotalCountsPairs(h, nodes);
    forall p | p in Pairs(g, nodes) ensures Swapped(p) in Pairs(h, nodes) {
      PairsMirror(g, h, nodes, p);
    }
    forall q | q in Pairs(h, nodes) ensures Swapped(q) in Pairs(g, nodes) {
      PairsMirror(h, g, nodes, q);
    }
    MirrorSize(Pairs(g, nodes), Pairs(h, nodes));
  }

  // ------------------------------------------------------- members of one cycle

  lemma MutualShare<T(!new)>(g: Graph<T>, x: T, y: T)
    requires Mutual(g, x, y) && x != y
    ensures Downstream(g, x) <= Downstream(g, y) + {y}
    ensures y in Downstream(g, x)
  {
    hide Reach;
    forall z | z in Downstream(g, x) && z != y ensures z in Downstream(g, y) {
      ReachSplit(g, x, z);
      ReachTrans(g, y, x, z);
      ReachSplit(g, y, z);
    }
    ReachSplit(g, x, y);
    ReachPlusTarget(g, x, y);
  }

  lemma MutualSameCount<T(!new)>(g: Graph<T>, x: T, y: T)
    requires Mutual(g, x, y)
    ensures |Downstream(g, x)| == |Downstream(g, y)|
  {
    hide Downstream, Reach;
    if x != y {
      MutualShare(g, x, y);
      MutualShare(g, y, x);
      DownstreamIrreflexive(g, x);
      DownstreamIrreflexive(g, y);
      assert Downstream(g, x) + {x} == Downstream(g, y) + {y};
    }
  }

  lemma DownstreamIrreflexive<T(!new)>(g: Graph<T>, x: T)
    ensures x !in Downstream(g, x)
  {
  }

  /** All members of one component have equal downstream and equal upstream counts. */
  lemma CycleMembersShareImpact<T(!new)>(g: Graph<T>, h: Graph<T>, starts: seq<T>, comps: seq<seq<T>>, a: nat, x: T,
                                  y: T)
    requires Transposed(g, h) && Tarjan.IsPartition(g, starts, comps)
    requires a < |comps| && x in comps[a] && y in comps[a]
    ensures |Downstream(g, x)| == |Downstream(g, y)|
    ensures |Downstream(h, x)| == |Downstream(h, y)|
  {
    hide Downstream, Reach, Tarjan.NoRepeats;
    assert Mutual(g, x, y);
    MutualSameCount(g, x, y);
    DualReach(g, h, x, y);
    DualReach(g, h, y, x);
    MutualSameCount(h, x, y);
  }
}
