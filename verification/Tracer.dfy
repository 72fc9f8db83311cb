/** The traversal as it runs: one object whose maps and counters the steps update,
    each step proved to do what the functional trace says. */
module DependencyTracer {
  import opened Wrappers
  import opened ArcGisRest
  import opened JsonText
  import opened Sorting
  import opened TraceModel

  class Tracer {
    const p: Portal
    const lim: Limits
    const sha: Text -> Text
    var nodes: map<NodeId, Node>
    var edges: set<Edge>
    var truncationReasons: set<Reason>
    var requestCount: nat
    var bytesUsed: nat
    var requests: seq<Evidence<Query>>
    var successfulRequests: nat

    constructor (p: Portal, lim: Limits, sha: Text -> Text)
      ensures this.p == p && this.lim == lim && this.sha == sha
      ensures NowGraph() == Graph(map[], {}, {}) && NowBudget() == Budget(0, 0, [], 0)
    {
      this.p, this.lim, this.sha := p, lim, sha;
      nodes, edges, truncationReasons := map[], {}, {};
      requestCount, bytesUsed, requests, successfulRequests := 0, 0, [], 0;
    }

    function NowGraph(): Graph
      reads this
    {
      Graph(nodes, edges, truncationReasons)
    }

    function NowBudget(): Budget<Query>
      reads this
    {
      Budget(requestCount, bytesUsed, requests, successfulRequests)
    }

    function Now(next: seq<Text>): State
      reads this
    {
      State(Found(NowGraph(), next), NowBudget())
    }

    /** Adds an item unless it is there; answers whether it is there now. */
    method EnsureItemNode(itemId: Text, depth: nat, isRoot: bool) returns (there: bool)
      modifies this`nodes, this`truncationReasons
      ensures (NowGraph(), there) == EnsureNode(old(NowGraph()), lim, Item(itemId), NewItem(depth, isRoot))
    {
      var nodeId := Item(itemId);
      if nodeId in nodes {
        return true;
      }
      if |nodes| >= lim.maxNodes {
        truncationReasons := truncationReasons + {NodeCeiling};
        return false;
      }
      nodes := nodes[nodeId := Node(None, None, Unfetched, false, depth, isRoot)];
      there := true;
    }

    /** Adds a service node unless it is there; a node of another URL is a failure. */
    method EnsureServiceNode(url: Text) returns (r: Result<bool, Stop>)
      modifies this`nodes, this`truncationReasons
      ensures var id := Service(sha(url));
              if id in old(nodes) && old(nodes)[id].url != Some(url)
              then r == Err(ServiceCollision) && NowGraph() == old(NowGraph())
              else
                && r.Ok?
                && (NowGraph(), r.value)
                == EnsureNode(old(NowGraph()), lim, id, Node(Some(url), None, ServiceReference, false, 0, false))
    {
      var nodeId := Service(sha(url));
      if nodeId in nodes {
        if nodes[nodeId].url != Some(url) {
          return Err(ServiceCollision);
        }
        return Ok(true);
      }
      if |nodes| >= lim.maxNodes {
        truncationReasons := truncationReasons + {NodeCeiling};
        return Ok(false);
      }
      nodes := nodes[nodeId := Node(Some(url), None, ServiceReference, false, 0, false)];
      r := Ok(true);
    }

    method AddEdge(from: NodeId, to: NodeId, rel: Text, loc: Text) returns (linked: bool)
      modifies this`edges, this`truncationReasons
      ensures (NowGraph(), linked) == TraceModel.AddEdge(old(NowGraph()), lim, Edge(from, to, rel, loc))
    {
      var e := Edge(from, to, rel, loc);
      if e in edges {
        return true;
      }
      if |edges| >= lim.maxEdges {
        truncationReasons := truncationReasons + {EdgeCeiling};
        return false;
      }
      edges := edges + {e};
      linked := true;
    }

    /** Dispatches one request and keeps the books on it. */
    method TraceRequest<T>(query: Query, reply: Reply<T>) returns (r: Result<T, Failure>)
      modifies this`requestCount, this`bytesUsed, this`requests, this`successfulRequests
      ensures (NowBudget(), r) == Request(old(NowBudget()), lim.ceilings, query, reply)
    {
      requestCount := requestCount + 1;
      if bytesUsed >= lim.ceilings.maxTotalBytes {
        return Err(TotalBytesSpent);
      }
      var left := lim.ceilings.maxTotalBytes - bytesUsed;
      r := Judge(reply, if left < lim.ceilings.maxResponseBytes then left else lim.ceilings.maxResponseBytes);
      if !reply.Lost? {
        bytesUsed := bytesUsed + reply.bytes;
        requests := requests + [Evidence(query, reply.bytes)];
        if r.Ok? {
          successfulRequests := successfulRequests + 1;
        }
      }
    }

    /** Follows one reference; the collision failure never comes back from here. */
    method FollowRef(from: NodeId, depth: nat, ref: Ref, next: seq<Text>)
      returns (next': seq<Text>, fault: Option<Stop>)
      modifies this`nodes, this`edges, this`truncationReasons
      ensures fault.None?
      ensures Found(NowGraph(), next') == FollowOne(Found(old(NowGraph()), next), lim, from, depth, ref, sha)
    {
      next', fault := next, None;
      var targetId := TargetOf(ref, sha);
      var existing := targetId in nodes;
      if !existing && |edges| >= lim.maxEdges {
        truncationReasons := truncationReasons + {EdgeCeiling};
        return;
      }
      match ref
      case ItemRef(itemId, rel, loc) =>
        var target := true;
        if !existing {
          target := EnsureItemNode(itemId, depth + 1, false);
        }
        if !target {
          return;
        }
        var linked := AddEdge(from, targetId, rel, loc);
        if linked && !existing {
          next' := next + [itemId];
        }
      case ServiceRef(url, rel, loc) =>
        if !existing {
          var target := EnsureServiceNode(url);
          match target
          case Err(f) => return next, Some(f);
          case Ok(there) =>
            if !there {
              return;
            }
            nodes := nodes[targetId := nodes[targetId].(depth := depth + 1)];
        }
        var _ := AddEdge(from, targetId, rel, loc);
    }

    /** Follows the references in canonical order. */
    method FollowRefs(from: NodeId, depth: nat, refs: seq<Ref>, next: seq<Text>)
      returns (next': seq<Text>, fault: Option<Stop>)
      modifies this`nodes, this`edges, this`truncationReasons
      ensures fault.None?
      ensures Found(NowGraph(), next')
           == Follow(Found(old(NowGraph()), next), lim, from, depth, Sort(RefKey, refs), sha)
    {
      hide Sort, RefKey, FollowOne;
      next', fault := next, None;
      var sorted := Sort(RefKey, refs);
      ghost var start := Found(NowGraph(), next);
      for i := 0 to |sorted|
        invariant fault.None?
        invariant Found(NowGraph(), next') == Follow(start, lim, from, depth, sorted[..i], sha)
      {
        assert sorted[..i + 1][..i] == sorted[..i];
        next', fault := FollowRef(from, depth, sorted[i], next');
      }
      assert sorted[..|sorted|] == sorted;
    }

    /** The answer of a step: the state it reached, or the failure that ends the run. */
    ghost predicate Answers(next: seq<Text>, fault: Option<Stop>, r: Result<State, Stop>)
      reads this
    {
      match r
      case Ok(s) => fault.None? && Now(next) == s
      case Err(f) => fault == Some(f)
    }

    method ExpandItem(itemId: Text, depth: nat, next: seq<Text>) returns (next': seq<Text>, fault: Option<Stop>)
      requires Item(itemId) in nodes
      modifies this
      ensures Answers(next', fault, Expand(old(Now(next)), lim, p, sha, itemId, depth))
    {
      hide Request, Follow, Sort, RefsIn, Tolerated;
      next', fault := next, None;
      var nodeId := Item(itemId);
      var data := TraceRequest(DataOf(itemId), p.data(itemId));
      match data
      case Err(f) => fault := if Tolerated(f) then None else Some(Refused(f));
      case Ok(content) =>
        nodes := nodes[nodeId := nodes[nodeId].(expanded := true)];
        next', fault := FollowRefs(nodeId, depth, RefsIn(content, nodes[nodeId].itemType), next);
    }

    /** One item of a level: its metadata, and its data if it may hold references. */
    method VisitItem(itemId: Text, depth: nat, next: seq<Text>) returns (next': seq<Text>, fault: Option<Stop>)
      requires Item(itemId) in nodes
      modifies this
      ensures Answers(next', fault, Visit(old(Now(next)), lim, p, sha, itemId, depth))
    {
      hide Request, Lower, Expand, IsExpandable, Tolerated;
      next', fault := next, None;
      var nodeId := Item(itemId);
      if requestCount >= lim.ceilings.maxRequests {
        truncationReasons := truncationReasons + {RequestCeiling};
        return;
      }
      var metadata := TraceRequest(MetaOf(itemId), p.meta(itemId));
      match metadata
      case Err(f) =>
        if !Tolerated(f) {
          return next, Some(Refused(f));
        }
        nodes := nodes[nodeId := nodes[nodeId].(support := Missing)];
      case Ok(m) =>
        if m.echo.Some? && Lower(m.echo.value) != itemId {
          return next, Some(IdentityMismatch);
        }
        var expandable := IsExpandable(m.itemType);
        var support := if expandable then Expandable else Terminal;
        nodes := nodes[nodeId := nodes[nodeId].(itemType := m.itemType, support := support)];
        if !expandable {
          return;
        }
        if depth >= lim.maxDepth {
          truncationReasons := truncationReasons + {DepthCeiling(itemId, depth)};
          return;
        }
        if requestCount >= lim.ceilings.maxRequests {
          truncationReasons := truncationReasons + {RequestCeiling};
          return;
        }
        next', fault := ExpandItem(itemId, depth, next);
    }

    /** The items of one level, in canonical order. */
    method VisitLevel(level: seq<Text>, depth: nat) returns (next: seq<Text>, fault: Option<Stop>)
      requires forall id :: id in level ==> Item(id) in nodes
      modifies this
      ensures Answers(next, fault, VisitAll(old(Now([])), lim, p, sha, level, depth))
    {
      hide Visit;
      next, fault := [], None;
      ghost var start := Now([]);
      for i := 0 to |level|
        invariant fault.None? && VisitAll(start, lim, p, sha, level[..i], depth) == Ok(Now(next))
      {
        assert level[..i + 1][..i] == level[..i] && level[i] in level;
        next, fault := VisitItem(level[i], depth, next);
        if fault.Some? {
          FailsForGood(start, lim, p, sha, level, i + 1, depth);
          return;
        }
      }
      assert level[..|level|] == level;
    }

    /** The whole run: roots, then level after level. */
    method TraceDependencies(roots: seq<Text>) returns (r: Result<Graph, Stop>)
      requires NowGraph() == Graph(map[], {}, {}) && NowBudget() == Budget(0, 0, [], 0)
      modifies this
      ensures match Trace(p, roots, lim, sha)
              case Err(f) => r == Err(f)
              case Ok(s) => r == Ok(s.found.graph) && Now([]).budget == s.budget
    {
      hide Walk, AddRoots;
      var level := AddRootNodes(roots);
      var fault := WalkLevels(level);
      if fault.Some? {
        return Err(fault.value);
      }
      if successfulRequests == 0 || requests == [] {
        return Err(NothingSucceeded);
      }
      r := Ok(Graph(nodes, edges, truncationReasons));
    }

    method WalkLevels(first: seq<Text>) returns (fault: Option<Stop>)
      requires forall id :: id in first ==> Item(id) in nodes
      modifies this
      ensures Answers([], fault, Walk(old(Now(first)), lim, p, sha, first, 0))
    {
      hide VisitAll, Sort;
      var level, depth := first, 0;
      ghost var start := Now(first);
      while level != []
        invariant forall id :: id in level ==> Item(id) in nodes
        invariant level != [] ==> depth <= lim.maxDepth
        invariant Walk(Now(level), lim, p, sha, level, depth) == Walk(start, lim, p, sha, first, 0)
        decreases lim.maxDepth + 1 - depth
      {
        SortKeeps(ItemKey, level);
        level, fault := VisitLevel(Sort(ItemKey, level), depth);
        if fault.Some? {
          return;
        }
        depth := depth + 1;
      }
      fault := None;
    }

    method AddRootNodes(roots: seq<Text>) returns (level: seq<Text>)
      requires NowGraph() == Graph(map[], {}, {})
      modifies this`nodes, this`truncationReasons
      ensures Found(NowGraph(), level) == AddRoots(CanonicalRoots(roots), lim)
    {
      hide CanonicalRoots;
      var ids := CanonicalRoots(roots);
      level := [];
      for i := 0 to |ids|
        invariant Found(NowGraph(), level) == AddRoots(ids[..i], lim)
      {
        assert ids[..i + 1][..i] == ids[..i];
        var there := EnsureItemNode(ids[i], 0, true);
        if there {
          level := level + [ids[i]];
        }
      }
      assert ids[..|ids|] == ids;
    }
  }

  /** A level that has failed stays failed. */
  lemma {:induction false} FailsForGood(s: State, lim: Limits, p: Portal, sha: Text -> Text, level: seq<Text>, n: nat,
                                        depth: nat)
    requires n <= |level| && forall id :: id in level ==> Item(id) in s.found.graph.nodes
    requires VisitAll(s, lim, p, sha, level[..n], depth).Err?
    ensures VisitAll(s, lim, p, sha, level, depth) == VisitAll(s, lim, p, sha, level[..n], depth)
    decreases |level|
  {
    hide Visit;
    if n == |level| {
      assert level[..n] == level;
    } else {
      var init := level[..|level| - 1];
      assert init[..n] == level[..n];
      FailsForGood(s, lim, p, sha, init, n, depth);
    }
  }
}
