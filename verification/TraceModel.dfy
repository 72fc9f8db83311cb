/** One dependency trace as a function of what the portal answers: requests under
    a budget, the growth of the graph under its ceilings, and the level-order walk. */
module TraceModel {
  import opened Wrappers
  import opened ArcGisRest
  import opened JsonText
  import opened Sorting

  function LowerUnit(u: Unit): Unit {
    if 0x41 <= u <= 0x5A then u + 0x20 else u
  }

  function Lower(t: Text): (r: Text)
    ensures |r| == |t|
  {
    seq(|t|, i requires 0 <= i < |t| => LowerUnit(t[i]))
  }

  // -------------------------------------------------------------------- requests

  datatype Query = MetaOf(item: Text) | DataOf(item: Text)

  datatype Limits = Limits(maxDepth: nat, maxNodes: nat, maxEdges: nat, ceilings: Ceilings)

  /** What ends a trace: a request's failure, a portal that answers for another item,
      a collision of service identities, or the lack of any success. */
  datatype Stop = Refused(failure: Failure) | IdentityMismatch | ServiceCollision | NothingSucceeded

  // ----------------------------------------------------------------------- graph

  datatype NodeId = Item(id: Text) | Service(hash: Text)

  datatype Support = Unfetched | Missing | Expandable | Terminal | ServiceReference

  datatype Node = Node(url: Option<Text>, itemType: Option<Text>, support: Support,
                       expanded: bool, depth: nat, isRoot: bool)

  datatype Edge = Edge(from: NodeId, to: NodeId, rel: Text, loc: Text)

  datatype Reason = NodeCeiling | EdgeCeiling | RequestCeiling | DepthCeiling(item: Text, depth: nat)

  datatype Graph = Graph(nodes: map<NodeId, Node>, edges: set<Edge>, reasons: set<Reason>)

  /** A reference that item data holds to another item or to a service. */
  datatype Ref = ItemRef(id: Text, rel: Text, loc: Text) | ServiceRef(url: Text, rel: Text, loc: Text)

  const SPACE: Unit := 0x20

  /** The text that orders references. */
  function RefKey(r: Ref): Text {
    match r
    case ItemRef(id, rel, loc) => Ascii("item") + ([SPACE] + (id + ([SPACE] + (rel + ([SPACE] + loc)))))
    case ServiceRef(url, rel, loc) => Ascii("service") + ([SPACE] + (url + ([SPACE] + (rel + ([SPACE] + loc)))))
  }

  function ItemKey(id: Text): Text {
    Ascii("item:") + id
  }

  function Same(t: Text): Text { t }

  function TargetOf(r: Ref, sha: Text -> Text): NodeId {
    match r
    case ItemRef(id, _, _) => Item(id)
    case ServiceRef(url, _, _) => Service(sha(url))
  }

  function EdgeOf(from: NodeId, r: Ref, sha: Text -> Text): Edge {
    Edge(from, TargetOf(r, sha), r.rel, r.loc)
  }

  function NewItem(depth: nat, isRoot: bool): Node {
    Node(None, None, Unfetched, false, depth, isRoot)
  }

  function NewTarget(r: Ref, depth: nat): Node {
    match r
    case ItemRef(_, _, _) => NewItem(depth, false)
    case ServiceRef(url, _, _) => Node(Some(url), None, ServiceReference, false, depth, false)
  }

  function Because(g: Graph, reason: Reason): Graph {
    g.(reasons := g.reasons + {reason})
  }

  /** Adds a node unless it is there; the flag says whether it is there now. */
  function EnsureNode(g: Graph, lim: Limits, id: NodeId, node: Node): (Graph, bool) {
    if id in g.nodes then (g, true)
    else if |g.nodes| >= lim.maxNodes then (Because(g, NodeCeiling), false)
    else (g.(nodes := g.nodes[id := node]), true)
  }

  function AddEdge(g: Graph, lim: Limits, e: Edge): (Graph, bool) {
    if e in g.edges then (g, true)
    else if |g.edges| >= lim.maxEdges then (Because(g, EdgeCeiling), false)
    else (g.(edges := g.edges + {e}), true)
  }

  /** Follows one reference; the flag says whether it discovered an item to visit. */
  function AddRef(g: Graph, lim: Limits, from: NodeId, depth: nat, r: Ref, sha: Text -> Text): (Graph, bool) {
    var target := TargetOf(r, sha);
    var existing := target in g.nodes;
    if !existing && |g.edges| >= lim.maxEdges then (Because(g, EdgeCeiling), false)
    else
      var (g1, there) := EnsureNode(g, lim, target, NewTarget(r, depth + 1));
      if !there then (g1, false)
      else
        var (g2, linked) := AddEdge(g1, lim, EdgeOf(from, r, sha));
        (g2, linked && !existing && r.ItemRef?)
  }

  datatype Found = Found(graph: Graph, next: seq<Text>)

  function FollowOne(f: Found, lim: Limits, from: NodeId, depth: nat, r: Ref, sha: Text -> Text): Found {
    var (g, discovered) := AddRef(f.graph, lim, from, depth, r, sha);
    Found(g, if discovered && r.ItemRef? then f.next + [r.id] else f.next)
  }

  function Follow(f: Found, lim: Limits, from: NodeId, depth: nat, refs: seq<Ref>, sha: Text -> Text): Found
    decreases |refs|
  {
    if refs == [] then f
    else FollowOne(Follow(f, lim, from, depth, refs[..|refs| - 1], sha), lim, from, depth, refs[|refs| - 1], sha)
  }

  // ------------------------------------------------------------------------ walk

  datatype Meta = Meta(echo: Option<Text>, itemType: Option<Text>)

  /** The references that each of the two parsers reads from item data. */
  datatype Content = Content(asApplication: seq<Ref>, asMap: seq<Ref>)

  /** The portal: its answer to every metadata and data request. */
  datatype Portal = Portal(meta: Text -> Reply<Meta>, data: Text -> Reply<Content>)

  predicate IsExpandable(t: Option<Text>) {
    t == Some(Ascii("Web Mapping Application")) || t == Some(Ascii("Web Map"))
  }

  function RefsIn(c: Content, t: Option<Text>): seq<Ref> {
    if t == Some(Ascii("Web Mapping Application")) then c.asApplication else c.asMap
  }

  datatype State = State(found: Found, budget: Budget<Query>)

  function SetNode(f: Found, id: NodeId, n: Node): Found {
    f.(graph := f.graph.(nodes := f.graph.nodes[id := n]))
  }

  function Reasoned(s: State, reason: Reason): State {
    s.(found := s.found.(graph := Because(s.found.graph, reason)))
  }

  /** Fetches the data of an expandable item and follows its references in order. */
  function Expand(s: State, lim: Limits, p: Portal, sha: Text -> Text, id: Text, depth: nat): Result<State, Stop>
    requires Item(id) in s.found.graph.nodes
  {
    var (b, r) := Request(s.budget, lim.ceilings, DataOf(id), p.data(id));
    match r
    case Err(f) => if Tolerated(f) then Ok(s.(budget := b)) else Err(Refused(f))
    case Ok(content) =>
      var n := s.found.graph.nodes[Item(id)];
      var refs := Sort(RefKey, RefsIn(content, n.itemType));
      Ok(State(Follow(SetNode(s.found, Item(id), n.(expanded := true)), lim, Item(id), depth, refs, sha), b))
  }

  /** What happens to an item once its metadata is known. */
  function Classify(s: State, lim: Limits, p: Portal, sha: Text -> Text, id: Text, depth: nat, itemType: Option<Text>)
    : Result<State, Stop>
    requires Item(id) in s.found.graph.nodes
  {
    var support := if IsExpandable(itemType) then Expandable else Terminal;
    var n := s.found.graph.nodes[Item(id)].(itemType := itemType, support := support);
    var known := s.(found := SetNode(s.found, Item(id), n));
    if !IsExpandable(itemType) then Ok(known)
    else if depth >= lim.maxDepth then Ok(Reasoned(known, DepthCeiling(id, depth)))
    else if s.budget.requestCount >= lim.ceilings.maxRequests then Ok(Reasoned(known, RequestCeiling))
    else Expand(known, lim, p, sha, id, depth)
  }

  /** One item of a level. */
  function Visit(s: State, lim: Limits, p: Portal, sha: Text -> Text, id: Text, depth: nat): Result<State, Stop>
    requires Item(id) in s.found.graph.nodes
  {
    if s.budget.requestCount >= lim.ceilings.maxRequests then Ok(Reasoned(s, RequestCeiling))
    else
      var (b, r) := Request(s.budget, lim.ceilings, MetaOf(id), p.meta(id));
      match r
      case Err(f) =>
        if Tolerated(f) then
          var n := s.found.graph.nodes[Item(id)].(support := Missing);
          Ok(State(SetNode(s.found, Item(id), n), b))
        else Err(Refused(f))
      case Ok(m) =>
        if m.echo.Some? && Lower(m.echo.value) != id then Err(IdentityMismatch)
        else Classify(s.(budget := b), lim, p, sha, id, depth, m.itemType)
  }

  /** Nodes are never removed, and only items that are nodes wait to be visited. */
  ghost predicate Grown(f: Found, r: Found) {
    && f.graph.nodes.Keys <= r.graph.nodes.Keys
    && ((forall id :: id in f.next ==> Item(id) in f.graph.nodes) ==>
          forall id :: id in r.next ==> Item(id) in r.graph.nodes)
  }

  lemma {:induction false} FollowGrows(f: Found, lim: Limits, from: NodeId, depth: nat, refs: seq<Ref>,
                                       sha: Text -> Text)
    ensures Grown(f, Follow(f, lim, from, depth, refs, sha))
    decreases |refs|
  {
    if refs != [] {
      FollowGrows(f, lim, from, depth, refs[..|refs| - 1], sha);
    }
  }

  lemma ExpandGrows(s: State, lim: Limits, p: Portal, sha: Text -> Text, id: Text, depth: nat)
    requires Item(id) in s.found.graph.nodes
    ensures var r := Expand(s, lim, p, sha, id, depth);
            r.Ok? ==> Grown(s.found, r.value.found)
  {
    hide Request, Follow, Sort, RefsIn;
    var (b, r) := Request(s.budget, lim.ceilings, DataOf(id), p.data(id));
    if r.Ok? {
      var n := s.found.graph.nodes[Item(id)];
      FollowGrows(SetNode(s.found, Item(id), n.(expanded := true)), lim, Item(id), depth,
                  Sort(RefKey, RefsIn(r.value, n.itemType)), sha);
    }
  }

  lemma VisitGrows(s: State, lim: Limits, p: Portal, sha: Text -> Text, id: Text, depth: nat)
    requires Item(id) in s.found.graph.nodes
    ensures var r := Visit(s, lim, p, sha, id, depth);
            r.Ok? ==> Grown(s.found, r.value.found) && (depth >= lim.maxDepth ==> r.value.found.next == s.found.next)
  {
    hide Request, Expand, IsExpandable, Lower;
    var (b, r) := Request(s.budget, lim.ceilings, MetaOf(id), p.meta(id));
    if r.Ok? {
      var support := if IsExpandable(r.value.itemType) then Expandable else Terminal;
      var n := s.found.graph.nodes[Item(id)].(itemType := r.value.itemType, support := support);
      var known := s.(budget := b).(found := SetNode(s.found, Item(id), n));
      ExpandGrows(known, lim, p, sha, id, depth);
    }
  }

  /** The items of a level, first to last. */
  function VisitAll(s: State, lim: Limits, p: Portal, sha: Text -> Text, level: seq<Text>, depth: nat)
    : (r: Result<State, Stop>)
    requires forall id :: id in level ==> Item(id) in s.found.graph.nodes
    ensures r.Ok? ==> Grown(s.found, r.value.found) && (depth >= lim.maxDepth ==> r.value.found.next == s.found.next)
    decreases |level|
  {
    if level == [] then Ok(s)
    else
      var n := |level| - 1;
      match VisitAll(s, lim, p, sha, level[..n], depth)
      case Err(f) => Err(f)
      case Ok(t) =>
        assert level[n] in level;
        VisitGrows(t, lim, p, sha, level[n], depth);
        Visit(t, lim, p, sha, level[n], depth)
  }

  function Descend(s: State): State {
    s.(found := s.found.(next := []))
  }

  /** Level after level, until none is left. */
  function Walk(s: State, lim: Limits, p: Portal, sha: Text -> Text, level: seq<Text>, depth: nat): Result<State, Stop>
    requires forall id :: id in level ==> Item(id) in s.found.graph.nodes
    requires level != [] ==> depth <= lim.maxDepth
    decreases lim.maxDepth + 1 - depth
  {
    if level == [] then Ok(Descend(s))
    else
      SortKeeps(ItemKey, level);
      match VisitAll(Descend(s), lim, p, sha, Sort(ItemKey, level), depth)
      case Err(f) => Err(f)
      case Ok(t) => Walk(t, lim, p, sha, t.found.next, depth + 1)
  }

  function LowerAll(roots: seq<Text>): (r: seq<Text>)
    ensures |r| == |roots| && forall i :: 0 <= i < |roots| ==> r[i] == Lower(roots[i])
  {
    seq(|roots|, i requires 0 <= i < |roots| => Lower(roots[i]))
  }

  function CanonicalRoots(roots: seq<Text>): seq<Text> {
    Sort(Same, Unique(LowerAll(roots)))
  }

  function AddRoot(f: Found, lim: Limits, id: Text): Found {
    var (g, there) := EnsureNode(f.graph, lim, Item(id), NewItem(0, true));
    Found(g, if there then f.next + [id] else f.next)
  }

  /** Adds the roots while the node ceiling allows it. */
  function AddRoots(ids: seq<Text>, lim: Limits): (r: Found)
    ensures forall id :: id in r.next ==> Item(id) in r.graph.nodes
    decreases |ids|
  {
    if ids == [] then Found(Graph(map[], {}, {}), [])
    else
      AddRoot(AddRoots(ids[..|ids| - 1], lim), lim, ids[|ids| - 1])
  }

  /** The whole trace. */
  function Trace(p: Portal, roots: seq<Text>, lim: Limits, sha: Text -> Text): Result<State, Stop> {
    var start := AddRoots(CanonicalRoots(roots), lim);
    match Walk(State(start, Budget(0, 0, [], 0)), lim, p, sha, start.next, 0)
    case Err(f) => Err(f)
    case Ok(s) => if s.budget.successes == 0 || s.budget.evidence == [] then Err(NothingSucceeded) else Ok(s)
  }
}
