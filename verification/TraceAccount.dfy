/** What a completed trace says of every item, told from the portal's answers: what was
    asked, what was learned, whether the item was expanded, and why not if it was not.
    A reason for truncation is there exactly when something was left out for it. */
module TraceAccount {
  import opened Wrappers
  import opened ArcGisRest
  import opened JsonText
  import opened Sorting
  import opened TraceModel
  import opened TraceShape
  import opened TraceRun

  // ------------------------------------------------------------------- the answers

  /** The portal has no such item, or none for this identity: a status from 400 to 499,
      or an error envelope in a successful response. */
  ghost predicate Missed<T>(reply: Reply<T>) {
    && reply.Received?
    && (400 <= reply.status < 500 || (reply.status == 200 && reply.textual && reply.body.ErrorEnvelope?))
  }

  /** A successful response with this content. */
  ghost predicate Gave<T>(reply: Reply<T>, value: T) {
    reply.Received? && reply.status == 200 && reply.textual && reply.body == Json(value)
  }

  /** Two texts that differ in the case of letters from A to Z only. */
  ghost predicate SameLetters(a: Text, lower: Text) {
    && |a| == |lower|
    && forall i :: 0 <= i < |a| ==> lower[i] == if 0x41 <= a[i] <= 0x5A then a[i] + 0x20 else a[i]
  }

  /** The two types of items whose data is read. */
  ghost predicate HoldsReferences(itemType: Option<Text>) {
    itemType == Some(Ascii("Web Mapping Application")) || itemType == Some(Ascii("Web Map"))
  }

  // --------------------------------------------------------------------- the account

  ghost predicate Fresh(n: Node) {
    n.url.None? && n.itemType.None? && n.support.Unfetched? && !n.expanded
  }

  ghost predicate IsService(hash: Text, n: Node, sha: Text -> Text) {
    && n.url.Some? && sha(n.url.value) == hash && n.itemType.None? && n.support.ServiceReference? && !n.expanded
  }

  /** What became of an item whose type is known. */
  ghost predicate Settled(id: Text, n: Node, reasons: set<Reason>, ev: seq<Evidence<Query>>, p: Portal, lim: Limits) {
    if !HoldsReferences(n.itemType) then n.support.Terminal? && !n.expanded && !Asked(ev, DataOf(id))
    else
      && n.support.Expandable?
      && if n.depth >= lim.maxDepth then
           !n.expanded && !Asked(ev, DataOf(id)) && DepthCeiling(id, n.depth) in reasons
         else if !Asked(ev, DataOf(id)) then !n.expanded && RequestCeiling in reasons
         else if Missed(p.data(id)) then !n.expanded
         else n.expanded && exists c :: Gave(p.data(id), c)
  }

  ghost predicate Learned(id: Text, n: Node, p: Portal, m: Meta) {
    && Gave(p.meta(id), m) && n.itemType == m.itemType
    && (m.echo.Some? ==> SameLetters(m.echo.value, id))
  }

  /** What became of an item: not asked for at the request ceiling, missing, or known. */
  ghost predicate Accounted(id: Text, n: Node, reasons: set<Reason>, ev: seq<Evidence<Query>>, p: Portal, lim: Limits) {
    && n.url.None?
    && if !Asked(ev, MetaOf(id)) then Fresh(n) && RequestCeiling in reasons && !Asked(ev, DataOf(id))
       else if Missed(p.meta(id)) then
         n.itemType.None? && n.support.Missing? && !n.expanded && !Asked(ev, DataOf(id))
       else (exists m :: Learned(id, n, p, m)) && Settled(id, n, reasons, ev, p, lim)
  }

  predicate Visited(nodes: Nodes, id: Text, done: seq<Text>, d: nat)
    requires Item(id) in nodes
  {
    nodes[Item(id)].depth < d || id in done
  }

  ghost predicate ItemTold(id: Text, s: State, done: seq<Text>, d: nat, p: Portal, lim: Limits)
    requires Item(id) in s.found.graph.nodes
  {
    var n := s.found.graph.nodes[Item(id)];
    if Visited(s.found.graph.nodes, id, done, d)
    then Accounted(id, n, s.found.graph.reasons, s.budget.evidence, p, lim) else Fresh(n)
  }

  ghost predicate ItemsTold(s: State, done: seq<Text>, d: nat, p: Portal, lim: Limits) {
    forall id {:trigger Item(id) in s.found.graph.nodes} :: Item(id) in s.found.graph.nodes ==>
      ItemTold(id, s, done, d, p, lim)
  }

  ghost predicate ServicesTold(nodes: Nodes, sha: Text -> Text) {
    forall n :: n in nodes && n.Service? ==> IsService(n.hash, nodes[n], sha)
  }

  /** A reason is there only when its ceiling was reached, and the depth ceiling only for
      an item that it kept from being expanded. */
  ghost predicate ReasonHolds(r: Reason, s: State, done: seq<Text>, d: nat, lim: Limits) {
    match r
    case NodeCeiling => |s.found.graph.nodes| >= lim.maxNodes
    case EdgeCeiling => |s.found.graph.edges| >= lim.maxEdges
    case RequestCeiling => s.budget.requestCount >= lim.ceilings.maxRequests
    case DepthCeiling(id, k) =>
      && Item(id) in s.found.graph.nodes && Visited(s.found.graph.nodes, id, done, d)
      && var n := s.found.graph.nodes[Item(id)];
      && n.depth == k >= lim.maxDepth && HoldsReferences(n.itemType) && !n.expanded
  }

  ghost predicate ReasonsHold(s: State, done: seq<Text>, d: nat, lim: Limits) {
    forall r :: r in s.found.graph.reasons ==> ReasonHolds(r, s, done, d, lim)
  }

  /** A record is about a received response, and has its size. */
  ghost predicate Recorded(e: Evidence<Query>, p: Portal, lim: Limits) {
    match e.query
    case MetaOf(id) => p.meta(id).Received? && e.bytes == p.meta(id).bytes <= lim.ceilings.maxResponseBytes
    case DataOf(id) => p.data(id).Received? && e.bytes == p.data(id).bytes <= lim.ceilings.maxResponseBytes
  }

  /** The answer brought usable content. */
  ghost predicate Useful(e: Evidence<Query>, p: Portal) {
    match e.query
    case MetaOf(id) => exists m :: Gave(p.meta(id), m)
    case DataOf(id) => exists c :: Gave(p.data(id), c)
  }

  /** Every record is right, and successes are counted when there are some. */
  ghost predicate Books(b: Budget<Query>, p: Portal, lim: Limits) {
    && (forall e :: e in b.evidence ==> Recorded(e, p, lim))
    && (b.successes > 0 <==> exists e :: e in b.evidence && Useful(e, p))
  }

  ghost predicate Told(s: State, done: seq<Text>, d: nat, p: Portal, lim: Limits, sha: Text -> Text) {
    && ItemsTold(s, done, d, p, lim) && ServicesTold(s.found.graph.nodes, sha)
    && ReasonsHold(s, done, d, lim) && Books(s.budget, p, lim)
  }

  // ---------------------------------------------------------------- following references

  /** What following references may add: fresh items and services one level down, and
      reasons whose ceiling has been reached. */
  ghost predicate Extends(g: Graph, g': Graph, d: nat, lim: Limits, sha: Text -> Text) {
    && (forall n :: n in g.nodes ==> n in g'.nodes && g'.nodes[n] == g.nodes[n])
    && (forall n :: n in g'.nodes && n !in g.nodes ==>
          && g'.nodes[n].depth == d + 1
          && if n.Item? then Fresh(g'.nodes[n]) else IsService(n.hash, g'.nodes[n], sha))
    && g.edges <= g'.edges && g.reasons <= g'.reasons
    && forall r :: r in g'.reasons && r !in g.reasons ==>
         || (r.NodeCeiling? && |g'.nodes| >= lim.maxNodes)
         || (r.EdgeCeiling? && |g'.edges| >= lim.maxEdges)
  }

  lemma NodesGrow(nodes: Nodes, nodes': Nodes)
    requires forall n :: n in nodes ==> n in nodes'
    ensures |nodes| <= |nodes'|
  {
    SubsetSize(nodes.Keys, nodes'.Keys);
    assert |nodes| == |nodes.Keys| && |nodes'| == |nodes'.Keys|;
  }

  lemma {:induction false} SubsetSize<T>(a: set<T>, b: set<T>)
    requires a <= b
    ensures |a| <= |b|
  {
    if a != {} {
      var x :| x in a;
      SubsetSize(a - {x}, b - {x});
    }
  }

  lemma ExtendsThen(a: Graph, b: Graph, c: Graph, d: nat, lim: Limits, sha: Text -> Text)
    requires Extends(a, b, d, lim, sha) && Extends(b, c, d, lim, sha)
    ensures Extends(a, c, d, lim, sha)
  {
    NodesGrow(b.nodes, c.nodes);
    SubsetSize(b.edges, c.edges);
    hide Fresh, IsService;
  }

  lemma ExtendsSame(g: Graph, d: nat, lim: Limits, sha: Text -> Text)
    ensures Extends(g, g, d, lim, sha)
  {
  }

  function TargetNode(r: Ref, depth: nat): Node {
    match r
    case ItemRef(_, _, _) => Node(None, None, Unfetched, false, depth, false)
    case ServiceRef(url, _, _) => Node(Some(url), None, ServiceReference, false, depth, false)
  }

  /** One reference: its edge is there afterwards unless there are too many edges, or its
      target is new and there are too many nodes; too many edges is said before too many
      nodes, and nothing else changes. */
  lemma AddRefMeaning(g: Graph, lim: Limits, from: NodeId, d: nat, r: Ref, sha: Text -> Text)
    ensures var (h, discovered) := AddRef(g, lim, from, d, r, sha);
            var target := if r.ItemRef? then Item(r.id) else Service(sha(r.url));
            var e := Edge(from, target, r.rel, r.loc);
            var full, crowded := |g.edges| >= lim.maxEdges, target !in g.nodes && |g.nodes| >= lim.maxNodes;
            && h.edges == (if full || crowded then g.edges else g.edges + {e})
            && h.nodes == (if target in g.nodes || full || crowded then g.nodes
                           else g.nodes[target := TargetNode(r, d + 1)])
            && h.reasons == g.reasons + (if full && (target !in g.nodes || e !in g.edges) then {EdgeCeiling}
                                         else if crowded && !full then {NodeCeiling} else {})
            && (discovered <==> r.ItemRef? && target !in g.nodes && target in h.nodes)
  {
    assert TargetNode(r, d + 1) == NewTarget(r, d + 1);
    assert TargetOf(r, sha) == if r.ItemRef? then Item(r.id) else Service(sha(r.url));
    assert EdgeOf(from, r, sha) == Edge(from, TargetOf(r, sha), r.rel, r.loc);
    hide TargetNode, NewTarget, TargetOf, EdgeOf, AddRef;
    if TargetOf(r, sha) in g.nodes {
      AddRefKnown(g, lim, from, d, r, sha);
    } else {
      AddRefNew(g, lim, from, d, r, sha);
    }
  }

  lemma AddRefKnown(g: Graph, lim: Limits, from: NodeId, d: nat, r: Ref, sha: Text -> Text)
    requires TargetOf(r, sha) in g.nodes
    ensures var (h, discovered) := AddRef(g, lim, from, d, r, sha);
            var e, full := EdgeOf(from, r, sha), |g.edges| >= lim.maxEdges;
            && h.nodes == g.nodes && !discovered && h.edges == (if full then g.edges else g.edges + {e})
            && h.reasons == g.reasons + if full && e !in g.edges then {EdgeCeiling} else {}
  {
    hide TargetOf, EdgeOf, NewTarget;
    OneEdgeMore(g.edges, EdgeOf(from, r, sha));
  }

  lemma AddRefNew(g: Graph, lim: Limits, from: NodeId, d: nat, r: Ref, sha: Text -> Text)
    requires TargetOf(r, sha) !in g.nodes
    ensures var (h, discovered) := AddRef(g, lim, from, d, r, sha);
            var t, e := TargetOf(r, sha), EdgeOf(from, r, sha);
            if |g.edges| >= lim.maxEdges || |g.nodes| >= lim.maxNodes then
              && h.nodes == g.nodes && h.edges == g.edges && !discovered
              && h.reasons == g.reasons + {if |g.edges| >= lim.maxEdges then EdgeCeiling else NodeCeiling}
            else
              && h.nodes == g.nodes[t := NewTarget(r, d + 1)] && h.edges == g.edges + {e}
              && h.reasons == g.reasons && (discovered <==> r.ItemRef?)
  {
    hide TargetOf, EdgeOf, NewTarget;
    OneEdgeMore(g.edges, EdgeOf(from, r, sha));
  }

  lemma OneMoreExtends(g: Graph, h: Graph, d: nat, lim: Limits, r: Ref, sha: Text -> Text)
    requires var target := if r.ItemRef? then Item(r.id) else Service(sha(r.url));
             h.nodes == g.nodes || (target !in g.nodes && h.nodes == g.nodes[target := TargetNode(r, d + 1)])
    requires g.edges <= h.edges && g.reasons <= h.reasons
    requires forall reason :: reason in h.reasons && reason !in g.reasons ==>
               (reason.NodeCeiling? && |h.nodes| >= lim.maxNodes) || (reason.EdgeCeiling? && |h.edges| >= lim.maxEdges)
    ensures Extends(g, h, d, lim, sha)
  {
  }

  lemma FollowOneExtends(f: Found, lim: Limits, from: NodeId, d: nat, r: Ref, sha: Text -> Text)
    ensures Extends(f.graph, FollowOne(f, lim, from, d, r, sha).graph, d, lim, sha)
  {
    var g, h := f.graph, FollowOne(f, lim, from, d, r, sha).graph;
    AddRefMeaning(g, lim, from, d, r, sha);
    hide AddRef, TargetNode, Extends;
    OneMoreExtends(g, h, d, lim, r, sha);
  }

  lemma {:induction false} FollowExtends(f: Found, lim: Limits, from: NodeId, d: nat, refs: seq<Ref>, sha: Text -> Text)
    ensures Extends(f.graph, Follow(f, lim, from, d, refs, sha).graph, d, lim, sha)
    decreases |refs|
  {
    hide Extends, FollowOne;
    if refs == [] {
      ExtendsSame(f.graph, d, lim, sha);
    } else {
      var n := |refs| - 1;
      var g := Follow(f, lim, from, d, refs[..n], sha);
      FollowExtends(f, lim, from, d, refs[..n], sha);
      FollowOneExtends(g, lim, from, d, refs[n], sha);
      ExtendsThen(f.graph, g.graph, FollowOne(g, lim, from, d, refs[n], sha).graph, d, lim, sha);
    }
  }

  // ----------------------------------------------------------------- one item's visit

  /** A visit touches its own item, extends the graph, and asks about no other item. */
  ghost predicate Touches(s: State, t: State, id: Text, d: nat, lim: Limits, sha: Text -> Text) {
    var g, g' := s.found.graph, t.found.graph;
    && Item(id) in g.nodes && Item(id) in g'.nodes && g'.nodes[Item(id)].depth == g.nodes[Item(id)].depth
    && (forall n :: n in g.nodes && n != Item(id) ==> n in g'.nodes && g'.nodes[n] == g.nodes[n])
    && (forall n :: n in g'.nodes && n !in g.nodes ==>
          && g'.nodes[n].depth == d + 1
          && if n.Item? then Fresh(g'.nodes[n]) else IsService(n.hash, g'.nodes[n], sha))
    && g.edges <= g'.edges && g.reasons <= g'.reasons
    && s.budget.requestCount <= t.budget.requestCount
    && forall q: Query :: q.item != id ==> (Asked(t.budget.evidence, q) <==> Asked(s.budget.evidence, q))
  }

  lemma OthersTold(s: State, t: State, id: Text, done: seq<Text>, d: nat, p: Portal, lim: Limits, sha: Text -> Text)
    requires ItemsTold(s, done, d, p, lim) && Touches(s, t, id, d, lim, sha) && Present(done, s.found.graph.nodes)
    requires s.found.graph.nodes[Item(id)].depth == d && id !in done
    requires Accounted(id, t.found.graph.nodes[Item(id)], t.found.graph.reasons, t.budget.evidence, p, lim)
    ensures ItemsTold(t, done + [id], d, p, lim)
  {
    hide Asked, Missed, Learned, HoldsReferences, Gave;
    forall x | Item(x) in t.found.graph.nodes ensures ItemTold(x, t, done + [id], d, p, lim) {
      if x != id && Item(x) in s.found.graph.nodes {
        assert ItemTold(x, s, done, d, p, lim);
        assert MetaOf(x).item == x && DataOf(x).item == x;
      }
    }
  }

  lemma ServicesStay(s: State, t: State, id: Text, d: nat, lim: Limits, sha: Text -> Text)
    requires ServicesTold(s.found.graph.nodes, sha) && Touches(s, t, id, d, lim, sha)
    ensures ServicesTold(t.found.graph.nodes, sha)
  {
    hide Asked, IsService;
  }

  lemma ReasonsStay(s: State, t: State, id: Text, done: seq<Text>, d: nat, lim: Limits, sha: Text -> Text)
    requires ReasonsHold(s, done, d, lim) && Touches(s, t, id, d, lim, sha)
    requires s.found.graph.nodes[Item(id)].depth == d && id !in done
    requires forall r :: r in t.found.graph.reasons && r !in s.found.graph.reasons ==>
               ReasonHolds(r, t, done + [id], d, lim)
    ensures ReasonsHold(t, done + [id], d, lim)
  {
    hide Asked, IsService, Fresh, HoldsReferences;
    NodesGrow(s.found.graph.nodes, t.found.graph.nodes);
    SubsetSize(s.found.graph.edges, t.found.graph.edges);
    forall r | r in t.found.graph.reasons ensures ReasonHolds(r, t, done + [id], d, lim) {
      if r in s.found.graph.reasons {
        assert ReasonHolds(r, s, done, d, lim);
      }
    }
  }

  /** A visit that touches its own item only, and accounts for it, leaves everything told. */
  lemma TouchTells(s: State, t: State, id: Text, done: seq<Text>, d: nat, p: Portal, lim: Limits, sha: Text -> Text)
    requires Told(s, done, d, p, lim, sha) && Touches(s, t, id, d, lim, sha) && Present(done, s.found.graph.nodes)
    requires s.found.graph.nodes[Item(id)].depth == d && id !in done
    requires Accounted(id, t.found.graph.nodes[Item(id)], t.found.graph.reasons, t.budget.evidence, p, lim)
    requires forall r :: r in t.found.graph.reasons && r !in s.found.graph.reasons ==>
               ReasonHolds(r, t, done + [id], d, lim)
    requires Books(t.budget, p, lim)
    ensures Told(t, done + [id], d, p, lim, sha)
  {
    OthersTold(s, t, id, done, d, p, lim, sha);
    ServicesStay(s, t, id, d, lim, sha);
    ReasonsStay(s, t, id, done, d, lim, sha);
    hide Touches, ItemsTold, ServicesTold, ReasonsHold, Accounted;
  }

  /** What an answer that does not end the run was. */
  lemma Answered<T>(b: Budget<Query>, lim: Limits, q: Query, reply: Reply<T>)
    ensures var (b', r) := Request(b, lim.ceilings, q, reply);
            r.Ok? || Tolerated(r.error) ==>
              && reply.Received? && reply.bytes <= lim.ceilings.maxResponseBytes
              && b'.evidence == b.evidence + [Evidence(q, reply.bytes)] && b'.requestCount == b.requestCount + 1
              && b'.successes == b.successes + (if r.Ok? then 1 else 0)
              && if r.Ok? then Gave(reply, r.value) && !Missed(reply) else Missed(reply)
  {
  }

  /** More records about one item. */
  ghost predicate AskedOnly(ev: seq<Evidence<Query>>, ev': seq<Evidence<Query>>, id: Text) {
    forall q: Query :: q.item != id ==> (Asked(ev', q) <==> Asked(ev, q))
  }

  lemma AskOnly(ev: seq<Evidence<Query>>, e: Evidence<Query>)
    ensures AskedOnly(ev, ev + [e], e.query.item)
    ensures forall q :: Asked(ev + [e], q) <==> Asked(ev, q) || q == e.query
  {
    forall q ensures Asked(ev + [e], q) <==> Asked(ev, q) || q == e.query {
      AskedMore(ev, e, q);
    }
    hide Asked;
  }

  lemma RecordMore(b: Budget<Query>, b': Budget<Query>, e: Evidence<Query>, p: Portal, lim: Limits)
    requires Books(b, p, lim) && Recorded(e, p, lim) && b'.evidence == b.evidence + [e]
    requires b'.successes == b.successes + if Useful(e, p) then 1 else 0
    ensures Books(b', p, lim)
  {
    hide Recorded, Useful;
    assert e in b'.evidence;
    if x :| x in b.evidence && Useful(x, p) {
      assert x in b'.evidence;
    }
  }

  /** A visit that learns something of its item, and perhaps says why it goes no further. */
  lemma LearnTells(s: State, t: State, id: Text, n: Node, extra: set<Reason>, done: seq<Text>, d: nat, p: Portal,
                   lim: Limits, sha: Text -> Text)
    requires Told(s, done, d, p, lim, sha) && AtDepth(s.found.graph.nodes, id, d) && id !in done
    requires Present(done, s.found.graph.nodes) && n.depth == d
    requires t.found.graph == Graph(s.found.graph.nodes[Item(id) := n], s.found.graph.edges,
                                    s.found.graph.reasons + extra)
    requires AskedOnly(s.budget.evidence, t.budget.evidence, id) && Books(t.budget, p, lim)
    requires s.budget.requestCount <= t.budget.requestCount
    requires Accounted(id, n, s.found.graph.reasons + extra, t.budget.evidence, p, lim)
    requires forall r :: r in extra ==> ReasonHolds(r, t, done + [id], d, lim)
    ensures Told(t, done + [id], d, p, lim, sha)
  {
    hide Told, ReasonHolds, Accounted, Books, Asked;
    assert Touches(s, t, id, d, lim, sha);
    TouchTells(s, t, id, done, d, p, lim, sha);
  }

  lemma NotVisitedYet(s: State, id: Text, done: seq<Text>, d: nat, p: Portal, lim: Limits, sha: Text -> Text)
    requires Told(s, done, d, p, lim, sha) && AtDepth(s.found.graph.nodes, id, d) && id !in done
    ensures Fresh(s.found.graph.nodes[Item(id)])
  {
    assert Item(id) in s.found.graph.nodes;
    assert ItemTold(id, s, done, d, p, lim);
  }

  lemma SkipTells(s: State, id: Text, done: seq<Text>, d: nat, p: Portal, lim: Limits, sha: Text -> Text)
    requires Told(s, done, d, p, lim, sha) && AtDepth(s.found.graph.nodes, id, d) && id !in done
    requires Present(done, s.found.graph.nodes) && s.budget.requestCount >= lim.ceilings.maxRequests
    requires !Asked(s.budget.evidence, MetaOf(id)) && !Asked(s.budget.evidence, DataOf(id))
    ensures Told(Reasoned(s, RequestCeiling), done + [id], d, p, lim, sha)
  {
    NotVisitedYet(s, id, done, d, p, lim, sha);
    var n := s.found.graph.nodes[Item(id)];
    assert s.found.graph.nodes[Item(id) := n] == s.found.graph.nodes;
    assert Books(s.budget, p, lim);
    hide Told, Asked;
    LearnTells(s, Reasoned(s, RequestCeiling), id, n, {RequestCeiling}, done, d, p, lim, sha);
  }

  lemma MissTells(s: State, b: Budget<Query>, id: Text, done: seq<Text>, d: nat, p: Portal, lim: Limits,
                  sha: Text -> Text)
    requires Told(s, done, d, p, lim, sha) && AtDepth(s.found.graph.nodes, id, d) && id !in done
    requires Present(done, s.found.graph.nodes) && !Asked(s.budget.evidence, DataOf(id))
    requires Missed(p.meta(id)) && p.meta(id).bytes <= lim.ceilings.maxResponseBytes
    requires b.evidence == s.budget.evidence + [Evidence(MetaOf(id), p.meta(id).bytes)]
    requires b.requestCount == s.budget.requestCount + 1 && b.successes == s.budget.successes
    ensures var n := s.found.graph.nodes[Item(id)].(support := Missing);
            Told(State(SetNode(s.found, Item(id), n), b), done + [id], d, p, lim, sha)
  {
    var e, n := Evidence(MetaOf(id), p.meta(id).bytes), s.found.graph.nodes[Item(id)].(support := Missing);
    NotVisitedYet(s, id, done, d, p, lim, sha);
    AskOnly(s.budget.evidence, e);
    assert Books(s.budget, p, lim);
    RecordMore(s.budget, b, e, p, lim);
    assert s.found.graph.reasons + {} == s.found.graph.reasons;
    hide Told, Asked, Books, AskedOnly;
    LearnTells(s, State(SetNode(s.found, Item(id), n), b), id, n, {}, done, d, p, lim, sha);
  }

  /** A visit whose metadata answer has arrived. */
  ghost predicate Arrived(ev: seq<Evidence<Query>>, id: Text, p: Portal, m: Meta) {
    && Asked(ev, MetaOf(id)) && Gave(p.meta(id), m) && (m.echo.Some? ==> SameLetters(m.echo.value, id))
  }

  function Typed(n: Node, itemType: Option<Text>): Node {
    n.(itemType := itemType, support := if IsExpandable(itemType) then Expandable else Terminal)
  }

  lemma TypeTells(s: State, t: State, id: Text, m: Meta, extra: set<Reason>, done: seq<Text>, d: nat, p: Portal,
                  lim: Limits, sha: Text -> Text)
    requires Told(s, done, d, p, lim, sha) && AtDepth(s.found.graph.nodes, id, d) && id !in done
    requires Present(done, s.found.graph.nodes) && Arrived(t.budget.evidence, id, p, m)
    requires var n := Typed(s.found.graph.nodes[Item(id)], m.itemType);
             && t.found.graph == Graph(s.found.graph.nodes[Item(id) := n], s.found.graph.edges,
                                       s.found.graph.reasons + extra)
             && Settled(id, n, s.found.graph.reasons + extra, t.budget.evidence, p, lim)
    requires AskedOnly(s.budget.evidence, t.budget.evidence, id) && Books(t.budget, p, lim)
    requires s.budget.requestCount <= t.budget.requestCount
    requires forall r :: r in extra ==> ReasonHolds(r, t, done + [id], d, lim)
    ensures Told(t, done + [id], d, p, lim, sha)
  {
    NotVisitedYet(s, id, done, d, p, lim, sha);
    var n := Typed(s.found.graph.nodes[Item(id)], m.itemType);
    assert Learned(id, n, p, m);
    assert !Missed(p.meta(id));
    hide Told, Asked, Books, AskedOnly, Settled, Learned, Missed, ReasonHolds, IsExpandable;
    LearnTells(s, t, id, n, extra, done, d, p, lim, sha);
  }

  /** An item that is expanded: its references extend the graph. */
  lemma OpenTells(s: State, t: State, id: Text, m: Meta, c: Content, done: seq<Text>, d: nat, p: Portal, lim: Limits,
                  sha: Text -> Text)
    requires Told(s, done, d, p, lim, sha) && AtDepth(s.found.graph.nodes, id, d) && id !in done && d < lim.maxDepth
    requires Present(done, s.found.graph.nodes) && Arrived(t.budget.evidence, id, p, m)
    requires HoldsReferences(m.itemType) && Asked(t.budget.evidence, DataOf(id)) && Gave(p.data(id), c)
    requires Extends(s.found.graph.(nodes := s.found.graph.nodes[Item(id) := OpenNode(s, id, m)]), t.found.graph, d,
                     lim, sha)
    requires AskedOnly(s.budget.evidence, t.budget.evidence, id) && Books(t.budget, p, lim)
    requires s.budget.requestCount <= t.budget.requestCount
    ensures Told(t, done + [id], d, p, lim, sha)
  {
    NotVisitedYet(s, id, done, d, p, lim, sha);
    var n := OpenNode(s, id, m);
    assert t.found.graph.nodes[Item(id)] == n;
    assert Learned(id, n, p, m) && !Missed(p.meta(id)) && !Missed(p.data(id));
    assert Touches(s, t, id, d, lim, sha) by { hide Told, Asked, Fresh, IsService, Arrived, Gave; }
    hide Told, Asked, Books, AskedOnly, Learned, Missed, Touches, Arrived, Gave;
    TouchTells(s, t, id, done, d, p, lim, sha);
  }

  function OpenNode(s: State, id: Text, m: Meta): Node
    requires Item(id) in s.found.graph.nodes
  {
    s.found.graph.nodes[Item(id)].(itemType := m.itemType, support := Expandable, expanded := true)
  }

  lemma ExpandableTypes(t: Option<Text>)
    ensures IsExpandable(t) <==> HoldsReferences(t)
  {
  }

  /** The metadata has arrived: whatever comes of it is told. */
  lemma ClassifyTells(s: State, b: Budget<Query>, id: Text, m: Meta, done: seq<Text>, d: nat, p: Portal, lim: Limits,
                      sha: Text -> Text)
    requires Told(s, done, d, p, lim, sha) && AtDepth(s.found.graph.nodes, id, d) && id !in done
    requires Present(done, s.found.graph.nodes) && Arrived(b.evidence, id, p, m) && !Asked(b.evidence, DataOf(id))
    requires AskedOnly(s.budget.evidence, b.evidence, id) && Books(b, p, lim)
    requires s.budget.requestCount <= b.requestCount
    ensures var r := Classify(s.(budget := b), lim, p, sha, id, d, m.itemType);
            r.Ok? ==> Told(r.value, done + [id], d, p, lim, sha)
  {
    ExpandableTypes(m.itemType);
    NotVisitedYet(s, id, done, d, p, lim, sha);
    hide Told, Asked, Books, AskedOnly, Arrived, IsExpandable, HoldsReferences, Expand;
    var n := Typed(s.found.graph.nodes[Item(id)], m.itemType);
    var known := s.(budget := b).(found := SetNode(s.found, Item(id), n));
    assert s.found.graph.reasons + {} == s.found.graph.reasons;
    if !IsExpandable(m.itemType) {
      TypeTells(s, known, id, m, {}, done, d, p, lim, sha);
    } else if d >= lim.maxDepth {
      TypeTells(s, Reasoned(known, DepthCeiling(id, d)), id, m, {DepthCeiling(id, d)}, done, d, p, lim, sha);
    } else if b.requestCount >= lim.ceilings.maxRequests {
      TypeTells(s, Reasoned(known, RequestCeiling), id, m, {RequestCeiling}, done, d, p, lim, sha);
    } else {
      ExpandTells(s, b, id, m, done, d, p, lim, sha);
    }
  }

  /** The item's data was asked for, and its answer recorded. */
  ghost predicate DataAsked(b: Budget<Query>, b': Budget<Query>, id: Text, p: Portal, lim: Limits) {
    && p.data(id).Received? && p.data(id).bytes <= lim.ceilings.maxResponseBytes
    && b'.evidence == b.evidence + [Evidence(DataOf(id), p.data(id).bytes)] && b'.requestCount == b.requestCount + 1
    && b'.successes == b.successes + if Useful(Evidence(DataOf(id), p.data(id).bytes), p) then 1 else 0
  }

  lemma DataRecorded(s: State, b: Budget<Query>, b': Budget<Query>, id: Text, m: Meta, p: Portal, lim: Limits)
    requires Arrived(b.evidence, id, p, m) && AskedOnly(s.budget.evidence, b.evidence, id)
    requires Books(b, p, lim) && DataAsked(b, b', id, p, lim)
    ensures Arrived(b'.evidence, id, p, m) && AskedOnly(s.budget.evidence, b'.evidence, id)
    ensures Books(b', p, lim) && Asked(b'.evidence, DataOf(id))
  {
    var e := Evidence(DataOf(id), p.data(id).bytes);
    RecordMore(b, b', e, p, lim);
    MoreAsked(s.budget.evidence, b.evidence, e, id, p, m);
  }

  lemma ExpandTells(s: State, b: Budget<Query>, id: Text, m: Meta, done: seq<Text>, d: nat, p: Portal, lim: Limits,
                    sha: Text -> Text)
    requires Told(s, done, d, p, lim, sha) && AtDepth(s.found.graph.nodes, id, d) && id !in done && d < lim.maxDepth
    requires Present(done, s.found.graph.nodes) && Arrived(b.evidence, id, p, m) && !Asked(b.evidence, DataOf(id))
    requires AskedOnly(s.budget.evidence, b.evidence, id) && Books(b, p, lim)
    requires s.budget.requestCount <= b.requestCount && IsExpandable(m.itemType)
    ensures var n := Typed(s.found.graph.nodes[Item(id)], m.itemType);
            var r := Expand(s.(budget := b).(found := SetNode(s.found, Item(id), n)), lim, p, sha, id, d);
            r.Ok? ==> Told(r.value, done + [id], d, p, lim, sha)
  {
    var n := Typed(s.found.graph.nodes[Item(id)], m.itemType);
    var known := s.(budget := b).(found := SetNode(s.found, Item(id), n));
    var (b', r) := Request(b, lim.ceilings, DataOf(id), p.data(id));
    Answered(b, lim, DataOf(id), p.data(id));
    assert n.itemType == m.itemType;
    assert known.found.graph.nodes[Item(id) := n.(expanded := true)]
        == s.found.graph.nodes[Item(id) := n.(expanded := true)];
    hide Told, Request, Tolerated, Follow, Sort, RefsIn, Gave, Missed, Books, AskedOnly, Arrived, Typed, Asked;
    if r.Ok? || Tolerated(r.error) {
      assert DataAsked(b, b', id, p, lim) by { UsefulData(id, p, if r.Ok? then Some(r.value) else None); }
      DataRecorded(s, b, b', id, m, p, lim);
      hide DataAsked;
      if r.Ok? {
        OpenDataTells(s, b', id, m, r.value, done, d, p, lim, sha);
      } else {
        MissDataTells(s, b', id, m, done, d, p, lim, sha);
      }
    }
  }

  lemma UsefulData(id: Text, p: Portal, c: Option<Content>)
    requires if c.Some? then Gave(p.data(id), c.value) else Missed(p.data(id))
    ensures forall bytes :: Useful(Evidence(DataOf(id), bytes), p) <==> c.Some?
  {
  }

  lemma MissDataTells(s: State, b: Budget<Query>, id: Text, m: Meta, done: seq<Text>, d: nat, p: Portal, lim: Limits,
                      sha: Text -> Text)
    requires Told(s, done, d, p, lim, sha) && AtDepth(s.found.graph.nodes, id, d) && id !in done && d < lim.maxDepth
    requires Present(done, s.found.graph.nodes) && Arrived(b.evidence, id, p, m) && Asked(b.evidence, DataOf(id))
    requires AskedOnly(s.budget.evidence, b.evidence, id) && Books(b, p, lim)
    requires s.budget.requestCount <= b.requestCount && IsExpandable(m.itemType) && Missed(p.data(id))
    ensures var n := Typed(s.found.graph.nodes[Item(id)], m.itemType);
            Told(s.(budget := b).(found := SetNode(s.found, Item(id), n)), done + [id], d, p, lim, sha)
  {
    ExpandableTypes(m.itemType);
    NotVisitedYet(s, id, done, d, p, lim, sha);
    hide Told, Missed, Books, AskedOnly, Arrived, Asked, HoldsReferences, IsExpandable;
    assert s.found.graph.reasons + {} == s.found.graph.reasons;
    var n := Typed(s.found.graph.nodes[Item(id)], m.itemType);
    TypeTells(s, s.(budget := b).(found := SetNode(s.found, Item(id), n)), id, m, {}, done, d, p, lim, sha);
  }

  lemma OpenDataTells(s: State, b: Budget<Query>, id: Text, m: Meta, c: Content, done: seq<Text>, d: nat, p: Portal,
                      lim: Limits, sha: Text -> Text)
    requires Told(s, done, d, p, lim, sha) && AtDepth(s.found.graph.nodes, id, d) && id !in done && d < lim.maxDepth
    requires Present(done, s.found.graph.nodes) && Arrived(b.evidence, id, p, m) && Asked(b.evidence, DataOf(id))
    requires AskedOnly(s.budget.evidence, b.evidence, id) && Books(b, p, lim)
    requires s.budget.requestCount <= b.requestCount && IsExpandable(m.itemType) && Gave(p.data(id), c)
    ensures var n := Typed(s.found.graph.nodes[Item(id)], m.itemType).(expanded := true);
            var refs := Sort(RefKey, RefsIn(c, m.itemType));
            Told(State(Follow(SetNode(s.found, Item(id), n), lim, Item(id), d, refs, sha), b), done + [id], d, p, lim,
                 sha)
  {
    ExpandableTypes(m.itemType);
    hide Told, Gave, Books, AskedOnly, Arrived, Asked, HoldsReferences, IsExpandable, Sort, RefsIn, Follow;
    hide Extends;
    var f := SetNode(s.found, Item(id), OpenNode(s, id, m));
    var refs := Sort(RefKey, RefsIn(c, m.itemType));
    FollowExtends(f, lim, Item(id), d, refs, sha);
    OpenTells(s, State(Follow(f, lim, Item(id), d, refs, sha), b), id, m, c, done, d, p, lim, sha);
  }

  lemma MoreAsked(ev: seq<Evidence<Query>>, ev': seq<Evidence<Query>>, e: Evidence<Query>, id: Text, p: Portal, m: Meta)
    requires AskedOnly(ev, ev', id) && Arrived(ev', id, p, m) && e.query == DataOf(id)
    ensures AskedOnly(ev, ev' + [e], id) && Arrived(ev' + [e], id, p, m) && Asked(ev' + [e], DataOf(id))
  {
    AskOnly(ev', e);
    hide Asked;
  }

  lemma LowerMeaning(text: Text, id: Text)
    ensures Lower(text) == id <==> SameLetters(text, id)
  {
  }

  /** Visiting one more item of the level accounts for it. */
  lemma VisitTells(s: State, lim: Limits, p: Portal, sha: Text -> Text, id: Text, d: nat, done: seq<Text>)
    requires Told(s, done, d, p, lim, sha) && AtDepth(s.found.graph.nodes, id, d) && id !in done
    requires Present(done, s.found.graph.nodes)
    requires !Asked(s.budget.evidence, MetaOf(id)) && !Asked(s.budget.evidence, DataOf(id))
    ensures var r := Visit(s, lim, p, sha, id, d);
            r.Ok? ==> Told(r.value, done + [id], d, p, lim, sha)
  {
    hide Told, Classify, Request, Lower, Tolerated, Gave, Missed, SameLetters, Asked;
    if s.budget.requestCount >= lim.ceilings.maxRequests {
      SkipTells(s, id, done, d, p, lim, sha);
    } else {
      var (b, r) := Request(s.budget, lim.ceilings, MetaOf(id), p.meta(id));
      Answered(s.budget, lim, MetaOf(id), p.meta(id));
      if r.Ok? {
        if r.value.echo.Some? {
          LowerMeaning(r.value.echo.value, id);
        }
        if r.value.echo.None? || Lower(r.value.echo.value) == id {
          MetaTells(s, b, id, r.value, done, d, p, lim, sha);
        }
      } else if Tolerated(r.error) {
        MissTells(s, b, id, done, d, p, lim, sha);
      }
    }
  }

  lemma MetaTells(s: State, b: Budget<Query>, id: Text, m: Meta, done: seq<Text>, d: nat, p: Portal, lim: Limits,
                  sha: Text -> Text)
    requires Told(s, done, d, p, lim, sha) && AtDepth(s.found.graph.nodes, id, d) && id !in done
    requires Present(done, s.found.graph.nodes) && !Asked(s.budget.evidence, DataOf(id))
    requires Gave(p.meta(id), m) && p.meta(id).bytes <= lim.ceilings.maxResponseBytes
    requires m.echo.Some? ==> SameLetters(m.echo.value, id)
    requires b.evidence == s.budget.evidence + [Evidence(MetaOf(id), p.meta(id).bytes)]
    requires b.requestCount == s.budget.requestCount + 1 && b.successes == s.budget.successes + 1
    ensures var r := Classify(s.(budget := b), lim, p, sha, id, d, m.itemType);
            r.Ok? ==> Told(r.value, done + [id], d, p, lim, sha)
  {
    var e := Evidence(MetaOf(id), p.meta(id).bytes);
    AskOnly(s.budget.evidence, e);
    assert Books(s.budget, p, lim);
    RecordMore(s.budget, b, e, p, lim);
    hide Told, Asked, Books, AskedOnly, SameLetters;
    ClassifyTells(s, b, id, m, done, d, p, lim, sha);
  }

  lemma {:induction false} VisitAllTells(s: State, lim: Limits, p: Portal, sha: Text -> Text, level: seq<Text>, d: nat)
    requires Going(s, [], d, lim) && NoRepeats(level) && AllAtDepth(level, s.found.graph.nodes, d)
    requires Present(level, s.found.graph.nodes) && Told(s, [], d, p, lim, sha)
    ensures var r := VisitAll(s, lim, p, sha, level, d);
            r.Ok? ==> Told(r.value, level, d, p, lim, sha)
    decreases |level|
  {
    hide Visit, Going, Grew, AllAtDepth, NoRepeats, Told;
    if level != [] {
      var n := |level| - 1;
      InitOfLevel(level, s.found.graph.nodes, d);
      VisitAllTells(s, lim, p, sha, level[..n], d);
      VisitAllKeeps(s, lim, p, sha, level[..n], d);
      var before := VisitAll(s, lim, p, sha, level[..n], d);
      if before.Ok? {
        GrewKeepsLevel(s.found, before.value.found, level, d);
        InitOfLevel(level, before.value.found.graph.nodes, d);
        NotAskedYet(before.value, level[..n], level[n], d, lim, MetaOf(level[n]));
        NotAskedYet(before.value, level[..n], level[n], d, lim, DataOf(level[n]));
        VisitTells(before.value, lim, p, sha, level[n], d, level[..n]);
      }
    }
  }

  lemma DescendTells(t: State, level: seq<Text>, d: nat, p: Portal, lim: Limits, sha: Text -> Text)
    requires Told(t, level, d, p, lim, sha) && forall id :: id in level <==> AtDepth(t.found.graph.nodes, id, d)
    ensures Told(Descend(t), [], d + 1, p, lim, sha)
  {
    hide Accounted, Fresh, IsService, HoldsReferences, Recorded;
    var g := t.found.graph;
    forall id | Item(id) in g.nodes ensures ItemTold(id, Descend(t), [], d + 1, p, lim) {
      assert ItemTold(id, t, level, d, p, lim);
      assert id in level <==> AtDepth(g.nodes, id, d);
    }
    forall r | r in g.reasons ensures ReasonHolds(r, Descend(t), [], d + 1, lim) {
      assert ReasonHolds(r, t, level, d, lim);
      if r.DepthCeiling? {
        assert r.item in level <==> AtDepth(g.nodes, r.item, d);
      }
    }
  }

  lemma {:induction false} WalkTells(s: State, lim: Limits, p: Portal, sha: Text -> Text, level: seq<Text>, d: nat)
    returns (last: nat)
    requires Ready(s, level, d, lim) && (forall id :: id in level ==> Item(id) in s.found.graph.nodes)
    requires level != [] ==> d <= lim.maxDepth
    requires Told(Descend(s), [], d, p, lim, sha)
    ensures var r := Walk(s, lim, p, sha, level, d);
            r.Ok? ==> Told(r.value, [], last, p, lim, sha) && AllAbove(r.value.found.graph.nodes, last)
    decreases lim.maxDepth + 1 - d
  {
    hide Told;
    last := d;
    if level == [] {
      NothingBelow(s, d, lim);
    } else {
      SortKeeps(ItemKey, level);
      var sorted := Sort(ItemKey, level);
      SortedNoRepeats(level);
      hide Sort, VisitAll, Going, Grew;
      VisitAllKeeps(Descend(s), lim, p, sha, sorted, d);
      VisitAllTells(Descend(s), lim, p, sha, sorted, d);
      var r := VisitAll(Descend(s), lim, p, sha, sorted, d);
      if r.Ok? {
        LevelDone(s, r.value, level, sorted, d, lim);
        NextLevel(r.value, sorted, d, lim);
        DescendTells(r.value, sorted, d, p, lim, sha);
        last := WalkTells(r.value, lim, p, sha, r.value.found.next, d + 1);
      }
    }
  }

  /** No item stands at this depth or below it. */
  ghost predicate AllAbove(nodes: Nodes, d: nat) {
    forall id :: Item(id) in nodes ==> nodes[Item(id)].depth < d
  }

  lemma NothingBelow(s: State, d: nat, lim: Limits)
    requires Ready(s, [], d, lim)
    ensures AllAbove(Descend(s).found.graph.nodes, d)
  {
    var nodes := s.found.graph.nodes;
    forall id | Item(id) in nodes ensures nodes[Item(id)].depth < d {
      assert id in [] <==> AtDepth(nodes, id, d);
    }
    hide BudgetFits, AskedVisited, VisitedAsked;
  }

  // -------------------------------------------------------------------- theorems

  ghost predicate RootsReason(f: Found, ids: seq<Text>, lim: Limits) {
    f.graph.reasons == if |ids| > lim.maxNodes then {NodeCeiling} else {}
  }

  lemma {:induction false} RootReasons(ids: seq<Text>, lim: Limits)
    requires NoRepeats(ids)
    ensures RootsReason(AddRoots(ids, lim), ids, lim)
    decreases |ids|
  {
    hide AddRoot, NoRepeats, RootGraph;
    if ids != [] {
      var n := |ids| - 1;
      InitNoRepeats(ids);
      RootReasons(ids[..n], lim);
      RootNodes(ids[..n], lim);
      var f := AddRoots(ids[..n], lim);
      hide AddRoots;
      FreshRoot(f, ids, n, lim);
      OneRootReason(f, ids[n], lim);
      assert AddRoots(ids, lim) == AddRoot(f, lim, ids[n]) by { LastRoot(ids, lim); }
    }
  }

  lemma InitNoRepeats(ids: seq<Text>)
    requires NoRepeats(ids) && ids != []
    ensures NoRepeats(ids[..|ids| - 1])
  {
  }

  lemma LastRoot(ids: seq<Text>, lim: Limits)
    requires ids != []
    ensures AddRoots(ids, lim) == AddRoot(AddRoots(ids[..|ids| - 1], lim), lim, ids[|ids| - 1])
  {
    hide AddRoot;
  }

  lemma OneRootReason(f: Found, id: Text, lim: Limits)
    requires Item(id) !in f.graph.nodes
    ensures AddRoot(f, lim, id).graph.reasons
         == f.graph.reasons + if |f.graph.nodes| >= lim.maxNodes then {NodeCeiling} else {}
  {
  }

  lemma FreshRoot(f: Found, ids: seq<Text>, n: nat, lim: Limits)
    requires NoRepeats(ids) && n == |ids| - 1
    requires RootGraph(f, ids[..n][..if n < lim.maxNodes then n else lim.maxNodes])
    ensures Item(ids[n]) !in f.graph.nodes && |f.graph.nodes| == if n < lim.maxNodes then n else lim.maxNodes
  {
    var k := if n < lim.maxNodes then n else lim.maxNodes;
    assert ids[..n][..k] == ids[..k];
  }

  lemma RootsTold(f: Found, ids: seq<Text>, p: Portal, lim: Limits, sha: Text -> Text)
    requires RootGraph(f, ids) && (f.graph.reasons == {} || (f.graph.reasons == {NodeCeiling} && |ids| >= lim.maxNodes))
    ensures Told(Descend(State(f, Budget(0, 0, [], 0))), [], 0, p, lim, sha)
  {
  }

  /** The whole trace is told, from the retained roots to the last level. */
  lemma TraceTells(p: Portal, roots: seq<Text>, lim: Limits, sha: Text -> Text) returns (last: nat)
    requires Trace(p, roots, lim, sha).Ok?
    ensures var s := Trace(p, roots, lim, sha).value;
            Told(s, [], last, p, lim, sha) && AllAbove(s.found.graph.nodes, last)
  {
    var ids := CanonicalRoots(roots);
    CanonicalUnique(Same, LowerAll(roots), LowerAll(roots));
    StrictNoRepeats(Same, ids);
    RootsReady(roots, lim);
    RootNodes(ids, lim);
    RootReasons(ids, lim);
    hide CanonicalRoots, AddRoots, RootGraph, Ready, Told, AllAbove;
    var start := AddRoots(ids, lim);
    RootsTold(start, start.next, p, lim, sha);
    last := WalkTells(State(start, Budget(0, 0, [], 0)), lim, p, sha, start.next, 0);
  }

  /** What a reason for truncation says of the finished trace. */
  ghost predicate Justified(r: Reason, g: Graph, b: Budget<Query>, lim: Limits) {
    match r
    case NodeCeiling => |g.nodes| == lim.maxNodes
    case EdgeCeiling => |g.edges| == lim.maxEdges
    case RequestCeiling => b.requestCount == lim.ceilings.maxRequests
    case DepthCeiling(id, depth) =>
      && depth == lim.maxDepth && Item(id) in g.nodes && g.nodes[Item(id)].depth == depth
      && HoldsReferences(g.nodes[Item(id)].itemType) && !g.nodes[Item(id)].expanded
  }

  /** Every item of a completed trace is accounted for by the portal's answers: it was left
      unasked at the request ceiling, or is missing, or has the type that was answered; and
      an item of the two types that hold references is expanded unless it stands at the
      depth ceiling, was left at the request ceiling, or its data is missing. Each ceiling
      that kept something out is among the reasons, and a reason only with its ceiling. */
  lemma EveryItemAccounted(p: Portal, roots: seq<Text>, lim: Limits, sha: Text -> Text)
    requires Trace(p, roots, lim, sha).Ok?
    ensures var s := Trace(p, roots, lim, sha).value;
            var g, b := s.found.graph, s.budget;
            && (forall id {:trigger Item(id) in g.nodes} :: Item(id) in g.nodes ==>
                  Accounted(id, g.nodes[Item(id)], g.reasons, b.evidence, p, lim))
            && (forall n :: n in g.nodes && n.Service? ==> IsService(n.hash, g.nodes[n], sha))
            && (forall r :: r in g.reasons ==> Justified(r, g, b, lim))
            && (forall e :: e in b.evidence ==> Recorded(e, p, lim))
            && (exists e :: e in b.evidence && Useful(e, p))
  {
    var last := TraceTells(p, roots, lim, sha);
    CeilingsHold(p, roots, lim, sha);
    var s := Trace(p, roots, lim, sha).value;
    assert s.budget.successes > 0;
    hide Trace, Accounted, IsService, Recorded, Useful;
    var g := s.found.graph;
    forall id | Item(id) in g.nodes ensures Accounted(id, g.nodes[Item(id)], g.reasons, s.budget.evidence, p, lim) {
      assert ItemTold(id, s, [], last, p, lim);
    }
    forall r | r in g.reasons ensures Justified(r, g, s.budget, lim) {
      assert ReasonHolds(r, s, [], last, lim);
    }
  }
}
