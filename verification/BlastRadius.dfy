/**
 The blast radius of a permission request: which lineage nodes lie downstream of the requested resource,
 how many of each kind, and the risk derived from that.
 */
module BlastRadius {
  import opened Options

  type NodeId = nat

  datatype Node = Node(id: NodeId, nodeType: string)

  datatype Graph = Graph(nodes: map<NodeId, Node>, edges: map<NodeId, seq<NodeId>>, aliases: map<string, NodeId>)

  /** The request's privileges and resource; the resource name is already lowercased where it is searched. */
  datatype Request = Request(privileges: seq<string>, resource: string, lowerResource: string)

  datatype Counts = Counts(tables: nat, assets: nat, jobs: nat, schedules: nat, dashboards: nat, consumers: nat)

  datatype Preview = Preview(
    rootType: Option<string>, totalDownstreamNodes: nat, directDownstreamNodes: nat, downstream: Counts)

  datatype Risk = Low | Medium | High

  function Rank(risk: Risk): nat {
    match risk case Low => 0 case Medium => 1 case High => 2
  }

  // ----- reachability -----

  predicate HasEdge(g: Graph, src: NodeId, dst: NodeId) {
    src in g.edges && dst in g.edges[src]
  }

  predicate IsPath(g: Graph, path: seq<NodeId>) {
    path != [] && forall i :: 0 <= i < |path| - 1 ==> HasEdge(g, path[i], path[i + 1])
  }

  ghost predicate Reachable(g: Graph, src: NodeId, dst: NodeId) {
    exists path :: IsPath(g, path) && path[0] == src && path[|path| - 1] == dst
  }

  predicate Closed(g: Graph, nodes: set<NodeId>) {
    forall src :: src in nodes && src in g.edges ==> forall i :: 0 <= i < |g.edges[src]| ==> g.edges[src][i] in nodes
  }

  lemma ReachesItself(g: Graph, n: NodeId)
    ensures Reachable(g, n, n)
  {
    assert IsPath(g, [n]);
  }

  lemma ReachesNext(g: Graph, root: NodeId, src: NodeId, dst: NodeId)
    requires Reachable(g, root, src) && HasEdge(g, src, dst)
    ensures Reachable(g, root, dst)
  {
    var path :| IsPath(g, path) && path[0] == root && path[|path| - 1] == src;
    assert IsPath(g, path + [dst]);
  }

  /** A closed set holding the start of a path holds all of it. */
  lemma {:induction false} ClosedHoldsPaths(g: Graph, nodes: set<NodeId>, path: seq<NodeId>, i: nat)
    requires Closed(g, nodes) && IsPath(g, path) && path[0] in nodes && i < |path|
    ensures path[i] in nodes
  {
    if i > 0 {
      ClosedHoldsPaths(g, nodes, path, i - 1);
      assert HasEdge(g, path[i - 1], path[i]);
    }
  }

  lemma ClosedHoldsReachable(g: Graph, nodes: set<NodeId>, root: NodeId, n: NodeId)
    requires Closed(g, nodes) && root in nodes && Reachable(g, root, n)
    ensures n in nodes
  {
    var path :| IsPath(g, path) && path[0] == root && path[|path| - 1] == n;
    ClosedHoldsPaths(g, nodes, path, |path| - 1);
  }

  // ----- the walk -----

  function Targets(g: Graph): set<NodeId> {
    set src, i | src in g.edges && 0 <= i < |g.edges[src]| :: g.edges[src][i]
  }

  /** The loop over one node's edges: what it had not visited is visited and queued. */
  method VisitTargets(g: Graph, root: NodeId, current: NodeId, visited: set<NodeId>, queue: seq<NodeId>)
    returns (visited': set<NodeId>, queue': seq<NodeId>)
    requires current in g.edges && Reachable(g, root, current)
    requires forall n :: n in visited ==> Reachable(g, root, n)
    requires visited <= Targets(g) + {root}
    ensures visited <= visited' <= Targets(g) + {root}
    ensures forall n :: n in queue' <==> n in queue || n in visited' - visited
    ensures forall n :: n in visited' ==> Reachable(g, root, n)
    ensures forall i :: 0 <= i < |g.edges[current]| ==> g.edges[current][i] in visited'
    ensures visited' == visited ==> queue' == queue
  {
    visited', queue' := visited, queue;
    var edges := g.edges[current];
    for i := 0 to |edges|
      invariant visited <= visited' <= Targets(g) + {root}
      invariant visited' == visited ==> queue' == queue
      invariant forall n :: n in queue' <==> n in queue || n in visited' - visited
      invariant forall n :: n in visited' ==> Reachable(g, root, n)
      invariant forall k :: 0 <= k < i ==> edges[k] in visited'
    {
      var dst := edges[i];
      if dst !in visited' {
        assert HasEdge(g, current, dst);
        ReachesNext(g, root, current, dst);
        visited' := visited' + {dst};
        queue' := queue' + [dst];
      }
    }
  }

  /** Every visited node but those still queued has all its targets visited. */
  predicate Explored(g: Graph, visited: set<NodeId>, queue: seq<NodeId>) {
    forall src :: src in visited && src !in queue && src in g.edges ==> TargetsIn(g, src, visited)
  }

  predicate TargetsIn(g: Graph, src: NodeId, nodes: set<NodeId>)
    requires src in g.edges
  {
    forall i :: 0 <= i < |g.edges[src]| ==> g.edges[src][i] in nodes
  }

  /** Visits everything downstream of the root, on cyclic graphs too. */
  method Walk(g: Graph, root: NodeId) returns (visited: set<NodeId>)
    ensures forall n :: n in visited <==> Reachable(g, root, n)
  {
    visited := {root};
    var queue := [root];
    ReachesItself(g, root);
    ghost var all := Targets(g) + {root};
    while queue != []
      invariant root in visited && visited <= all
      invariant forall n :: n in queue ==> n in visited
      invariant forall n :: n in visited ==> Reachable(g, root, n)
      invariant Explored(g, visited, queue)
      decreases |all - visited|, |queue|
    {
      var current := queue[0];
      ghost var before, oldQueue := visited, queue;
      queue := queue[1..];
      assert oldQueue == [current] + queue;
      if current in g.edges {
        visited, queue := VisitTargets(g, root, current, visited, queue);
      }
      StillExplored(g, before, oldQueue, current, visited, queue);
      if visited != before {
        assert all - visited < all - before;
        SubsetSmaller(all - visited, all - before);
      }
    }
    forall n | Reachable(g, root, n)
      ensures n in visited
    {
      ClosedHoldsReachable(g, visited, root, n);
    }
  }

  lemma StillExplored(
    g: Graph, before: set<NodeId>, oldQueue: seq<NodeId>, current: NodeId, visited: set<NodeId>, queue: seq<NodeId>)
    requires Explored(g, before, oldQueue) && before <= visited && oldQueue != [] && current == oldQueue[0]
    requires forall n :: n in queue <==> n in oldQueue[1..] || n in visited - before
    requires current in g.edges ==> TargetsIn(g, current, visited)
    ensures Explored(g, visited, queue)
  {
    forall src | src in visited && src !in queue && src in g.edges ensures TargetsIn(g, src, visited) {
      if src != current {
        assert oldQueue == [current] + oldQueue[1..];
        assert src in before && src !in oldQueue;
      }
    }
  }

  lemma {:induction false} SubsetSmaller<T>(a: set<T>, b: set<T>)
    requires a < b
    ensures |a| < |b|
  {
    var x :| x in b && x !in a;
    SubsetAtMost(a, b - {x});
  }

  lemma {:induction false} SubsetAtMost<T>(a: set<T>, b: set<T>)
    requires a <= b
    ensures |a| <= |b|
    decreases a
  {
    if a != {} {
      var x :| x in a;
      SubsetAtMost(a - {x}, b - {x});
    }
  }

  // ----- counting and risk -----

  const TABLES: set<string> := {"table", "topic"}
  const ASSETS: set<string> := {"dagster_asset"}
  const JOBS: set<string> := {"spark_job", "streaming_job", "daft_job", "dagster_job"}
  const SCHEDULES: set<string> := {"schedule"}
  const DASHBOARDS: set<string> := {"dashboard"}
  const CONSUMERS: set<string> := {"consumer"}
  const MUTATING: set<string> := {"MODIFY", "UPDATE", "DELETE", "INSERT", "MERGE", "WRITE", "ALTER"}

  /** The known nodes among the visited ones, without the root. */
  function Downstream(g: Graph, root: NodeId, visited: set<NodeId>): set<NodeId> {
    set n | n in visited && n != root && n in g.nodes
  }

  function OfKind(g: Graph, nodes: set<NodeId>, kind: set<string>): set<NodeId> {
    set n | n in nodes && n in g.nodes && g.nodes[n].nodeType in kind
  }

  const NO_NODES := Counts(0, 0, 0, 0, 0, 0)

  function CountKinds(g: Graph, nodes: set<NodeId>): Counts {
    Counts(|OfKind(g, nodes, TABLES)|, |OfKind(g, nodes, ASSETS)|, |OfKind(g, nodes, JOBS)|,
           |OfKind(g, nodes, SCHEDULES)|, |OfKind(g, nodes, DASHBOARDS)|, |OfKind(g, nodes, CONSUMERS)|)
  }

  predicate Contains(s: string, part: string) {
    part <= s || (s != [] && Contains(s[1..], part))
  }

  function ResolveRoot(g: Graph, request: Request): Option<Node> {
    if request.resource in g.aliases && g.aliases[request.resource] in g.nodes
    then Some(g.nodes[g.aliases[request.resource]]) else None
  }

  predicate HasLargeDownstream(p: Preview) {
    || p.totalDownstreamNodes >= 10 || p.downstream.tables >= 3
    || p.downstream.assets > 0 || p.downstream.jobs > 0 || p.downstream.schedules > 0
  }

  predicate IsMutating(privileges: seq<string>) {
    exists i :: 0 <= i < |privileges| && privileges[i] in MUTATING
  }

  function DerivedRisk(request: Request, p: Preview): Risk {
    var bronzeOrRaw := Contains(request.lowerResource, "bronze") || Contains(request.lowerResource, "raw");
    if IsMutating(request.privileges) then
      if bronzeOrRaw || p.rootType == Some("table") || p.rootType == Some("schema") || HasLargeDownstream(p)
      then High else Medium
    else if p.downstream.schedules > 0 || p.totalDownstreamNodes >= 15 then Medium
    else if HasLargeDownstream(p) then Medium
    else Low
  }

  /** What the preview must say of a graph, in terms of reachability alone. */
  ghost predicate Describes(p: Preview, g: Graph, request: Request, reached: set<NodeId>) {
    match ResolveRoot(g, request)
    case None => p == Preview(None, 0, 0, NO_NODES)
    case Some(root) =>
      && (forall n :: n in reached <==> Reachable(g, root.id, n))
      && var down := Downstream(g, root.id, reached);
        p == Preview(Some(root.nodeType), |down|, |Direct(g, root.id)|, CountKinds(g, down))
  }

  function Direct(g: Graph, root: NodeId): set<NodeId> {
    if root in g.edges then set i | 0 <= i < |g.edges[root]| :: g.edges[root][i] else {}
  }

  /** Builds the preview: walk, then count each downstream node under its kind. */
  method BuildPreview(g: Graph, request: Request) returns (p: Preview, risk: Risk, ghost reached: set<NodeId>)
    ensures Describes(p, g, request, reached)
    ensures risk == DerivedRisk(request, p)
  {
    var root := ResolveRoot(g, request);
    if root == None {
      p := Preview(None, 0, 0, NO_NODES);
      return p, DerivedRisk(request, p), {};
    }
    var visited := Walk(g, root.value.id);
    var down := Downstream(g, root.value.id, visited);
    var counts := NO_NODES;
    var left := down;
    while left != {}
      invariant left <= down
      invariant counts == CountKinds(g, down - left)
      decreases left
    {
      var n :| n in left;
      CountOneMore(g, down - left, n);
      assert down - (left - {n}) == (down - left) + {n};
      counts := CountNode(counts, g.nodes[n].nodeType);
      left := left - {n};
    }
    assert down - left == down;
    p := Preview(Some(root.value.nodeType), |down|, |Direct(g, root.value.id)|, counts);
    risk := DerivedRisk(request, p);
    reached := visited;
  }

  /** The counter a node's type increments. */
  function CountNode(c: Counts, nodeType: string): Counts {
    if nodeType in TABLES then c.(tables := c.tables + 1)
    else if nodeType in ASSETS then c.(assets := c.assets + 1)
    else if nodeType in JOBS then c.(jobs := c.jobs + 1)
    else if nodeType in SCHEDULES then c.(schedules := c.schedules + 1)
    else if nodeType in DASHBOARDS then c.(dashboards := c.dashboards + 1)
    else if nodeType in CONSUMERS then c.(consumers := c.consumers + 1)
    else c
  }

  lemma KindsAreDisjoint()
    ensures TABLES !! ASSETS !! JOBS !! SCHEDULES !! DASHBOARDS !! CONSUMERS
  {
  }

  lemma CountOneMore(g: Graph, nodes: set<NodeId>, n: NodeId)
    requires n !in nodes && n in g.nodes
    ensures CountKinds(g, nodes + {n}) == CountNode(CountKinds(g, nodes), g.nodes[n].nodeType)
  {
    KindsAreDisjoint();
    OneMore(g, nodes, n, TABLES);
    OneMore(g, nodes, n, ASSETS);
    OneMore(g, nodes, n, JOBS);
    OneMore(g, nodes, n, SCHEDULES);
    OneMore(g, nodes, n, DASHBOARDS);
    OneMore(g, nodes, n, CONSUMERS);
  }

  lemma OneMore(g: Graph, nodes: set<NodeId>, n: NodeId, kind: set<string>)
    requires n !in nodes && n in g.nodes
    ensures |OfKind(g, nodes + {n}, kind)| == |OfKind(g, nodes, kind)| + (if g.nodes[n].nodeType in kind then 1 else 0)
  {
    if g.nodes[n].nodeType in kind {
      assert OfKind(g, nodes + {n}, kind) == OfKind(g, nodes, kind) + {n};
    } else {
      assert OfKind(g, nodes + {n}, kind) == OfKind(g, nodes, kind);
    }
  }

  // ----- monotonicity -----

  /** Same nodes and aliases, and every edge of the one graph is in the other. */
  predicate Extends(g: Graph, g': Graph) {
    && g.nodes == g'.nodes && g.aliases == g'.aliases
    && forall src :: src in g.edges ==> forall i :: 0 <= i < |g.edges[src]| ==> HasEdge(g', src, g.edges[src][i])
  }

  lemma ExtensionReachesMore(g: Graph, g': Graph, root: NodeId, n: NodeId)
    requires Extends(g, g') && Reachable(g, root, n)
    ensures Reachable(g', root, n)
  {
    var path :| IsPath(g, path) && path[0] == root && path[|path| - 1] == n;
    forall i | 0 <= i < |path| - 1
      ensures HasEdge(g', path[i], path[i + 1])
    {
      assert HasEdge(g, path[i], path[i + 1]);
    }
    assert IsPath(g', path);
  }

  lemma KindGrows(g: Graph, a: set<NodeId>, b: set<NodeId>, kind: set<string>)
    requires a <= b
    ensures |OfKind(g, a, kind)| <= |OfKind(g, b, kind)|
  {
    SubsetAtMost(OfKind(g, a, kind), OfKind(g, b, kind));
  }

  predicate CountsGrow(c: Counts, c': Counts) {
    && c.tables <= c'.tables && c.assets <= c'.assets && c.jobs <= c'.jobs
    && c.schedules <= c'.schedules && c.dashboards <= c'.dashboards && c.consumers <= c'.consumers
  }

  lemma DirectGrows(g: Graph, g': Graph, root: NodeId)
    requires Extends(g, g')
    ensures |Direct(g, root)| <= |Direct(g', root)|
  {
    forall n | n in Direct(g, root)
      ensures n in Direct(g', root)
    {
      var i :| 0 <= i < |g.edges[root]| && g.edges[root][i] == n;
      assert HasEdge(g', root, n);
    }
    SubsetAtMost(Direct(g, root), Direct(g', root));
  }

  lemma DownstreamGrows(g: Graph, g': Graph, root: NodeId, reached: set<NodeId>, reached': set<NodeId>)
    requires Extends(g, g')
    requires forall n :: n in reached <==> Reachable(g, root, n)
    requires forall n :: n in reached' <==> Reachable(g', root, n)
    ensures |Downstream(g, root, reached)| <= |Downstream(g', root, reached')|
    ensures CountsGrow(CountKinds(g, Downstream(g, root, reached)), CountKinds(g', Downstream(g', root, reached')))
  {
    forall n | n in reached
      ensures n in reached'
    {
      ExtensionReachesMore(g, g', root, n);
    }
    var down, down' := Downstream(g, root, reached), Downstream(g', root, reached');
    SubsetAtMost(down, down');
    KindGrows(g, down, down', TABLES);
    KindGrows(g, down, down', ASSETS);
    KindGrows(g, down, down', JOBS);
    KindGrows(g, down, down', SCHEDULES);
    KindGrows(g, down, down', DASHBOARDS);
    KindGrows(g, down, down', CONSUMERS);
    assert CountKinds(g', down') == CountKinds(g, down');
  }

  /** Adding lineage edges never lowers a count of the preview. */
  lemma CountsAreMonotone(
    g: Graph, g': Graph, request: Request, request': Request,
    p: Preview, p': Preview, reached: set<NodeId>, reached': set<NodeId>)
    requires Extends(g, g')
    requires request'.resource == request.resource && request'.lowerResource == request.lowerResource
    requires Describes(p, g, request, reached) && Describes(p', g', request', reached')
    ensures p.rootType == p'.rootType && CountsGrow(p.downstream, p'.downstream)
    ensures p.totalDownstreamNodes <= p'.totalDownstreamNodes && p.directDownstreamNodes <= p'.directDownstreamNodes
  {
    var root := ResolveRoot(g, request);
    if root.Some? {
      DownstreamGrows(g, g', root.value.id, reached, reached');
      DirectGrows(g, g', root.value.id);
    }
  }

  /** Adding lineage edges or privileges never lowers the derived risk, nor any count of the preview. */
  lemma RiskIsMonotone(
    g: Graph, g': Graph, request: Request, request': Request,
    p: Preview, p': Preview, reached: set<NodeId>, reached': set<NodeId>)
    requires Extends(g, g')
    requires request'.resource == request.resource && request'.lowerResource == request.lowerResource
    requires forall i :: 0 <= i < |request.privileges| ==> request.privileges[i] in request'.privileges
    requires Describes(p, g, request, reached) && Describes(p', g', request', reached')
    ensures Rank(DerivedRisk(request, p)) <= Rank(DerivedRisk(request', p'))
    ensures p.totalDownstreamNodes <= p'.totalDownstreamNodes && p.directDownstreamNodes <= p'.directDownstreamNodes
    ensures CountsGrow(p.downstream, p'.downstream)
  {
    CountsAreMonotone(g, g', request, request', p, p', reached, reached');
    if IsMutating(request.privileges) {
      var i :| 0 <= i < |request.privileges| && request.privileges[i] in MUTATING;
      var k :| 0 <= k < |request'.privileges| && request'.privileges[k] == request.privileges[i];
      assert IsMutating(request'.privileges);
    }
  }

  /** A preview is determined by the graph and the request: the walk's order leaves no trace in it. */
  lemma PreviewIsUnique(
    g: Graph, request: Request, p: Preview, p': Preview, reached: set<NodeId>, reached': set<NodeId>)
    requires Describes(p, g, request, reached) && Describes(p', g, request, reached')
    ensures p == p'
  {
    if ResolveRoot(g, request).Some? {
      assert reached == reached';
    }
  }

  // ----- which risk a request gets -----

  /** The known nodes of these types that can be reached from the root, without the root itself. */
  ghost predicate DownstreamOf(g: Graph, root: NodeId, types: set<string>, nodes: set<NodeId>) {
    forall n :: n in nodes <==> n != root && Reachable(g, root, n) && n in g.nodes && g.nodes[n].nodeType in types
  }

  ghost predicate DownstreamNodes(g: Graph, root: NodeId, nodes: set<NodeId>) {
    forall n :: n in nodes <==> n != root && Reachable(g, root, n) && n in g.nodes
  }

  /** Some known node of these types lies downstream. */
  ghost predicate Reaches(g: Graph, root: NodeId, types: set<string>) {
    exists n :: n != root && Reachable(g, root, n) && n in g.nodes && g.nodes[n].nodeType in types
  }

  /** The name holds the word, with something before and something behind it. */
  ghost predicate Mentions(name: string, word: string) {
    exists before: string, behind: string :: name == before + word + behind
  }

  predicate AsksForChange(privileges: seq<string>) {
    exists i :: 0 <= i < |privileges| && (
      || privileges[i] == "MODIFY" || privileges[i] == "UPDATE" || privileges[i] == "DELETE"
      || privileges[i] == "INSERT" || privileges[i] == "MERGE" || privileges[i] == "WRITE" || privileges[i] == "ALTER")
  }

  lemma {:induction false} ContainedIsMentioned(name: string, word: string)
    requires Contains(name, word)
    ensures Mentions(name, word)
    decreases |name|
  {
    if word <= name {
      assert name == "" + word + name[|word|..];
    } else {
      ContainedIsMentioned(name[1..], word);
      var before: string, behind: string :| name[1..] == before + word + behind;
      assert name == [name[0]] + before + word + behind;
    }
  }

  lemma {:induction false} MentionedIsContained(name: string, before: string, word: string, behind: string)
    requires name == before + word + behind
    ensures Contains(name, word)
    decreases |before|
  {
    if before == "" {
      assert name[..|word|] == word;
    } else {
      assert name[1..] == before[1..] + word + behind;
      MentionedIsContained(name[1..], before[1..], word, behind);
    }
  }

  lemma ContainsIffMentions(name: string, word: string)
    ensures Contains(name, word) <==> Mentions(name, word)
  {
    if Contains(name, word) {
      ContainedIsMentioned(name, word);
    }
    if Mentions(name, word) {
      var before: string, behind: string :| name == before + word + behind;
      MentionedIsContained(name, before, word, behind);
    }
  }

  lemma SameSet<T>(a: set<T>, b: set<T>)
    requires forall x :: x in a <==> x in b
    ensures a == b
  {
  }

  lemma ReachesIffCounted(g: Graph, root: NodeId, types: set<string>, reached: set<NodeId>)
    requires forall n :: n in reached <==> Reachable(g, root, n)
    ensures |OfKind(g, Downstream(g, root, reached), types)| > 0 <==> Reaches(g, root, types)
  {
    var nodes := OfKind(g, Downstream(g, root, reached), types);
    if Reaches(g, root, types) {
      var n :| n != root && Reachable(g, root, n) && n in g.nodes && g.nodes[n].nodeType in types;
      assert n in nodes;
    }
    if |nodes| > 0 {
      var n :| n in nodes;
    }
  }

  /** The preview's numbers are those of the nodes that can be reached, by their types. */
  lemma CountsByReachability(
    g: Graph, request: Request, p: Preview, reached: set<NodeId>, root: Node, types: set<string>, nodes: set<NodeId>)
    requires Describes(p, g, request, reached) && ResolveRoot(g, request) == Some(root)
    ensures DownstreamNodes(g, root.id, nodes) ==> p.totalDownstreamNodes == |nodes|
    ensures DownstreamOf(g, root.id, {"table", "topic"}, nodes) ==> p.downstream.tables == |nodes|
    ensures DownstreamOf(g, root.id, {"dagster_asset"}, nodes) ==> p.downstream.assets == |nodes|
    ensures DownstreamOf(g, root.id, {"spark_job", "streaming_job", "daft_job", "dagster_job"}, nodes) ==>
      p.downstream.jobs == |nodes|
    ensures DownstreamOf(g, root.id, {"schedule"}, nodes) ==> p.downstream.schedules == |nodes|
    ensures DownstreamOf(g, root.id, {"dashboard"}, nodes) ==> p.downstream.dashboards == |nodes|
    ensures DownstreamOf(g, root.id, {"consumer"}, nodes) ==> p.downstream.consumers == |nodes|
  {
    var down := Downstream(g, root.id, reached);
    if DownstreamNodes(g, root.id, nodes) {
      SameSet(nodes, down);
    }
    forall types: set<string> | DownstreamOf(g, root.id, types, nodes) ensures nodes == OfKind(g, down, types) {
      SameSet(nodes, OfKind(g, down, types));
    }
  }

  /** What lies downstream alone would make a request more than low. */
  ghost predicate LargeDownstream(g: Graph, root: NodeId, nodes: set<NodeId>, tables: set<NodeId>) {
    || |nodes| >= 10 || |tables| >= 3
    || Reaches(g, root, {"dagster_asset"})
    || Reaches(g, root, {"spark_job", "streaming_job", "daft_job", "dagster_job"})
    || Reaches(g, root, {"schedule"})
  }

  lemma LargeIffReached(
    g: Graph, request: Request, p: Preview, reached: set<NodeId>, root: Node, nodes: set<NodeId>, tables: set<NodeId>)
    requires Describes(p, g, request, reached) && ResolveRoot(g, request) == Some(root)
    requires DownstreamNodes(g, root.id, nodes) && DownstreamOf(g, root.id, {"table", "topic"}, tables)
    ensures HasLargeDownstream(p) <==> LargeDownstream(g, root.id, nodes, tables)
    ensures p.downstream.schedules > 0 || p.totalDownstreamNodes >= 15 ==> HasLargeDownstream(p)
  {
    CountsByReachability(g, request, p, reached, root, {}, nodes);
    CountsByReachability(g, request, p, reached, root, {"table", "topic"}, tables);
    ReachesIffCounted(g, root.id, {"dagster_asset"}, reached);
    ReachesIffCounted(g, root.id, {"spark_job", "streaming_job", "daft_job", "dagster_job"}, reached);
    ReachesIffCounted(g, root.id, {"schedule"}, reached);
  }

  /**
   Which requests for a known resource get which risk. High: a privilege changes data, and the name mentions bronze or
   raw, or the resource is a table or a schema, or much lies downstream. Low: no privilege changes data, and little
   lies downstream. Medium otherwise.
   */
  lemma RiskByReachability(
    g: Graph, request: Request, p: Preview, reached: set<NodeId>, root: Node, nodes: set<NodeId>, tables: set<NodeId>)
    requires Describes(p, g, request, reached) && ResolveRoot(g, request) == Some(root)
    requires DownstreamNodes(g, root.id, nodes) && DownstreamOf(g, root.id, {"table", "topic"}, tables)
    ensures var risk := DerivedRisk(request, p);
      var large := LargeDownstream(g, root.id, nodes, tables);
      && (risk == High <==>
        && AsksForChange(request.privileges)
        && (Mentions(request.lowerResource, "bronze") || Mentions(request.lowerResource, "raw")
          || root.nodeType == "table" || root.nodeType == "schema" || large))
      && (risk == Low <==> !AsksForChange(request.privileges) && !large)
  {
    LargeIffReached(g, request, p, reached, root, nodes, tables);
    ContainsIffMentions(request.lowerResource, "bronze");
    ContainsIffMentions(request.lowerResource, "raw");
    ChangeIffMutating(request.privileges);
  }

  lemma ChangeIffMutating(privileges: seq<string>)
    ensures AsksForChange(privileges) <==> IsMutating(privileges)
  {
  }

  /** A resource that is not in the lineage graph: there is nothing downstream to count. */
  lemma RiskOfUnknown(g: Graph, request: Request, p: Preview, reached: set<NodeId>)
    requires Describes(p, g, request, reached)
    requires request.resource !in g.aliases || g.aliases[request.resource] !in g.nodes
    ensures var risk := DerivedRisk(request, p);
      && (risk == High <==>
        && AsksForChange(request.privileges)
        && (Mentions(request.lowerResource, "bronze") || Mentions(request.lowerResource, "raw")))
      && (risk == Low <==> !AsksForChange(request.privileges))
      && p.rootType == None && p.totalDownstreamNodes == 0 && p.directDownstreamNodes == 0
  {
    ContainsIffMentions(request.lowerResource, "bronze");
    ContainsIffMentions(request.lowerResource, "raw");
    ChangeIffMutating(request.privileges);
  }

  /** The root is the node that the resource's name stands for. */
  lemma RootIsNamed(g: Graph, request: Request, p: Preview, reached: set<NodeId>)
    requires Describes(p, g, request, reached)
    requires request.resource in g.aliases && g.aliases[request.resource] in g.nodes
    ensures ResolveRoot(g, request) == Some(g.nodes[g.aliases[request.resource]])
    ensures p.rootType == Some(g.nodes[g.aliases[request.resource]].nodeType)
  {
  }

  /** The direct nodes are the different targets of the root's own edges. */
  lemma DirectAreTargets(
    g: Graph, request: Request, p: Preview, reached: set<NodeId>, root: Node, targets: set<NodeId>)
    requires Describes(p, g, request, reached) && ResolveRoot(g, request) == Some(root)
    requires forall n :: n in targets <==> HasEdge(g, root.id, n)
    ensures p.directDownstreamNodes == |targets|
  {
    SameSet(targets, Direct(g, root.id));
  }
}
