/**
  The decision engine: Start and Decide (internal/domain/investigation/decision.go), the
  graph lookups they are fed from, and what runs of them can and cannot do on a
  publishable graph.
*/
module Engine {
  import opened Domain
  import opened Digraph
  import opened PublishRules

  datatype Status = InProgress | Done

  datatype Investigation = Investigation(
    id: Uuid,
    alertId: Uuid,
    versionId: Uuid,
    status: Status,
    current: Uuid,
    startedAt: Time,
    completedAt: Option<Time>,
    resolution: Option<string>)

  datatype ErrorCode =
    | VersionNotPublished
    | InvestigationCompleted
    | InvalidTransition
    | IdempotencyKeyReused
    | AlertTypeMismatch
    | NotFound
    | Conflict
    | Invalid
    | Internal

  datatype Result<+T> = Ok(value: T) | Err(error: ErrorCode)

  // ----- lookups (internal/domain/playbook/playbook.go)

  function NodeById(nodes: seq<Node>, id: Uuid): Option<Node> {
    if nodes == [] then None else if nodes[0].id == id then Some(nodes[0]) else NodeById(nodes[1..], id)
  }

  function EdgeById(edges: seq<Edge>, id: Uuid): Option<Edge> {
    if edges == [] then None else if edges[0].id == id then Some(edges[0]) else EdgeById(edges[1..], id)
  }

  lemma {:induction false} NodeByIdFinds(nodes: seq<Node>, id: Uuid)
    ensures NodeById(nodes, id).Some? <==> id in NodeIds(nodes)
    ensures NodeById(nodes, id).Some? ==> NodeById(nodes, id).value in nodes && NodeById(nodes, id).value.id == id
    ensures UniqueNodeIds(nodes) ==> forall n :: n in nodes && n.id == id ==> NodeById(nodes, id) == Some(n)
  {
    if nodes != [] {
      NodeByIdFinds(nodes[1..], id);
      assert nodes == [nodes[0]] + nodes[1..];
      assert NodeIds(nodes) == {nodes[0].id} + NodeIds(nodes[1..]);
    }
  }

  lemma {:induction false} EdgeByIdFinds(edges: seq<Edge>, id: Uuid)
    ensures EdgeById(edges, id).Some? <==> id in EdgeIds(edges)
    ensures EdgeById(edges, id).Some? ==> EdgeById(edges, id).value in edges && EdgeById(edges, id).value.id == id
    ensures UniqueEdgeIds(edges) ==> forall e :: e in edges && e.id == id ==> EdgeById(edges, id) == Some(e)
  {
    if edges != [] {
      EdgeByIdFinds(edges[1..], id);
      assert edges == [edges[0]] + edges[1..];
      assert EdgeIds(edges) == {edges[0].id} + EdgeIds(edges[1..]);
    }
  }

  /** Graph.NodeByID: the first node with the id. */
  method FindNode(g: Graph, id: Uuid) returns (found: Option<Node>)
    ensures found == NodeById(g.nodes, id)
  {
    for i := 0 to |g.nodes|
      invariant NodeById(g.nodes, id) == NodeById(g.nodes[i..], id)
    {
      if g.nodes[i].id == id {
        return Some(g.nodes[i]);
      }
    }
    return None;
  }

  // ----- the rules

  function Start(alertId: Uuid, version: Version, root: Node, now: Time): Result<Investigation> {
    if version.status != Published then Err(VersionNotPublished)
    else
      var inv := Investigation(NIL, alertId, version.id, InProgress, root.id, now, None, None);
      if root.kind == Terminal then Ok(inv.(status := Done, completedAt := Some(now), resolution := root.resolution))
      else Ok(inv)
  }

  function Decide(inv: Investigation, edge: Edge, destination: Node, now: Time): Result<Investigation> {
    if inv.status == Done then Err(InvestigationCompleted)
    else if edge.from != inv.current then Err(InvalidTransition)
    else if edge.to != destination.id then Err(Internal)
    else
      var next := inv.(current := destination.id);
      if destination.kind == Terminal then
        Ok(next.(status := Done, completedAt := Some(now), resolution := destination.resolution))
      else Ok(next)
  }

  /** loadEdgeWithDestination: an edge of this graph joined with the node it leads to. */
  function LoadEdge(g: Graph, edgeId: Uuid): Option<(Edge, Node)> {
    var e := EdgeById(g.edges, edgeId);
    if e == None then None
    else
      var n := NodeById(g.nodes, e.value.to);
      if n == None then None else Some((e.value, n.value))
  }

  datatype Choice = Choice(edgeId: Uuid, at: Time)

  /** The checks of ApplyDecision between the replay check and the writes. */
  function Submit(g: Graph, inv: Investigation, c: Choice): Result<Investigation> {
    if inv.status == Done then Err(InvestigationCompleted)
    else
      var loaded := LoadEdge(g, c.edgeId);
      if loaded == None then Err(InvalidTransition) else Decide(inv, loaded.value.0, loaded.value.1, c.at)
  }

  /** All of a list of choices, accepted one after the other. */
  function Run(g: Graph, inv: Investigation, cs: seq<Choice>): Result<Investigation> {
    if cs == [] then Ok(inv)
    else
      var before := Run(g, inv, cs[..|cs| - 1]);
      if before.Err? then before else Submit(g, before.value, cs[|cs| - 1])
  }

  // ----- routes

  /** Edges of g that follow on from one another, the first leaving root. */
  ghost predicate IsRoute(g: Graph, root: Uuid, es: seq<Edge>) {
    forall i :: 0 <= i < |es| ==>
      es[i] in g.edges && Resolves(NodeIds(g.nodes), es[i]) && es[i].from == RouteNode(root, es, i)
  }

  /** Where a route stands after its first k edges. */
  function RouteNode(root: Uuid, es: seq<Edge>, k: nat): Uuid
    requires k <= |es|
  {
    if k == 0 then root else es[k - 1].to
  }

  function RouteNodes(root: Uuid, es: seq<Edge>): seq<Uuid> {
    seq(|es| + 1, k requires 0 <= k <= |es| => RouteNode(root, es, k))
  }

  lemma RouteWalks(g: Graph, root: Uuid, es: seq<Edge>)
    requires IsRoute(g, root, es)
    ensures IsWalk(Links(g), RouteNodes(root, es))
  {
    var p := RouteNodes(root, es);
    forall i | 0 <= i < |p| - 1 ensures (p[i], p[i + 1]) in Links(g) {
      assert p[i] == es[i].from && p[i + 1] == es[i].to;
    }
  }

  lemma RouteGrows(g: Graph, root: Uuid, es: seq<Edge>, e: Edge)
    requires IsRoute(g, root, es) && e in g.edges && Resolves(NodeIds(g.nodes), e)
    requires e.from == RouteNode(root, es, |es|)
    ensures IsRoute(g, root, es + [e]) && RouteNode(root, es + [e], |es| + 1) == e.to
  {
    forall i | 0 <= i < |es + [e]|
      ensures (es + [e])[i] in g.edges && Resolves(NodeIds(g.nodes), (es + [e])[i])
      ensures (es + [e])[i].from == RouteNode(root, es + [e], i)
    {
      if i < |es| { assert (es + [e])[i] == es[i]; }
    }
  }

  /** On a publishable graph a route visits no node twice and has fewer edges than the graph has nodes. */
  lemma RouteBounds(g: Graph, root: Uuid, es: seq<Edge>)
    requires IsRoute(g, root, es) && Acyclic(Links(g)) && root in NodeIds(g.nodes)
    ensures NoDuplicates(RouteNodes(root, es))
    ensures forall u :: u in RouteNodes(root, es) ==> u in NodeIds(g.nodes)
    ensures |es| <= |NodeIds(g.nodes)| - 1
  {
    RouteWalks(g, root, es);
    AcyclicWalkDistinct(Links(g), RouteNodes(root, es));
    DistinctFits(RouteNodes(root, es), NodeIds(g.nodes));
  }

  // ----- runs

  /** The row of an investigation agrees with the node it stands on. */
  ghost predicate Standing(g: Graph, inv: Investigation) {
    && inv.current in NodeIds(g.nodes)
    && var n := NodeById(g.nodes, inv.current);
    && n.Some?
    && (n.value.kind == Terminal ==> inv.status == Done && inv.completedAt.Some? && inv.resolution == n.value.resolution)
    && (n.value.kind != Terminal ==> inv.status == InProgress && inv.completedAt == None && inv.resolution == None)
  }

  /** What a stored, published version guarantees about its graph. */
  ghost predicate Playable(g: Graph) {
    Publishable(g) && KindsKnown(g.nodes) && UniqueNodeIds(g.nodes) && UniqueEdgeIds(g.edges)
  }

  lemma StartStands(g: Graph, alertId: Uuid, version: Version, root: Node, now: Time)
    requires Playable(g) && g.root == Some(root.id) && root in g.nodes && version.status == Published
    ensures Start(alertId, version, root, now).Ok?
    ensures var inv := Start(alertId, version, root, now).value;
      && Standing(g, inv) && inv.current == root.id
      && inv.alertId == alertId && inv.versionId == version.id && inv.startedAt == now
      && inv.completedAt == (if root.kind == Terminal then Some(now) else None)
  {
    NodeByIdFinds(g.nodes, root.id);
  }

  /** An accepted choice is an edge of the graph from the current node to the next. */
  lemma SubmitMoves(g: Graph, inv: Investigation, c: Choice)
    requires Submit(g, inv, c).Ok?
    ensures var e, next := EdgeById(g.edges, c.edgeId), Submit(g, inv, c).value;
      && inv.status == InProgress
      && e.Some? && e.value in g.edges && e.value.id == c.edgeId
      && e.value.from == inv.current && e.value.to == next.current
      && next.current in NodeIds(g.nodes)
      && next.id == inv.id && next.versionId == inv.versionId && next.alertId == inv.alertId && next.startedAt == inv.startedAt
  {
    EdgeByIdFinds(g.edges, c.edgeId);
    NodeByIdFinds(g.nodes, EdgeById(g.edges, c.edgeId).value.to);
  }

  lemma SubmitStands(g: Graph, inv: Investigation, c: Choice)
    requires Standing(g, inv) && Submit(g, inv, c).Ok?
    ensures Standing(g, Submit(g, inv, c).value)
  {
    SubmitMoves(g, inv, c);
  }

  /** Exactly the edges that leave the current node are accepted. */
  lemma AcceptedIffLeaves(g: Graph, inv: Investigation, e: Edge, t: Time)
    requires Playable(g) && Standing(g, inv) && e in g.edges
    ensures Submit(g, inv, Choice(e.id, t)).Ok? <==> inv.status == InProgress && e.from == inv.current
  {
    EdgeByIdFinds(g.edges, e.id);
    NodeByIdFinds(g.nodes, e.to);
    assert Resolves(NodeIds(g.nodes), e);
  }

  /** An investigation in progress can always move. */
  lemma NeverStuck(g: Graph, inv: Investigation)
    requires Playable(g) && Standing(g, inv) && inv.status == InProgress
    ensures exists e :: e in g.edges && e.from == inv.current && forall t :: Submit(g, inv, Choice(e.id, t)).Ok?
  {
    NodeByIdFinds(g.nodes, inv.current);
    var n := NodeById(g.nodes, inv.current).value;
    assert KindRules(g, n) && HasChoice(g, n.id);
    var e :| e in g.edges && Resolves(NodeIds(g.nodes), e) && e.from == n.id;
    forall t ensures Submit(g, inv, Choice(e.id, t)).Ok? { AcceptedIffLeaves(g, inv, e, t); }
  }

  lemma DoneHasOutcome(g: Graph, inv: Investigation)
    requires Playable(g) && Standing(g, inv) && inv.status == Done
    ensures inv.resolution.Some? && inv.resolution.value != "" && inv.completedAt.Some?
  {
    NodeByIdFinds(g.nodes, inv.current);
    assert KindRules(g, NodeById(g.nodes, inv.current).value);
  }

  ghost predicate ChoicesKnown(g: Graph, cs: seq<Choice>) {
    forall i :: 0 <= i < |cs| ==> EdgeById(g.edges, cs[i].edgeId).Some?
  }

  /** The edges that a run selects. */
  ghost function RunEdges(g: Graph, cs: seq<Choice>): seq<Edge>
    requires ChoicesKnown(g, cs)
  {
    seq(|cs|, i requires 0 <= i < |cs| => EdgeById(g.edges, cs[i].edgeId).value)
  }

  lemma RunEdgesGrow(g: Graph, cs: seq<Choice>)
    requires cs != [] && ChoicesKnown(g, cs[..|cs| - 1]) && EdgeById(g.edges, cs[|cs| - 1].edgeId).Some?
    ensures ChoicesKnown(g, cs)
    ensures RunEdges(g, cs) == RunEdges(g, cs[..|cs| - 1]) + [EdgeById(g.edges, cs[|cs| - 1].edgeId).value]
  {
    forall i | 0 <= i < |cs| ensures EdgeById(g.edges, cs[i].edgeId).Some? {
      if i < |cs| - 1 { assert cs[i] == cs[..|cs| - 1][i]; }
    }
  }

  lemma MoveExtends(g: Graph, root: Uuid, es: seq<Edge>, before: Investigation, c: Choice)
    requires IsRoute(g, root, es) && Standing(g, before) && before.current == RouteNode(root, es, |es|)
    requires Submit(g, before, c).Ok?
    ensures EdgeById(g.edges, c.edgeId).Some?
    ensures var e, next := EdgeById(g.edges, c.edgeId).value, Submit(g, before, c).value;
      IsRoute(g, root, es + [e]) && next.current == RouteNode(root, es + [e], |es| + 1) && Standing(g, next)
  {
    SubmitMoves(g, before, c);
    SubmitStands(g, before, c);
    RouteGrows(g, root, es, EdgeById(g.edges, c.edgeId).value);
  }

  lemma {:induction false} RunIsRoute(g: Graph, inv: Investigation, cs: seq<Choice>)
    requires Standing(g, inv) && Run(g, inv, cs).Ok?
    ensures ChoicesKnown(g, cs) && IsRoute(g, inv.current, RunEdges(g, cs))
    ensures Run(g, inv, cs).value.current == RouteNode(inv.current, RunEdges(g, cs), |cs|)
    ensures Standing(g, Run(g, inv, cs).value)
  {
    if cs != [] {
      var c, rest := cs[|cs| - 1], cs[..|cs| - 1];
      RunIsRoute(g, inv, rest);
      MoveExtends(g, inv.current, RunEdges(g, rest), Run(g, inv, rest).value, c);
      RunEdgesGrow(g, cs);
    }
  }

  /**
    Every run from Start on a publishable graph: no node is visited twice, there are
    fewer steps than nodes, the run can go on exactly while the investigation is in
    progress, and a run that cannot go on has completed with a non-empty resolution.
  */
  lemma RunTheorem(g: Graph, alertId: Uuid, version: Version, root: Node, now: Time, cs: seq<Choice>)
    requires Playable(g) && g.root == Some(root.id) && root in g.nodes && version.status == Published
    requires Run(g, Start(alertId, version, root, now).value, cs).Ok?
    ensures ChoicesKnown(g, cs)
    ensures NoDuplicates(RouteNodes(root.id, RunEdges(g, cs)))
    ensures |cs| <= |NodeIds(g.nodes)| - 1
    ensures var inv := Run(g, Start(alertId, version, root, now).value, cs).value;
      && inv.current == RouteNode(root.id, RunEdges(g, cs), |cs|)
      && (inv.status == InProgress <==> exists c :: Submit(g, inv, c).Ok?)
      && (inv.status == Done <==> inv.resolution.Some? && inv.resolution.value != "")
  {
    StartStands(g, alertId, version, root, now);
    var inv0 := Start(alertId, version, root, now).value;
    RunIsRoute(g, inv0, cs);
    RouteBounds(g, root.id, RunEdges(g, cs));
    var inv := Run(g, inv0, cs).value;
    if inv.status == InProgress {
      NeverStuck(g, inv);
      var e :| e in g.edges && e.from == inv.current && forall t :: Submit(g, inv, Choice(e.id, t)).Ok?;
      assert Submit(g, inv, Choice(e.id, 0)).Ok?;
    } else {
      DoneHasOutcome(g, inv);
    }
  }

  /** Once a run has left a node, no edge of that node is ever accepted again. */
  lemma StaleChoicesRejected(g: Graph, inv: Investigation, cs: seq<Choice>, e: Edge, t: Time)
    requires Playable(g) && Standing(g, inv) && e in g.edges && e.from == inv.current
    requires |cs| > 0 && Run(g, inv, cs).Ok?
    ensures Submit(g, Run(g, inv, cs).value, Choice(e.id, t)).Err?
  {
    RunIsRoute(g, inv, cs);
    RouteBounds(g, inv.current, RunEdges(g, cs));
    var p := RouteNodes(inv.current, RunEdges(g, cs));
    assert p[0] == inv.current && p[|cs|] == Run(g, inv, cs).value.current;
    AcceptedIffLeaves(g, Run(g, inv, cs).value, e, t);
  }
}
