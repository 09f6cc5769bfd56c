/**
  validateGraphInput (internal/service/playbookservice/service.go): what makes a graph
  storable as far as the service can tell.
*/
module GraphInput {
  import opened Domain

  datatype Fault =
    | NodeIdMissing | NodeIdDuplicated | KindUnknown | TitleMissing
    | EdgeIdMissing | EdgeIdDuplicated | LabelMissing | EndpointsMissing

  /** Node i breaks rule f. */
  predicate NodeFault(nodes: seq<Node>, i: nat, f: Fault)
    requires i < |nodes|
  {
    var n := nodes[i];
    match f
    case NodeIdMissing => n.id == NIL
    case NodeIdDuplicated => exists j :: 0 <= j < i && nodes[j].id == n.id
    case KindUnknown => n.kind.Unknown?
    case TitleMissing => n.title == ""
    case _ => false
  }

  /** The order in which the rules are checked. */
  function Turn(f: Fault): nat {
    match f
    case NodeIdMissing => 0
    case NodeIdDuplicated => 1
    case KindUnknown => 2
    case TitleMissing => 3
    case EdgeIdMissing => 4
    case EdgeIdDuplicated => 5
    case LabelMissing => 6
    case EndpointsMissing => 7
  }

  /** f is the first rule that node i breaks. */
  ghost predicate FirstNodeFault(nodes: seq<Node>, i: nat, f: Fault)
    requires i < |nodes|
  {
    NodeFault(nodes, i, f) && forall g :: Turn(g) < Turn(f) ==> !NodeFault(nodes, i, g)
  }

  /** f is the first rule that edge i breaks. */
  ghost predicate FirstEdgeFault(edges: seq<Edge>, i: nat, f: Fault)
    requires i < |edges|
  {
    EdgeFault(edges, i, f) && forall g :: Turn(g) < Turn(f) ==> !EdgeFault(edges, i, g)
  }

  predicate EdgeFault(edges: seq<Edge>, i: nat, f: Fault)
    requires i < |edges|
  {
    var e := edges[i];
    match f
    case EdgeIdMissing => e.id == NIL
    case EdgeIdDuplicated => exists j :: 0 <= j < i && edges[j].id == e.id
    case LabelMissing => e.caption == ""
    case EndpointsMissing => e.from == NIL || e.to == NIL
    case _ => false
  }

  ghost predicate NodesClean(nodes: seq<Node>) {
    forall i, f :: 0 <= i < |nodes| ==> !NodeFault(nodes, i, f)
  }

  ghost predicate EdgesClean(edges: seq<Edge>) {
    forall i, f :: 0 <= i < |edges| ==> !EdgeFault(edges, i, f)
  }

  method CheckNodes(nodes: seq<Node>) returns (r: Option<(nat, Fault)>)
    ensures r == None <==> NodesClean(nodes)
    ensures r.Some? ==> r.value.0 < |nodes| && FirstNodeFault(nodes, r.value.0, r.value.1)
    ensures r.Some? ==> forall j, f :: 0 <= j < r.value.0 ==> !NodeFault(nodes, j, f)
  {
    var seen: set<Uuid> := {};
    for i := 0 to |nodes|
      invariant forall u :: u in seen <==> exists j :: 0 <= j < i && nodes[j].id == u
      invariant forall j, f :: 0 <= j < i ==> !NodeFault(nodes, j, f)
    {
      var n := nodes[i];
      assert NodeFault(nodes, i, NodeIdMissing) <==> n.id == NIL;
      assert NodeFault(nodes, i, NodeIdDuplicated) <==> n.id in seen;
      assert NodeFault(nodes, i, KindUnknown) <==> n.kind.Unknown?;
      assert NodeFault(nodes, i, TitleMissing) <==> n.title == "";
      if n.id == NIL { return Some((i, NodeIdMissing)); }
      if n.id in seen { return Some((i, NodeIdDuplicated)); }
      seen := seen + {n.id};
      if n.kind != Decision && n.kind != Terminal { return Some((i, KindUnknown)); }
      if n.title == "" { return Some((i, TitleMissing)); }
      assert forall f :: !NodeFault(nodes, i, f);
    }
    return None;
  }

  method CheckEdges(edges: seq<Edge>) returns (r: Option<(nat, Fault)>)
    ensures r == None <==> EdgesClean(edges)
    ensures r.Some? ==> r.value.0 < |edges| && FirstEdgeFault(edges, r.value.0, r.value.1)
    ensures r.Some? ==> forall j, f :: 0 <= j < r.value.0 ==> !EdgeFault(edges, j, f)
  {
    var seen: set<Uuid> := {};
    for i := 0 to |edges|
      invariant forall u :: u in seen <==> exists j :: 0 <= j < i && edges[j].id == u
      invariant forall j, f :: 0 <= j < i ==> !EdgeFault(edges, j, f)
    {
      var e := edges[i];
      assert EdgeFault(edges, i, EdgeIdMissing) <==> e.id == NIL;
      assert EdgeFault(edges, i, EdgeIdDuplicated) <==> e.id in seen;
      assert EdgeFault(edges, i, LabelMissing) <==> e.caption == "";
      assert EdgeFault(edges, i, EndpointsMissing) <==> e.from == NIL || e.to == NIL;
      if e.id == NIL { return Some((i, EdgeIdMissing)); }
      if e.id in seen { return Some((i, EdgeIdDuplicated)); }
      seen := seen + {e.id};
      if e.caption == "" { return Some((i, LabelMissing)); }
      if e.from == NIL || e.to == NIL { return Some((i, EndpointsMissing)); }
      assert forall f :: !EdgeFault(edges, i, f);
    }
    return None;
  }

  /** validateGraphInput: the first fault of the first faulty node, else of the first faulty edge, else none. */
  method ValidateGraphInput(g: Graph) returns (r: Option<(nat, Fault)>)
    ensures r == None <==> NodesClean(g.nodes) && EdgesClean(g.edges)
    ensures !NodesClean(g.nodes) ==> r.Some? && r.value.0 < |g.nodes| && FirstNodeFault(g.nodes, r.value.0, r.value.1)
    ensures !NodesClean(g.nodes) ==> forall j, f :: 0 <= j < r.value.0 ==> !NodeFault(g.nodes, j, f)
    ensures NodesClean(g.nodes) && r.Some? ==> r.value.0 < |g.edges| && FirstEdgeFault(g.edges, r.value.0, r.value.1)
    ensures NodesClean(g.nodes) && r.Some? ==> forall j, f :: 0 <= j < r.value.0 ==> !EdgeFault(g.edges, j, f)
  {
    r := CheckNodes(g.nodes);
    if r == None {
      r := CheckEdges(g.edges);
    }
  }
}
