/**
  What publishing demands of a graph (docs/domain-model.md, section 5), and what it means
  for a reported issue to be right.
*/
module PublishRules {
  import opened Domain
  import opened Digraph

  datatype Reason =
    | CycleDetected
    | DanglingReference
    | DecisionWithResolution
    | DecisionWithoutEdges
    | MissingRoot
    | TerminalMissingResolution
    | TerminalWithEdges
    | UnreachableFromRoot

  datatype Issue = Issue(nodeId: Option<Uuid>, edgeId: Option<Uuid>, reason: Reason)

  function NodeIssue(id: Uuid, reason: Reason): Issue { Issue(Some(id), None, reason) }
  function EdgeIssue(id: Uuid, reason: Reason): Issue { Issue(None, Some(id), reason) }

  /** Some choice leads on from u. */
  ghost predicate HasChoice(g: Graph, u: Uuid) {
    exists e :: e in g.edges && Resolves(NodeIds(g.nodes), e) && e.from == u
  }

  ghost predicate RootUsable(g: Graph) {
    g.root.Some? && g.root.value in NodeIds(g.nodes)
  }

  /** A node's kind agrees with its choices and its resolution. */
  ghost predicate KindRules(g: Graph, n: Node) {
    && (n.kind == Decision ==> HasChoice(g, n.id) && n.resolution == None)
    && (n.kind == Terminal ==> !HasChoice(g, n.id) && n.resolution.Some? && n.resolution.value != "")
  }

  /** The publish-time rules of docs/domain-model.md, section 5. */
  ghost predicate Publishable(g: Graph) {
    && RootUsable(g)
    && (forall e :: e in g.edges ==> Resolves(NodeIds(g.nodes), e))
    && (forall n :: n in g.nodes ==> KindRules(g, n))
    && (forall n :: n in g.nodes ==> Reaches(Links(g), g.root.value, n.id))
    && Acyclic(Links(g))
  }

  /** Node x breaks the kind rule that r names. */
  predicate BreaksKindRule(x: Node, hasChoice: bool, r: Reason) {
    match r
    case DecisionWithoutEdges => x.kind == Decision && !hasChoice
    case DecisionWithResolution => x.kind == Decision && x.resolution.Some?
    case TerminalWithEdges => x.kind == Terminal && hasChoice
    case TerminalMissingResolution => x.kind == Terminal && (x.resolution == None || x.resolution == Some(""))
    case _ => false
  }

  /** Issue i states a rule, other than acyclicity, that g breaks. */
  ghost predicate Violates(g: Graph, i: Issue) {
    match i
    case Issue(None, None, r) =>
      r == MissingRoot && g.root == None
    case Issue(None, Some(e), r) =>
      r == DanglingReference && exists x :: x in g.edges && x.id == e && !Resolves(NodeIds(g.nodes), x)
    case Issue(Some(n), None, r) =>
      (match r
       case DanglingReference => g.root == Some(n) && n !in NodeIds(g.nodes)
       case UnreachableFromRoot =>
         RootUsable(g) && n in NodeIds(g.nodes) && !Reaches(Links(g), g.root.value, n)
       case _ => exists x :: x in g.nodes && x.id == n && BreaksKindRule(x, HasChoice(g, n), r))
    case Issue(Some(_), Some(_), _) => false
  }
}
