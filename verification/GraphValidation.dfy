/**
  Publish-time graph validation (internal/domain/playbook/graph.go): Validate collects
  every problem of a graph, and finds none exactly when the graph is publishable.
*/
module GraphValidation {
  import opened Domain
  import opened Digraph
  import opened Distinct
  import opened PublishRules
  import opened StableSort
  import opened CycleDetection
  import opened CycleSearch
  import opened SearchPaths

  // ----- the order of the report

  /** The wire values of the reasons, which is what the report is sorted by. */
  function ReasonText(r: Reason): string {
    match r
    case CycleDetected => "cycle_detected"
    case DanglingReference => "dangling_reference"
    case DecisionWithResolution => "decision_node_with_resolution"
    case DecisionWithoutEdges => "decision_node_without_edges"
    case MissingRoot => "missing_root"
    case TerminalMissingResolution => "terminal_node_missing_resolution"
    case TerminalWithEdges => "terminal_node_with_edges"
    case UnreachableFromRoot => "unreachable_from_root"
  }

  /** The text form of the referenced id; the empty string, which is below every id, is -1. */
  function Key(i: Issue): int {
    if i.nodeId.Some? then i.nodeId.value else if i.edgeId.Some? then i.edgeId.value else -1
  }

  /** "Not after" for the comparison that sortIssues passes to sort.SliceStable. */
  predicate IssueLe(a: Issue, b: Issue) {
    if ReasonText(a.reason) != ReasonText(b.reason) then StringLe(ReasonText(a.reason), ReasonText(b.reason))
    else Key(a) <= Key(b)
  }

  lemma IssueOrder()
    ensures TotalPreorder(IssueLe)
  {
    forall x, y ensures IssueLe(x, y) || IssueLe(y, x) {
      StringLeTotal(ReasonText(x.reason), ReasonText(y.reason));
    }
    forall x, y, z | IssueLe(x, y) && IssueLe(y, z) ensures IssueLe(x, z) {
      var a, b, c := ReasonText(x.reason), ReasonText(y.reason), ReasonText(z.reason);
      StringLeTotal(a, b);
      StringLeTotal(b, c);
      StringLeTotal(a, c);
      if StringLe(a, b) && StringLe(b, c) {
        StringLeTransitive(a, b, c);
      }
    }
  }

  /** Where each reason stands in a report. */
  function Rank(r: Reason): nat {
    match r
    case CycleDetected => 0
    case DanglingReference => 1
    case DecisionWithResolution => 2
    case DecisionWithoutEdges => 3
    case MissingRoot => 4
    case TerminalMissingResolution => 5
    case TerminalWithEdges => 6
    case UnreachableFromRoot => 7
  }

  /** Text a comes strictly before text b. */
  predicate Precedes(a: string, b: string) {
    StringLe(a, b) && a != b
  }

  lemma SmallerStart(a: string, b: string)
    requires a != [] && b != [] && a[0] < b[0]
    ensures Precedes(a, b)
  {
  }

  lemma SmallerSecond(a: string, b: string)
    requires |a| >= 2 && |b| >= 2 && a[0] == b[0] && a[1] < b[1]
    ensures Precedes(a, b)
  {
    assert a[1..][0] == a[1] && b[1..][0] == b[1];
  }

  lemma SameStart(c: char, a: string, b: string)
    requires Precedes(a, b)
    ensures Precedes([c] + a, [c] + b)
  {
    assert ([c] + a)[1..] == a && ([c] + b)[1..] == b;
  }

  lemma {:induction false} SameBeginning(common: string, a: string, b: string)
    requires Precedes(a, b)
    ensures Precedes(common + a, common + b)
  {
    if common == [] {
      assert common + a == a && common + b == b;
    } else {
      SameBeginning(common[1..], a, b);
      SameStart(common[0], common[1..] + a, common[1..] + b);
      assert [common[0]] + (common[1..] + a) == common + a && [common[0]] + (common[1..] + b) == common + b;
    }
  }

  lemma DecisionReasons()
    ensures Precedes(ReasonText(DecisionWithResolution), ReasonText(DecisionWithoutEdges))
  {
    SmallerStart("_resolution", "out_edges");
    SameBeginning("decision_node_with", "_resolution", "out_edges");
    assert "decision_node_with" + "_resolution" == "decision_node_with_resolution";
    assert "decision_node_with" + "out_edges" == "decision_node_without_edges";
  }

  lemma TerminalReasons()
    ensures Precedes(ReasonText(TerminalMissingResolution), ReasonText(TerminalWithEdges))
  {
    SmallerStart("missing_resolution", "with_edges");
    SameBeginning("terminal_node_", "missing_resolution", "with_edges");
    assert "terminal_node_" + "missing_resolution" == "terminal_node_missing_resolution";
    assert "terminal_node_" + "with_edges" == "terminal_node_with_edges";
  }

  lemma DanglingBeforeDecision()
    ensures Precedes(ReasonText(DanglingReference), ReasonText(DecisionWithResolution))
  {
    SmallerSecond(ReasonText(DanglingReference), ReasonText(DecisionWithResolution));
  }

  lemma ReasonsFollow(r: Reason, q: Reason)
    requires Rank(q) == Rank(r) + 1
    ensures Precedes(ReasonText(r), ReasonText(q))
  {
    match r {
      case DecisionWithResolution => DecisionReasons();
      case TerminalMissingResolution => TerminalReasons();
      case DanglingReference => DanglingBeforeDecision();
      case _ => SmallerStart(ReasonText(r), ReasonText(q));
    }
  }

  lemma {:induction false} ReasonsRanked(r: Reason, q: Reason)
    requires Rank(r) < Rank(q)
    ensures Precedes(ReasonText(r), ReasonText(q))
    decreases Rank(q)
  {
    var p :| Rank(p) == Rank(q) - 1;
    ReasonsFollow(p, q);
    if Rank(r) < Rank(p) {
      ReasonsRanked(r, p);
      StringLeTransitive(ReasonText(r), ReasonText(p), ReasonText(q));
      StringLeTotal(ReasonText(r), ReasonText(p));
      StringLeTotal(ReasonText(p), ReasonText(q));
    } else {
      SameRank(p, r);
    }
  }

  lemma SameRank(p: Reason, r: Reason)
    requires Rank(p) == Rank(r)
    ensures p == r
  {
  }

  /** The id an issue refers to. */
  function IdOf(i: Issue): Option<Uuid> {
    if i.nodeId.Some? then i.nodeId else i.edgeId
  }

  /** No id comes before any id. */
  predicate IdNotAfter(a: Option<Uuid>, b: Option<Uuid>) {
    a == None || (b.Some? && a.value <= b.value)
  }

  lemma IssueLeMeans(a: Issue, b: Issue)
    ensures IssueLe(a, b) <==> Rank(a.reason) < Rank(b.reason) || (a.reason == b.reason && IdNotAfter(IdOf(a), IdOf(b)))
  {
    if Rank(a.reason) < Rank(b.reason) {
      ReasonsRanked(a.reason, b.reason);
    } else if Rank(b.reason) < Rank(a.reason) {
      ReasonsRanked(b.reason, a.reason);
      StringLeTotal(ReasonText(a.reason), ReasonText(b.reason));
    }
  }

  /** A report goes reason by reason, and within a reason by the ids. */
  lemma ReportInOrder(g: Graph, issues: seq<Issue>, i: nat, j: nat)
    requires IsReportOf(g, issues) && i < j < |issues|
    ensures Rank(issues[i].reason) < Rank(issues[j].reason) ||
      (issues[i].reason == issues[j].reason && IdNotAfter(IdOf(issues[i]), IdOf(issues[j])))
  {
    IssueLeMeans(issues[i], issues[j]);
  }

  // ----- the report, section by section

  function RootIssues(g: Graph): seq<Issue> {
    if g.root == None then [Issue(None, None, MissingRoot)]
    else if g.root.value !in NodeIds(g.nodes) then [NodeIssue(g.root.value, DanglingReference)]
    else []
  }

  function EdgeIssues(ids: set<Uuid>, edges: seq<Edge>): seq<Issue> {
    if edges == [] then []
    else
      var e := edges[|edges| - 1];
      EdgeIssues(ids, edges[..|edges| - 1]) + if Resolves(ids, e) then [] else [EdgeIssue(e.id, DanglingReference)]
  }

  function TargetOf(ids: set<Uuid>, e: Edge, u: Uuid): seq<Uuid> {
    if Resolves(ids, e) && e.from == u then [e.to] else []
  }

  /** Where the resolving edges out of u lead, in edge order. */
  function Targets(ids: set<Uuid>, edges: seq<Edge>, u: Uuid): seq<Uuid> {
    if edges == [] then []
    else Targets(ids, edges[..|edges| - 1], u) + TargetOf(ids, edges[|edges| - 1], u)
  }

  function KindIssuesOf(n: Node, degree: nat): seq<Issue> {
    match n.kind
    case Decision =>
      (if degree == 0 then [NodeIssue(n.id, DecisionWithoutEdges)] else []) +
      (if n.resolution.Some? then [NodeIssue(n.id, DecisionWithResolution)] else [])
    case Terminal =>
      (if degree > 0 then [NodeIssue(n.id, TerminalWithEdges)] else []) +
      (if n.resolution == None || n.resolution == Some("") then [NodeIssue(n.id, TerminalMissingResolution)] else [])
    case Unknown(_) => []
  }

  function KindIssues(g: Graph, nodes: seq<Node>): seq<Issue> {
    if nodes == [] then []
    else
      var n := nodes[|nodes| - 1];
      KindIssues(g, nodes[..|nodes| - 1]) + KindIssuesOf(n, |Targets(NodeIds(g.nodes), g.edges, n.id)|)
  }

  /** One issue per node whose id is picked, in node order. */
  function ReportNodes(nodes: seq<Node>, picked: set<Uuid>, reason: Reason): seq<Issue> {
    if nodes == [] then []
    else
      var n := nodes[|nodes| - 1];
      ReportNodes(nodes[..|nodes| - 1], picked, reason) + if n.id in picked then [NodeIssue(n.id, reason)] else []
  }

  lemma {:induction false} TargetsAre(ids: set<Uuid>, edges: seq<Edge>, u: Uuid, v: Uuid)
    ensures v in Targets(ids, edges, u) <==> exists e :: e in edges && Resolves(ids, e) && e.from == u && e.to == v
  {
    if edges != [] {
      var e, rest := edges[|edges| - 1], edges[..|edges| - 1];
      TargetsAre(ids, rest, u, v);
      assert edges == rest + [e];
      if e.from == u && e.to == v && Resolves(ids, e) { assert e in edges; }
    }
  }

  lemma ChoicesAreTargets(g: Graph, u: Uuid)
    ensures HasChoice(g, u) <==> |Targets(NodeIds(g.nodes), g.edges, u)| > 0
  {
    var ids := NodeIds(g.nodes);
    var ts := Targets(ids, g.edges, u);
    if |ts| > 0 {
      TargetsAre(ids, g.edges, u, ts[0]);
      assert ts[0] in ts;
    }
    if HasChoice(g, u) {
      var e :| e in g.edges && Resolves(ids, e) && e.from == u;
      TargetsAre(ids, g.edges, u, e.to);
    }
  }

  lemma {:induction false} EdgeIssuesAre(ids: set<Uuid>, edges: seq<Edge>, i: Issue)
    ensures i in EdgeIssues(ids, edges) <==>
      exists x :: x in edges && i == EdgeIssue(x.id, DanglingReference) && !Resolves(ids, x)
  {
    if edges != [] {
      var e, rest := edges[|edges| - 1], edges[..|edges| - 1];
      EdgeIssuesAre(ids, rest, i);
      assert edges == rest + [e];
      if i == EdgeIssue(e.id, DanglingReference) && !Resolves(ids, e) { assert e in edges; }
    }
  }

  /** Issue i is among those of node n. */
  predicate KindIssueAt(g: Graph, n: Node, i: Issue) {
    i in KindIssuesOf(n, |Targets(NodeIds(g.nodes), g.edges, n.id)|)
  }

  lemma {:induction false} KindIssueFrom(g: Graph, nodes: seq<Node>, i: Issue) returns (n: Node)
    requires i in KindIssues(g, nodes)
    ensures n in nodes && KindIssueAt(g, n, i)
  {
    n := nodes[|nodes| - 1];
    if i in KindIssues(g, nodes[..|nodes| - 1]) { n := KindIssueFrom(g, nodes[..|nodes| - 1], i); }
  }

  lemma {:induction false} KindIssueListed(g: Graph, nodes: seq<Node>, n: Node, i: Issue)
    requires n in nodes && KindIssueAt(g, n, i)
    ensures i in KindIssues(g, nodes)
  {
    if n in nodes[..|nodes| - 1] { KindIssueListed(g, nodes[..|nodes| - 1], n, i); }
  }

  lemma {:induction false} ReportNodesAre(nodes: seq<Node>, picked: set<Uuid>, reason: Reason, i: Issue)
    ensures i in ReportNodes(nodes, picked, reason) <==>
      i.reason == reason && i.edgeId == None && i.nodeId.Some? && i.nodeId.value in NodeIds(nodes) * picked
  {
    if nodes != [] {
      var n, rest := nodes[|nodes| - 1], nodes[..|nodes| - 1];
      ReportNodesAre(nodes[..|nodes| - 1], picked, reason, i);
      assert nodes == rest + [n];
      assert NodeIds(nodes) == NodeIds(rest) + {n.id};
    }
  }

  lemma KindIssuesOfAre(n: Node, degree: nat, i: Issue)
    ensures i in KindIssuesOf(n, degree) <==> i == NodeIssue(n.id, i.reason) && BreaksKindRule(n, degree > 0, i.reason)
    ensures NoDuplicates(KindIssuesOf(n, degree))
  {
  }

  lemma KindIssueAtIs(g: Graph, n: Node, i: Issue)
    ensures KindIssueAt(g, n, i) <==> i == NodeIssue(n.id, i.reason) && BreaksKindRule(n, HasChoice(g, n.id), i.reason)
  {
    ChoicesAreTargets(g, n.id);
    KindIssuesOfAre(n, |Targets(NodeIds(g.nodes), g.edges, n.id)|, i);
  }

  lemma KindIssuesViolate(g: Graph, i: Issue)
    ensures i in KindIssues(g, g.nodes) <==>
      exists n :: n in g.nodes && i == NodeIssue(n.id, i.reason) && BreaksKindRule(n, HasChoice(g, n.id), i.reason)
  {
    if i in KindIssues(g, g.nodes) {
      var n := KindIssueFrom(g, g.nodes, i);
      KindIssueAtIs(g, n, i);
    }
    forall n | n in g.nodes && i == NodeIssue(n.id, i.reason) && BreaksKindRule(n, HasChoice(g, n.id), i.reason)
      ensures i in KindIssues(g, g.nodes)
    {
      KindIssueAtIs(g, n, i);
      KindIssueListed(g, g.nodes, n, i);
    }
  }

  /** The report before sorting, given which nodes the two searches picked. */
  function Report(g: Graph, flagged: set<Uuid>, unreached: set<Uuid>): seq<Issue> {
    RootIssues(g) + EdgeIssues(NodeIds(g.nodes), g.edges) + KindIssues(g, g.nodes) +
    ReportNodes(g.nodes, flagged, CycleDetected) +
    ReportNodes(g.nodes, unreached, UnreachableFromRoot)
  }

  ghost predicate UnreachedAre(g: Graph, unreached: set<Uuid>) {
    forall u :: u in NodeIds(g.nodes) ==>
      (u in unreached <==> RootUsable(g) && !Reaches(Links(g), g.root.value, u))
  }

  /** The reasons that the node-kind loop reports. */
  predicate IsKindReason(r: Reason) {
    r in {DecisionWithoutEdges, DecisionWithResolution, TerminalWithEdges, TerminalMissingResolution}
  }

  lemma EdgeSection(g: Graph, i: Issue)
    ensures i in EdgeIssues(NodeIds(g.nodes), g.edges) <==> i.nodeId == None && i.edgeId.Some? && Violates(g, i)
  {
    EdgeIssuesAre(NodeIds(g.nodes), g.edges, i);
  }

  lemma KindSection(g: Graph, i: Issue)
    ensures i in KindIssues(g, g.nodes) <==> i.nodeId.Some? && i.edgeId == None && IsKindReason(i.reason) && Violates(g, i)
  {
    KindIssuesViolate(g, i);
  }

  lemma UnreachedSection(g: Graph, unreached: set<Uuid>, i: Issue)
    requires UnreachedAre(g, unreached)
    ensures i in ReportNodes(g.nodes, unreached, UnreachableFromRoot) <==>
      i.nodeId.Some? && i.edgeId == None && i.reason == UnreachableFromRoot && Violates(g, i)
  {
    ReportNodesAre(g.nodes, unreached, UnreachableFromRoot, i);
  }

  /** The issues that concern the root. */
  predicate IsRootIssue(i: Issue) {
    i.edgeId == None && if i.nodeId == None then i.reason == MissingRoot else i.reason == DanglingReference
  }

  lemma RootSection(g: Graph, i: Issue)
    ensures i in RootIssues(g) <==> IsRootIssue(i) && Violates(g, i)
  {
  }

  lemma ViolationsHaveSections(g: Graph, i: Issue)
    requires Violates(g, i)
    ensures i.reason != CycleDetected
    ensures IsRootIssue(i) || (i.nodeId == None && i.edgeId.Some?) ||
      (i.nodeId.Some? && i.edgeId == None && (IsKindReason(i.reason) || i.reason == UnreachableFromRoot))
  {
  }

  lemma ReportMembers(g: Graph, flagged: set<Uuid>, unreached: set<Uuid>, i: Issue)
    requires UnreachedAre(g, unreached)
    ensures i.reason != CycleDetected ==> (i in Report(g, flagged, unreached) <==> Violates(g, i))
    ensures i.reason == CycleDetected ==> (i in Report(g, flagged, unreached) <==>
      i.edgeId == None && i.nodeId.Some? && i.nodeId.value in NodeIds(g.nodes) * flagged)
  {
    RootSection(g, i);
    EdgeSection(g, i);
    KindSection(g, i);
    UnreachedSection(g, unreached, i);
    ReportNodesAre(g.nodes, flagged, CycleDetected, i);
    if Violates(g, i) { ViolationsHaveSections(g, i); }
  }

  // ----- nothing is reported twice

  lemma {:induction false} EdgeIssuesDistinct(ids: set<Uuid>, edges: seq<Edge>)
    requires UniqueEdgeIds(edges)
    ensures NoDuplicates(EdgeIssues(ids, edges))
  {
    if edges != [] {
      EdgeIssuesDistinct(ids, edges[..|edges| - 1]);
      EdgeIssuesAre(ids, edges[..|edges| - 1], EdgeIssue(edges[|edges| - 1].id, DanglingReference));
    }
  }

  lemma KindIssuesName(g: Graph, nodes: seq<Node>, i: Issue)
    requires i in KindIssues(g, nodes)
    ensures i.nodeId.Some? && i.nodeId.value in NodeIds(nodes)
  {
    var n := KindIssueFrom(g, nodes, i);
    KindIssuesOfAre(n, |Targets(NodeIds(g.nodes), g.edges, n.id)|, i);
  }

  lemma {:induction false} KindIssuesDistinct(g: Graph, nodes: seq<Node>)
    requires UniqueNodeIds(nodes)
    ensures NoDuplicates(KindIssues(g, nodes))
  {
    if nodes != [] {
      var n, rest := nodes[|nodes| - 1], nodes[..|nodes| - 1];
      KindIssuesDistinct(g, rest);
      var a, b := KindIssues(g, rest), KindIssuesOf(n, |Targets(NodeIds(g.nodes), g.edges, n.id)|);
      forall x | x in a ensures x !in b {
        KindIssuesName(g, rest, x);
        KindIssuesOfAre(n, |Targets(NodeIds(g.nodes), g.edges, n.id)|, x);
      }
      KindIssuesOfAre(n, |Targets(NodeIds(g.nodes), g.edges, n.id)|, NodeIssue(n.id, MissingRoot));
      JoinDistinct(a, b);
    }
  }

  lemma {:induction false} ReportNodesDistinct(nodes: seq<Node>, picked: set<Uuid>, reason: Reason)
    requires UniqueNodeIds(nodes)
    ensures NoDuplicates(ReportNodes(nodes, picked, reason))
  {
    if nodes != [] {
      ReportNodesDistinct(nodes[..|nodes| - 1], picked, reason);
      ReportNodesAre(nodes[..|nodes| - 1], picked, reason, NodeIssue(nodes[|nodes| - 1].id, reason));
    }
  }

  lemma ReportDistinct(g: Graph, flagged: set<Uuid>, unreached: set<Uuid>)
    requires UniqueNodeIds(g.nodes) && UniqueEdgeIds(g.edges)
    ensures NoDuplicates(Report(g, flagged, unreached))
  {
    var ids := NodeIds(g.nodes);
    var a, b, c := RootIssues(g), EdgeIssues(ids, g.edges), KindIssues(g, g.nodes);
    var d, e := ReportNodes(g.nodes, flagged, CycleDetected), ReportNodes(g.nodes, unreached, UnreachableFromRoot);
    EdgeIssuesDistinct(ids, g.edges);
    KindIssuesDistinct(g, g.nodes);
    ReportNodesDistinct(g.nodes, flagged, CycleDetected);
    ReportNodesDistinct(g.nodes, unreached, UnreachableFromRoot);
    forall x ensures x in b ==> x.edgeId.Some? { EdgeIssuesAre(ids, g.edges, x); }
    forall x | x in c
      ensures x.nodeId.Some? && x.edgeId == None
      ensures x.reason != DanglingReference && x.reason != CycleDetected && x.reason != UnreachableFromRoot
    {
      KindIssuesViolate(g, x);
    }
    forall x ensures x in d ==> x.edgeId == None && x.reason == CycleDetected {
      ReportNodesAre(g.nodes, flagged, CycleDetected, x);
    }
    forall x ensures x in e ==> x.edgeId == None && x.reason == UnreachableFromRoot {
      ReportNodesAre(g.nodes, unreached, UnreachableFromRoot, x);
    }
    JoinDistinct(a, b);
    JoinDistinct(a + b, c);
    JoinDistinct(a + b + c, d);
    JoinDistinct(a + b + c + d, e);
  }

  lemma PublishableViolatesNothing(g: Graph, i: Issue)
    requires Publishable(g) && i.reason != CycleDetected
    ensures !Violates(g, i)
  {
  }

  lemma ReportedNotPublishable(g: Graph, flagged: set<Uuid>, unreached: set<Uuid>, i: Issue)
    requires UnreachedAre(g, unreached) && FlagsSound(Links(g), flagged) && i in Report(g, flagged, unreached)
    ensures !Publishable(g)
  {
    ReportMembers(g, flagged, unreached, i);
    if i.reason == CycleDetected {
      assert OnCycle(Links(g), i.nodeId.value);
    } else if Publishable(g) {
      PublishableViolatesNothing(g, i);
    }
  }

  /** A report is empty exactly when the graph is publishable. */
  lemma EmptyIffPublishable(g: Graph, flagged: set<Uuid>, unreached: set<Uuid>)
    requires UnreachedAre(g, unreached)
    requires FlagsSound(Links(g), flagged) && FlagsComplete(Links(g), flagged)
    ensures Report(g, flagged, unreached) == [] <==> Publishable(g)
  {
    var all := Report(g, flagged, unreached);
    if all == [] {
      NothingReported(g, flagged, unreached);
    } else {
      ReportedNotPublishable(g, flagged, unreached, all[0]);
    }
  }

  lemma NothingReported(g: Graph, flagged: set<Uuid>, unreached: set<Uuid>)
    requires UnreachedAre(g, unreached) && FlagsComplete(Links(g), flagged)
    requires Report(g, flagged, unreached) == []
    ensures Publishable(g)
  {
    forall i: Issue | i.reason != CycleDetected ensures !Violates(g, i) { ReportMembers(g, flagged, unreached, i); }
    forall u ensures u !in NodeIds(g.nodes) * flagged {
      ReportMembers(g, flagged, unreached, NodeIssue(u, CycleDetected));
    }
    NothingViolated(g, flagged);
  }

  lemma FlaggedEnd(ids: set<Uuid>, r: Relation, p: seq<Uuid>, flagged: set<Uuid>)
    requires IsWalk(r, p) && HasFlaggedEdge(p, flagged) && forall l :: l in r ==> l.1 in ids
    ensures ids * flagged != {}
  {
    var k :| 0 <= k < |p| - 1 && p[k] in flagged && p[k + 1] in flagged;
    assert (p[k], p[k + 1]) in r;
    assert p[k + 1] in ids * flagged;
  }

  lemma NothingViolated(g: Graph, flagged: set<Uuid>)
    requires forall i: Issue :: i.reason != CycleDetected ==> !Violates(g, i)
    requires NodeIds(g.nodes) * flagged == {}
    requires FlagsComplete(Links(g), flagged)
    ensures Publishable(g)
  {
    assert g.root.Some? by { assert !Violates(g, Issue(None, None, MissingRoot)); }
    assert RootUsable(g) by { assert !Violates(g, NodeIssue(g.root.value, DanglingReference)); }
    forall e | e in g.edges ensures Resolves(NodeIds(g.nodes), e) {
      assert !Violates(g, EdgeIssue(e.id, DanglingReference));
    }
    forall n | n in g.nodes ensures KindRules(g, n) {
      assert !Violates(g, NodeIssue(n.id, DecisionWithoutEdges));
      assert !Violates(g, NodeIssue(n.id, DecisionWithResolution));
      assert !Violates(g, NodeIssue(n.id, TerminalWithEdges));
      assert !Violates(g, NodeIssue(n.id, TerminalMissingResolution));
    }
    forall n | n in g.nodes ensures Reaches(Links(g), g.root.value, n.id) {
      assert !Violates(g, NodeIssue(n.id, UnreachableFromRoot));
    }
    forall p ensures !IsCycle(Links(g), p) {
      if IsCycle(Links(g), p) && HasFlaggedEdge(p, flagged) {
        FlaggedEnd(NodeIds(g.nodes), Links(g), p, flagged);
      }
    }
  }

  // ----- the code

  /** The nodes that no walk from root leads to. */
  ghost function Unreached(ids: set<Uuid>, r: Relation, root: Uuid): set<Uuid> {
    set u | u in ids && !Reaches(r, root, u)
  }

  /** The queue loop: what has been seen is reachable, and what has been left has no unseen neighbour. */
  ghost predicate Exploring(ids: set<Uuid>, r: Relation, root: Uuid, seen: set<Uuid>, queue: seq<Uuid>) {
    && root in seen && seen <= ids
    && (forall u :: u in queue ==> u in seen)
    && (forall u {:trigger Reaches(r, root, u)} :: u in seen ==> Reaches(r, root, u))
    && (forall l :: l in r && l.0 in seen && l.0 !in queue ==> l.1 in seen)
  }

  /** The same while cur, no longer queued, is being expanded; its first i neighbours have been seen. */
  ghost predicate Expanding(ids: set<Uuid>, adj: Adjacency, root: Uuid, seen: set<Uuid>, queue: seq<Uuid>, cur: Uuid, i: int) {
    && root in seen && seen <= ids && cur in seen
    && (forall u :: u in queue ==> u in seen)
    && (forall u {:trigger Reaches(LinksOf(adj), root, u)} :: u in seen ==> Reaches(LinksOf(adj), root, u))
    && (forall j :: 0 <= j < i && j < |At(adj, cur)| ==> At(adj, cur)[j] in seen)
    && (forall l :: l in LinksOf(adj) && l.0 in seen && l.0 !in queue && l.0 != cur ==> l.1 in seen)
  }

  lemma ExploreStarts(ids: set<Uuid>, r: Relation, root: Uuid)
    requires root in ids
    ensures Exploring(ids, r, root, {root}, [root])
  {
    assert WalkBetween(r, [root], root, root);
  }

  lemma Dequeued(ids: set<Uuid>, adj: Adjacency, root: Uuid, seen: set<Uuid>, queue: seq<Uuid>)
    requires queue != [] && Exploring(ids, LinksOf(adj), root, seen, queue)
    ensures Expanding(ids, adj, root, seen, queue[1..], queue[0], 0)
  {
    assert queue == [queue[0]] + queue[1..];
  }

  lemma SeenAlready(ids: set<Uuid>, adj: Adjacency, root: Uuid, seen: set<Uuid>, queue: seq<Uuid>, cur: Uuid, i: nat)
    requires Expanding(ids, adj, root, seen, queue, cur, i) && i < |At(adj, cur)| && At(adj, cur)[i] in seen
    ensures Expanding(ids, adj, root, seen, queue, cur, i + 1)
  {
  }

  lemma SeenNow(ids: set<Uuid>, adj: Adjacency, root: Uuid, seen: set<Uuid>, queue: seq<Uuid>, cur: Uuid, i: nat)
    requires Expanding(ids, adj, root, seen, queue, cur, i) && i < |At(adj, cur)| && At(adj, cur)[i] in ids
    ensures Expanding(ids, adj, root, seen + {At(adj, cur)[i]}, queue + [At(adj, cur)[i]], cur, i + 1)
  {
    var next := At(adj, cur)[i];
    assert Reaches(LinksOf(adj), root, cur);
    var p :| WalkBetween(LinksOf(adj), p, root, cur);
    LinksAre(adj, cur, next);
    WalkExtends(LinksOf(adj), p, root, cur, next);
  }

  lemma Expanded(ids: set<Uuid>, adj: Adjacency, root: Uuid, seen: set<Uuid>, queue: seq<Uuid>, cur: Uuid)
    requires Expanding(ids, adj, root, seen, queue, cur, |At(adj, cur)|)
    ensures Exploring(ids, LinksOf(adj), root, seen, queue)
  {
    forall l | l in LinksOf(adj) && l.0 in seen && l.0 !in queue ensures l.1 in seen {
      LinksAre(adj, l.0, l.1);
    }
  }

  lemma AllExplored(ids: set<Uuid>, r: Relation, root: Uuid, seen: set<Uuid>)
    requires Exploring(ids, r, root, seen, [])
    ensures ids - seen == Unreached(ids, r, root)
  {
    SeenIsReached(r, seen, root);
  }

  /** The queue loop of detectUnreachable. */
  method Explore(ghost ids: set<Uuid>, adj: Adjacency, root: Uuid) returns (seen: set<Uuid>)
    requires ClosedIn(ids, adj) && root in ids
    ensures ids - seen == Unreached(ids, LinksOf(adj), root)
  {
    seen := {root};
    var queue := [root];
    ExploreStarts(ids, LinksOf(adj), root);
    while |queue| > 0
      invariant Exploring(ids, LinksOf(adj), root, seen, queue)
      decreases ids - seen, |queue|
    {
      Dequeued(ids, adj, root, seen, queue);
      ghost var seen0, queue0 := seen, queue;
      var cur := queue[0];
      queue := queue[1..];
      for i := 0 to |At(adj, cur)|
        invariant Expanding(ids, adj, root, seen, queue, cur, i)
        invariant seen0 < seen || (seen == seen0 && queue == queue0[1..])
      {
        var next := At(adj, cur)[i];
        if next !in seen {
          SeenNow(ids, adj, root, seen, queue, cur, i);
          seen := seen + {next};
          queue := queue + [next];
        } else {
          SeenAlready(ids, adj, root, seen, queue, cur, i);
        }
      }
      Expanded(ids, adj, root, seen, queue, cur);
    }
    AllExplored(ids, LinksOf(adj), root, seen);
  }

  lemma ReportGrows(nodes: seq<Node>, picked: set<Uuid>, reason: Reason, i: nat)
    requires i < |nodes|
    ensures ReportNodes(nodes[..i + 1], picked, reason) ==
      ReportNodes(nodes[..i], picked, reason) + if nodes[i].id in picked then [NodeIssue(nodes[i].id, reason)] else []
  {
    assert nodes[..i + 1][..i] == nodes[..i];
  }

  /** detectUnreachable: breadth-first search from the root, then the nodes it has not seen. */
  method DetectUnreachable(nodes: seq<Node>, adj: Adjacency, root: Uuid) returns (issues: seq<Issue>)
    requires ClosedIn(NodeIds(nodes), adj) && root in NodeIds(nodes)
    ensures issues == ReportNodes(nodes, Unreached(NodeIds(nodes), LinksOf(adj), root), UnreachableFromRoot)
  {
    var seen := Explore(NodeIds(nodes), adj, root);
    ghost var unreached := NodeIds(nodes) - seen;
    issues := [];
    for i := 0 to |nodes|
      invariant issues == ReportNodes(nodes[..i], unreached, UnreachableFromRoot)
    {
      ReportGrows(nodes, unreached, UnreachableFromRoot, i);
      assert nodes[i] in nodes;
      if nodes[i].id !in seen {
        issues := issues + [NodeIssue(nodes[i].id, UnreachableFromRoot)];
      }
    }
    assert nodes[..|nodes|] == nodes;
  }

  /** A set that holds the root, only what it reaches, and where its links lead, is all that the root reaches. */
  lemma SeenIsReached(r: Relation, seen: set<Uuid>, root: Uuid)
    requires root in seen && (forall u :: u in seen ==> Reaches(r, root, u))
    requires forall l :: l in r && l.0 in seen ==> l.1 in seen
    ensures forall u :: u in seen <==> Reaches(r, root, u)
  {
    forall u | Reaches(r, root, u) ensures u in seen {
      var p :| WalkBetween(r, p, root, u);
      ClosedUnderWalks(r, seen, p);
    }
  }

  /** detectCycles: the search, then the flagged nodes in node order. */
  method DetectCycles(nodes: seq<Node>, adj: Adjacency) returns (issues: seq<Issue>, ghost flagged: set<Uuid>)
    requires ClosedIn(NodeIds(nodes), adj) && adj.Keys <= NodeIds(nodes)
    ensures issues == ReportNodes(nodes, flagged, CycleDetected)
    ensures FlagsSound(LinksOf(adj), flagged) && FlagsRound(LinksOf(adj), flagged) && FlagsComplete(LinksOf(adj), flagged)
    ensures forall u :: u in flagged <==> OnSearchLoop(adj, nodes, u)
    ensures Flagged(adj, nodes, flagged)
    ensures issues == [] <==> Acyclic(LinksOf(adj))
  {
    var inCycle := FlagCycles(nodes, adj);
    issues, flagged := [], inCycle;
    for i := 0 to |nodes|
      invariant issues == ReportNodes(nodes[..i], inCycle, CycleDetected)
    {
      ReportGrows(nodes, inCycle, CycleDetected, i);
      if nodes[i].id in inCycle {
        issues := issues + [NodeIssue(nodes[i].id, CycleDetected)];
      }
    }
    assert nodes[..|nodes|] == nodes;
    NoIssueIffAcyclic(nodes, adj, flagged);
  }

  lemma NoIssueIffAcyclic(nodes: seq<Node>, adj: Adjacency, flagged: set<Uuid>)
    requires ClosedIn(NodeIds(nodes), adj)
    requires FlagsSound(LinksOf(adj), flagged) && FlagsComplete(LinksOf(adj), flagged)
    ensures ReportNodes(nodes, flagged, CycleDetected) == [] <==> Acyclic(LinksOf(adj))
  {
    var issues, r := ReportNodes(nodes, flagged, CycleDetected), LinksOf(adj);
    if issues != [] {
      ReportNodesAre(nodes, flagged, CycleDetected, issues[0]);
      assert issues[0] in issues && OnCycle(r, issues[0].nodeId.value);
    } else {
      forall u ensures u !in NodeIds(nodes) * flagged {
        ReportNodesAre(nodes, flagged, CycleDetected, NodeIssue(u, CycleDetected));
      }
      forall l | l in r ensures l.1 in NodeIds(nodes) { LinkEndsInGraph(nodes, adj, l.0, l.1); }
      forall p ensures !IsCycle(r, p) {
        if IsCycle(r, p) && HasFlaggedEdge(p, flagged) { FlaggedEnd(NodeIds(nodes), r, p, flagged); }
      }
    }
  }

  lemma LinkEndsInGraph(nodes: seq<Node>, adj: Adjacency, u: Uuid, v: Uuid)
    requires ClosedIn(NodeIds(nodes), adj) && (u, v) in LinksOf(adj)
    ensures v in NodeIds(nodes)
  {
    var i :| 0 <= i < |At(adj, u)| && At(adj, u)[i] == v;
  }

  /** The links of the adjacency map that Validate builds are the links of the graph. */
  lemma AdjacencyLinks(g: Graph, adj: Adjacency, degrees: map<Uuid, nat>)
    requires AdjacencyOf(adj, degrees, NodeIds(g.nodes), g.edges)
    ensures LinksOf(adj) == Links(g) && ClosedIn(NodeIds(g.nodes), adj)
  {
    var ids := NodeIds(g.nodes);
    forall u: Uuid, v: Uuid ensures (u, v) in LinksOf(adj) <==> (u, v) in Links(g) {
      assert AdjacentAt(adj, degrees, ids, g.edges, u);
      TargetsAre(ids, g.edges, u, v);
    }
    forall u, i | 0 <= i < |At(adj, u)| ensures At(adj, u)[i] in ids {
      assert AdjacentAt(adj, degrees, ids, g.edges, u);
      TargetsAre(ids, g.edges, u, At(adj, u)[i]);
      assert At(adj, u)[i] in Targets(ids, g.edges, u);
    }
  }

  function DegreeAt(degrees: map<Uuid, nat>, u: Uuid): nat {
    if u in degrees then degrees[u] else 0
  }

  // ----- what a report says

  ghost predicate AdjacencyFor(g: Graph, adj: Adjacency) {
    forall u :: At(adj, u) == Targets(NodeIds(g.nodes), g.edges, u)
  }

  lemma AdjacencyIs(g: Graph, adj: Adjacency, degrees: map<Uuid, nat>)
    requires AdjacencyOf(adj, degrees, NodeIds(g.nodes), g.edges)
    ensures AdjacencyFor(g, adj)
  {
    forall u ensures At(adj, u) == Targets(NodeIds(g.nodes), g.edges, u) {
      assert AdjacentAt(adj, degrees, NodeIds(g.nodes), g.edges, u);
    }
  }

  /** The adjacency map of g, up to entries for nodes without choices. */
  ghost function AdjacencyMap(g: Graph): Adjacency {
    map u | u in NodeIds(g.nodes) :: Targets(NodeIds(g.nodes), g.edges, u)
  }

  lemma AdjacencyMapFits(g: Graph)
    ensures AdjacencyFor(g, AdjacencyMap(g))
  {
    var ids := NodeIds(g.nodes);
    forall u | u !in ids ensures Targets(ids, g.edges, u) == [] { NoTargets(ids, g.edges, u); }
  }

  lemma {:induction false} NoTargets(ids: set<Uuid>, edges: seq<Edge>, u: Uuid)
    requires u !in ids
    ensures Targets(ids, edges, u) == []
  {
    if edges != [] { NoTargets(ids, edges[..|edges| - 1], u); }
  }

  /** The first path to some node, by node order and edge order, is closed into a loop through u. */
  ghost predicate OnReportedLoop(g: Graph, u: Uuid) {
    OnSearchLoop(AdjacencyMap(g), g.nodes, u)
  }

  lemma SearchedLoops(g: Graph, adj: Adjacency)
    requires AdjacencyFor(g, adj)
    ensures forall u :: OnSearchLoop(adj, g.nodes, u) <==> OnReportedLoop(g, u)
  {
    AdjacencyMapFits(g);
    forall u ensures OnSearchLoop(adj, g.nodes, u) <==> OnReportedLoop(g, u) {
      SameLoops(adj, AdjacencyMap(g), g.nodes, u);
    }
  }

  lemma GraphLinks(g: Graph)
    ensures LinksOf(AdjacencyMap(g)) == Links(g)
  {
    var ids := NodeIds(g.nodes);
    forall u: Uuid, v: Uuid ensures (u, v) in LinksOf(AdjacencyMap(g)) <==> (u, v) in Links(g) {
      TargetsAre(ids, g.edges, u, v);
    }
  }

  /** The search of detectCycles over the choices of g, in edge order, marks these nodes. */
  ghost predicate CyclesMarked(g: Graph, flagged: set<Uuid>) {
    exists adj :: AdjacencyFor(g, adj) && Flagged(adj, g.nodes, flagged)
  }

  /** The cycle issues are exactly the nodes that the search marks. */
  ghost predicate CycleIssuesAre(g: Graph, issues: seq<Issue>, flagged: set<Uuid>) {
    && CyclesMarked(g, flagged)
    && forall i: Issue {:trigger i in issues} :: i.reason == CycleDetected ==>
         (i in issues <==> i.edgeId == None && i.nodeId.Some? && i.nodeId.value in NodeIds(g.nodes) * flagged)
  }

  /** Apart from cycles, exactly the broken rules are listed. */
  ghost predicate ListsViolations(g: Graph, issues: seq<Issue>) {
    forall i: Issue :: i.reason != CycleDetected ==> (i in issues <==> Violates(g, i))
  }

  /** The nodes a report says are on a cycle. */
  ghost function CycleNodes(issues: seq<Issue>): set<Uuid> {
    set i | i in issues && i.reason == CycleDetected && i.nodeId.Some? :: i.nodeId.value
  }

  /** Cycle issues name nodes of the graph, nothing else, and each of them is on a cycle. */
  ghost predicate CycleIssuesSound(g: Graph, issues: seq<Issue>) {
    forall i :: i in issues && i.reason == CycleDetected ==>
      i.edgeId == None && i.nodeId.Some? && i.nodeId.value in NodeIds(g.nodes) && OnCycle(Links(g), i.nodeId.value)
  }

  /** What the search finds out about cycles. */
  ghost predicate CyclesFound(g: Graph, flagged: set<Uuid>) {
    && FlagsSound(Links(g), flagged) && FlagsRound(Links(g), flagged) && FlagsComplete(Links(g), flagged)
    && forall u :: u in flagged <==> OnReportedLoop(g, u)
  }

  lemma CycleInGraph(g: Graph, u: Uuid)
    requires OnCycle(Links(g), u)
    ensures u in NodeIds(g.nodes)
  {
    var p :| IsCycle(Links(g), p) && p[0] == u;
    assert (p[0], p[1]) in Links(g);
  }

  /** Every flagged node is listed. */
  lemma FlagsListed(g: Graph, flagged: set<Uuid>, issues: seq<Issue>)
    requires FlagsSound(Links(g), flagged) && CycleIssuesAre(g, issues, flagged)
    ensures CycleNodes(issues) == flagged
  {
    forall u ensures u in CycleNodes(issues) <==> u in flagged {
      if u in flagged {
        CycleInGraph(g, u);
        assert NodeIssue(u, CycleDetected) in issues;
      }
    }
  }

  lemma ListedReport(g: Graph, flagged: set<Uuid>, unreached: set<Uuid>, issues: seq<Issue>)
    requires UnreachedAre(g, unreached) && FlagsSound(Links(g), flagged)
    requires forall i :: i in issues <==> i in Report(g, flagged, unreached)
    requires CyclesMarked(g, flagged)
    ensures ListsViolations(g, issues) && CycleIssuesSound(g, issues) && CycleIssuesAre(g, issues, flagged)
  {
    forall i: Issue | i.reason == CycleDetected
      ensures i in issues <==> i.edgeId == None && i.nodeId.Some? && i.nodeId.value in NodeIds(g.nodes) * flagged
    {
      ReportMembers(g, flagged, unreached, i);
    }
    forall i: Issue | i.reason != CycleDetected ensures i in issues <==> Violates(g, i) {
      ReportMembers(g, flagged, unreached, i);
    }
    forall i | i in issues && i.reason == CycleDetected
      ensures i.edgeId == None && i.nodeId.Some? && i.nodeId.value in NodeIds(g.nodes) && OnCycle(Links(g), i.nodeId.value)
    {
      ReportMembers(g, flagged, unreached, i);
    }
  }

  lemma SortedReport(g: Graph, flagged: set<Uuid>, unreached: set<Uuid>, issues: seq<Issue>)
    requires UnreachedAre(g, unreached) && CyclesFound(g, flagged) && CyclesMarked(g, flagged)
    requires issues == Sort(IssueLe, Report(g, flagged, unreached))
    ensures issues == [] <==> Publishable(g)
    ensures ListsViolations(g, issues) && CycleIssuesSound(g, issues) && CyclesFound(g, CycleNodes(issues))
    ensures CycleIssuesAre(g, issues, flagged)
    ensures UniqueNodeIds(g.nodes) && UniqueEdgeIds(g.edges) ==> NoDuplicates(issues)
    ensures Sorted(IssueLe, issues)
  {
    var all := Report(g, flagged, unreached);
    IssueOrder();
    SortSorts(IssueLe, all);
    SortPermutes(IssueLe, all);
    EmptyIffPublishable(g, flagged, unreached);
    ListedReport(g, flagged, unreached, issues);
    FlagsListed(g, flagged, issues);
    if UniqueNodeIds(g.nodes) && UniqueEdgeIds(g.edges) {
      ReportDistinct(g, flagged, unreached);
      DistinctPermutes(all, issues);
    }
  }

  lemma {:induction false} NothingPicked(nodes: seq<Node>, reason: Reason)
    ensures ReportNodes(nodes, {}, reason) == []
  {
    if nodes != [] { NothingPicked(nodes[..|nodes| - 1], reason); }
  }

  // ----- Validate

  /** The node loop that fills nodesByID, of which only the key set is used. */
  method CollectIds(nodes: seq<Node>) returns (ids: set<Uuid>)
    ensures ids == NodeIds(nodes)
  {
    ids := {};
    for i := 0 to |nodes|
      invariant ids == NodeIds(nodes[..i])
    {
      assert nodes[..i + 1] == nodes[..i] + [nodes[i]];
      ids := ids + {nodes[i].id};
    }
    assert nodes[..|nodes|] == nodes;
  }

  ghost predicate AdjacentAt(adj: Adjacency, degrees: map<Uuid, nat>, ids: set<Uuid>, edges: seq<Edge>, u: Uuid) {
    At(adj, u) == Targets(ids, edges, u) && DegreeAt(degrees, u) == |Targets(ids, edges, u)|
  }

  /** The two maps that the edge loop fills. */
  ghost predicate AdjacencyOf(adj: Adjacency, degrees: map<Uuid, nat>, ids: set<Uuid>, edges: seq<Edge>) {
    forall u :: AdjacentAt(adj, degrees, ids, edges, u)
  }

  lemma TargetsGrow(ids: set<Uuid>, edges: seq<Edge>, i: nat, u: Uuid)
    requires i < |edges|
    ensures Targets(ids, edges[..i + 1], u) == Targets(ids, edges[..i], u) + TargetOf(ids, edges[i], u)
  {
    assert edges[..i + 1][..i] == edges[..i];
  }

  lemma AdjacencyGrows(adj: Adjacency, degrees: map<Uuid, nat>, ids: set<Uuid>, edges: seq<Edge>, i: nat,
                       adj': Adjacency, degrees': map<Uuid, nat>)
    requires i < |edges| && AdjacencyOf(adj, degrees, ids, edges[..i])
    requires var e := edges[i];
      if Resolves(ids, e) then
        adj' == adj[e.from := At(adj, e.from) + [e.to]] && degrees' == degrees[e.from := DegreeAt(degrees, e.from) + 1]
      else adj' == adj && degrees' == degrees
    ensures AdjacencyOf(adj', degrees', ids, edges[..i + 1])
  {
    var es := edges[..i + 1];
    forall u ensures AdjacentAt(adj', degrees', ids, es, u) {
      TargetsGrow(ids, edges, i, u);
      assert AdjacentAt(adj, degrees, ids, edges[..i], u);
    }
  }

  lemma EdgeIssuesGrow(ids: set<Uuid>, edges: seq<Edge>, i: nat)
    requires i < |edges|
    ensures EdgeIssues(ids, edges[..i + 1]) ==
      EdgeIssues(ids, edges[..i]) + if Resolves(ids, edges[i]) then [] else [EdgeIssue(edges[i].id, DanglingReference)]
  {
    assert edges[..i + 1][..i] == edges[..i];
  }

  /** The edge loop: dangling edges reported, the others entered in the adjacency map. */
  method CollectEdges(edges: seq<Edge>, ids: set<Uuid>, issues0: seq<Issue>)
    returns (issues: seq<Issue>, adjacency: Adjacency, outDegree: map<Uuid, nat>)
    ensures issues == issues0 + EdgeIssues(ids, edges)
    ensures adjacency.Keys <= ids
    ensures AdjacencyOf(adjacency, outDegree, ids, edges)
  {
    issues, adjacency, outDegree := issues0, map[], map[];
    for i := 0 to |edges|
      invariant issues == issues0 + EdgeIssues(ids, edges[..i])
      invariant adjacency.Keys <= ids
      invariant AdjacencyOf(adjacency, outDegree, ids, edges[..i])
    {
      var e := edges[i];
      EdgeIssuesGrow(ids, edges, i);
      if e.from !in ids || e.to !in ids {
        issues := issues + [EdgeIssue(e.id, DanglingReference)];
        AdjacencyGrows(adjacency, outDegree, ids, edges, i, adjacency, outDegree);
        continue;
      }
      ghost var adj, degrees := adjacency, outDegree;
      adjacency := adjacency[e.from := At(adjacency, e.from) + [e.to]];
      outDegree := outDegree[e.from := DegreeAt(outDegree, e.from) + 1];
      AdjacencyGrows(adj, degrees, ids, edges, i, adjacency, outDegree);
    }
    assert edges[..|edges|] == edges;
  }

  /** One pass of the node-kind loop. */
  method CheckKind(n: Node, outDegree: nat) returns (found: seq<Issue>)
    ensures found == KindIssuesOf(n, outDegree)
  {
    found := [];
    match n.kind {
      case Decision =>
        if outDegree == 0 { found := found + [NodeIssue(n.id, DecisionWithoutEdges)]; }
        if n.resolution != None { found := found + [NodeIssue(n.id, DecisionWithResolution)]; }
      case Terminal =>
        if outDegree > 0 { found := found + [NodeIssue(n.id, TerminalWithEdges)]; }
        if n.resolution == None || n.resolution.value == "" {
          found := found + [NodeIssue(n.id, TerminalMissingResolution)];
        }
      case Unknown(_) =>
    }
  }

  lemma KindIssuesGrow(g: Graph, nodes: seq<Node>, i: nat, degree: nat)
    requires i < |nodes| && degree == |Targets(NodeIds(g.nodes), g.edges, nodes[i].id)|
    ensures KindIssues(g, nodes[..i + 1]) == KindIssues(g, nodes[..i]) + KindIssuesOf(nodes[i], degree)
  {
    assert nodes[..i + 1][..i] == nodes[..i];
  }

  /** The node-kind loop. */
  method CollectKinds(g: Graph, ghost adjacency: Adjacency, outDegree: map<Uuid, nat>) returns (issues: seq<Issue>)
    requires AdjacencyOf(adjacency, outDegree, NodeIds(g.nodes), g.edges)
    ensures issues == KindIssues(g, g.nodes)
  {
    issues := [];
    for i := 0 to |g.nodes|
      invariant issues == KindIssues(g, g.nodes[..i])
    {
      var n := g.nodes[i];
      var degree := DegreeAt(outDegree, n.id);
      assert AdjacentAt(adjacency, outDegree, NodeIds(g.nodes), g.edges, n.id);
      KindIssuesGrow(g, g.nodes, i, degree);
      var found := CheckKind(n, degree);
      issues := issues + found;
    }
    assert g.nodes[..|g.nodes|] == g.nodes;
  }

  /** Everything Validate does before it sorts. */
  method CollectIssues(g: Graph) returns (issues: seq<Issue>, ghost flagged: set<Uuid>, ghost unreached: set<Uuid>)
    ensures issues == Report(g, flagged, unreached) && UnreachedAre(g, unreached)
    ensures CyclesFound(g, flagged) && CyclesMarked(g, flagged)
  {
    var ids := CollectIds(g.nodes);
    issues := [];
    if g.root == None {
      issues := issues + [Issue(None, None, MissingRoot)];
    } else if g.root.value !in ids {
      issues := issues + [NodeIssue(g.root.value, DanglingReference)];
    }
    assert issues == RootIssues(g);
    var adjacency, outDegree;
    issues, adjacency, outDegree := CollectEdges(g.edges, ids, issues);
    var kinds := CollectKinds(g, adjacency, outDegree);
    AdjacencyLinks(g, adjacency, outDegree);
    AdjacencyIs(g, adjacency, outDegree);
    var cycles, unreachable;
    cycles, flagged := CheckCycles(g, adjacency);
    unreachable, unreached := CheckReachable(g, ids, adjacency);
    issues := issues + kinds + cycles + unreachable;
  }

  /** The cycle rule. */
  method CheckCycles(g: Graph, adjacency: Adjacency) returns (issues: seq<Issue>, ghost flagged: set<Uuid>)
    requires ClosedIn(NodeIds(g.nodes), adjacency) && adjacency.Keys <= NodeIds(g.nodes)
    requires LinksOf(adjacency) == Links(g) && AdjacencyFor(g, adjacency)
    ensures issues == ReportNodes(g.nodes, flagged, CycleDetected)
    ensures CyclesFound(g, flagged) && CyclesMarked(g, flagged)
  {
    issues, flagged := DetectCycles(g.nodes, adjacency);
    FoundIn(g, adjacency, flagged);
    MarkedIn(g, adjacency, flagged);
  }

  lemma FoundIn(g: Graph, adj: Adjacency, flagged: set<Uuid>)
    requires LinksOf(adj) == Links(g) && AdjacencyFor(g, adj)
    requires FlagsSound(LinksOf(adj), flagged) && FlagsRound(LinksOf(adj), flagged) && FlagsComplete(LinksOf(adj), flagged)
    requires forall u :: u in flagged <==> OnSearchLoop(adj, g.nodes, u)
    ensures CyclesFound(g, flagged)
  {
    SearchedLoops(g, adj);
  }

  lemma MarkedIn(g: Graph, adj: Adjacency, flagged: set<Uuid>)
    requires AdjacencyFor(g, adj) && Flagged(adj, g.nodes, flagged)
    ensures CyclesMarked(g, flagged)
  {
  }

  /** The reachability rule, skipped when there is no usable root. */
  method CheckReachable(g: Graph, ids: set<Uuid>, adjacency: Adjacency) returns (issues: seq<Issue>, ghost unreached: set<Uuid>)
    requires ids == NodeIds(g.nodes) && ClosedIn(ids, adjacency) && LinksOf(adjacency) == Links(g)
    ensures issues == ReportNodes(g.nodes, unreached, UnreachableFromRoot) && UnreachedAre(g, unreached)
  {
    if g.root != None && g.root.value in ids {
      issues := DetectUnreachable(g.nodes, adjacency, g.root.value);
      unreached := Unreached(ids, LinksOf(adjacency), g.root.value);
    } else {
      issues, unreached := [], {};
      NothingPicked(g.nodes, UnreachableFromRoot);
    }
  }

  /** What a report says about the cycles of g, about its other faults, and in what order. */
  ghost predicate IsReportOf(g: Graph, issues: seq<Issue>) {
    && ListsViolations(g, issues) && CycleIssuesSound(g, issues) && CyclesFound(g, CycleNodes(issues))
    && (exists flagged :: CycleIssuesAre(g, issues, flagged))
    && (UniqueNodeIds(g.nodes) && UniqueEdgeIds(g.edges) ==> NoDuplicates(issues))
    && Sorted(IssueLe, issues)
  }

  /**
    Graph.Validate. The report is empty exactly for a publishable graph; apart from the
    cycle issues it lists exactly the rules the graph breaks, and everything once when
    ids are unique; it is sorted by reason, then id. Its cycle issues name exactly the
    nodes on reported loops; each is on a cycle, and every cycle shares an edge with a
    repetition-free cycle that is reported all round.
  */
  method Validate(g: Graph) returns (issues: seq<Issue>)
    ensures issues == [] <==> Publishable(g)
    ensures IsReportOf(g, issues)
  {
    ghost var flagged, unreached;
    issues, flagged, unreached := CollectIssues(g);
    SortedReport(g, flagged, unreached, Sort(IssueLe, issues));
    if |issues| == 0 {
      return [];
    }
    issues := Sort(IssueLe, issues);
  }
}
