/**
  The authoring form's draft (frontend/src/lib/playbook-draft.ts) and the server's
  write-time checks (validateGraphInput in internal/service/playbookservice/service.go).
*/
module DraftSerialization {
  import opened Domain
  import opened DraftText
  import opened VersionTables
  import opened VersionScripts
  import GraphInput

  datatype NodeDraft = NodeDraft(
    id: Uuid, kind: Kind, title: string, description: string, terminalResolution: string, metadata: string)

  /** An endpoint is None while the designer has not picked one. */
  datatype EdgeDraft = EdgeDraft(
    id: Uuid, from: Option<Uuid>, to: Option<Uuid>, caption: string, description: string, sortOrder: string)

  datatype PlaybookDraft = PlaybookDraft(root: Option<Uuid>, nodes: seq<NodeDraft>, edges: seq<EdgeDraft>)

  datatype Problem =
    | NodeIdRepeated | TitleMissing | ResolutionMissing | MetadataNotJson | MetadataNotObject
    | EdgeIdRepeated | LabelMissing | LabelRepeated | FromUnset | FromGone | ToUnset | ToGone
    | RootGone

  /** index is the position in the node or edge list, -1 for the root. */
  datatype DraftError = DraftError(index: int, problem: Problem)

  datatype Serialized = Saved(graph: Graph) | Rejected(errors: seq<DraftError>)

  /** JSON.parse, None where it throws. */
  type Parser = string -> Option<Json>

  // ----- what the form sends

  function NodeOf(d: NodeDraft, parse: Parser): Node {
    Node(d.id, d.kind, Trim(d.title), Trim(d.description),
         if d.kind == Terminal then Some(Trim(d.terminalResolution)) else None,
         MetadataOf(d.metadata, parse))
  }

  /** The object a metadata box holds; no value when blank, or when it is an error. */
  function MetadataOf(raw: string, parse: Parser): Option<Json> {
    if Trim(raw) == "" then None
    else
      var j := parse(Trim(raw));
      if j.Some? && j.value.Object? then j else None
  }

  function SortOrderOf(raw: string): int {
    var n := ParseInt(raw);
    if n == None then 0 else n.value
  }

  function EdgeOf(d: EdgeDraft): Edge {
    Edge(d.id, if d.from.Some? then d.from.value else NIL, if d.to.Some? then d.to.value else NIL, Trim(d.caption),
         if Trim(d.description) == "" then None else Some(Trim(d.description)), SortOrderOf(d.sortOrder))
  }

  function SentEdges(d: PlaybookDraft): seq<Edge> {
    seq(|d.edges|, i requires 0 <= i < |d.edges| => EdgeOf(d.edges[i]))
  }

  function Normalised(d: PlaybookDraft, parse: Parser): Graph {
    Graph(d.root,
          seq(|d.nodes|, i requires 0 <= i < |d.nodes| => NodeOf(d.nodes[i], parse)),
          SentEdges(d))
  }

  // ----- what the form rejects

  function DraftIds(nodes: seq<NodeDraft>): set<Uuid> {
    set n | n in nodes :: n.id
  }

  predicate NodeProblem(d: PlaybookDraft, parse: Parser, i: nat, p: Problem)
    requires i < |d.nodes|
  {
    var n := d.nodes[i];
    match p
    case NodeIdRepeated => exists j :: 0 <= j < i && d.nodes[j].id == n.id
    case TitleMissing => Trim(n.title) == ""
    case ResolutionMissing => n.kind == Terminal && Trim(n.terminalResolution) == ""
    case MetadataNotJson => Trim(n.metadata) != "" && parse(Trim(n.metadata)) == None
    case MetadataNotObject => Trim(n.metadata) != "" && parse(Trim(n.metadata)).Some? && !parse(Trim(n.metadata)).value.Object?
    case _ => false
  }

  predicate EdgeProblem(d: PlaybookDraft, i: nat, p: Problem)
    requires i < |d.edges|
  {
    var e := d.edges[i];
    match p
    case EdgeIdRepeated => exists j :: 0 <= j < i && d.edges[j].id == e.id
    case LabelMissing => Trim(e.caption) == ""
    case LabelRepeated =>
      e.from.Some? && Trim(e.caption) != "" &&
      exists j :: 0 <= j < i && d.edges[j].from == e.from && Trim(d.edges[j].caption) == Trim(e.caption)
    case FromUnset => e.from == None
    case FromGone => e.from.Some? && e.from.value !in DraftIds(d.nodes)
    case ToUnset => e.to == None
    case ToGone => e.to.Some? && e.to.value !in DraftIds(d.nodes)
    case _ => false
  }

  /** x is a problem of draft d. */
  predicate HasProblem(d: PlaybookDraft, parse: Parser, x: DraftError) {
    || (0 <= x.index < |d.nodes| && NodeProblem(d, parse, x.index, x.problem))
    || (0 <= x.index < |d.edges| && EdgeProblem(d, x.index, x.problem))
    || (x.index == -1 && x.problem == RootGone && d.root.Some? && d.root.value !in DraftIds(d.nodes))
  }

  // ----- in which order problems are reported

  /** Nodes before edges before the root; within one node or edge, in this order. */
  function Place(p: Problem): nat {
    match p
    case NodeIdRepeated => 0
    case TitleMissing => 1
    case ResolutionMissing => 2
    case MetadataNotJson => 3
    case MetadataNotObject => 4
    case EdgeIdRepeated => 5
    case LabelMissing => 6
    case FromUnset => 7
    case FromGone => 8
    case ToUnset => 9
    case ToGone => 10
    case LabelRepeated => 11
    case RootGone => 12
  }

  function Section(p: Problem): nat {
    if Place(p) < 5 then 0 else if Place(p) < 12 then 1 else 2
  }

  predicate Before(x: DraftError, y: DraftError) {
    || Section(x.problem) < Section(y.problem)
    || (Section(x.problem) == Section(y.problem) &&
          (x.index < y.index || (x.index == y.index && Place(x.problem) < Place(y.problem))))
  }

  /** Each problem once, in the order of the form. */
  ghost predicate InReportOrder(errors: seq<DraftError>) {
    forall i, j :: 0 <= i < j < |errors| ==> Before(errors[i], errors[j])
  }

  lemma JoinReports(a: seq<DraftError>, b: seq<DraftError>)
    requires InReportOrder(a) && InReportOrder(b) && forall x, y :: x in a && y in b ==> Before(x, y)
    ensures InReportOrder(a + b)
  {
    forall i, j | 0 <= i < j < |a + b| ensures Before((a + b)[i], (a + b)[j]) {
      if i < |a| <= j { assert a[i] in a && b[j - |a|] in b; }
    }
  }

  lemma AddLast(errors: seq<DraftError>, x: DraftError)
    requires InReportOrder(errors) && forall y :: y in errors ==> Before(y, x)
    ensures InReportOrder(errors + [x])
  {
    JoinReports(errors, [x]);
  }

  function Noting(errors: seq<DraftError>, i: int, p: Problem, present: bool): seq<DraftError> {
    if present then errors + [DraftError(i, p)] else errors
  }

  /** The problems of node i that are reported before this place. */
  ghost predicate NodeReport(d: PlaybookDraft, parse: Parser, i: nat, errors: seq<DraftError>, place: nat)
    requires i < |d.nodes|
  {
    InReportOrder(errors) && forall x :: x in errors <==> x.index == i && Place(x.problem) < place && NodeProblem(d, parse, i, x.problem)
  }

  lemma NodeReportGrows(d: PlaybookDraft, parse: Parser, i: nat, errors: seq<DraftError>, p: Problem)
    requires i < |d.nodes| && NodeReport(d, parse, i, errors, Place(p)) && Place(p) < 5
    ensures NodeReport(d, parse, i, Noting(errors, i, p, NodeProblem(d, parse, i, p)), Place(p) + 1)
  {
    forall q | Place(q) < Place(p) + 1 ensures q == p || Place(q) < Place(p) { PlacesDiffer(p, q); }
    if NodeProblem(d, parse, i, p) { AddLast(errors, DraftError(i, p)); }
  }

  lemma PlacesDiffer(p: Problem, q: Problem)
    ensures Place(p) == Place(q) ==> p == q
  {
  }

  /** The problems of edge i that are reported before this place. */
  ghost predicate EdgeReport(d: PlaybookDraft, i: nat, errors: seq<DraftError>, place: nat)
    requires i < |d.edges|
  {
    InReportOrder(errors) && forall x :: x in errors <==> x.index == i && Place(x.problem) < place && EdgeProblem(d, i, x.problem)
  }

  lemma EdgeReportGrows(d: PlaybookDraft, i: nat, errors: seq<DraftError>, p: Problem)
    requires i < |d.edges| && EdgeReport(d, i, errors, Place(p)) && 5 <= Place(p) < 12
    ensures EdgeReport(d, i, Noting(errors, i, p, EdgeProblem(d, i, p)), Place(p) + 1)
  {
    forall q | Place(q) < Place(p) + 1 ensures q == p || Place(q) < Place(p) { PlacesDiffer(p, q); }
    if EdgeProblem(d, i, p) { AddLast(errors, DraftError(i, p)); }
  }

  /** Nothing of an edge is reported before its first place. */
  lemma EdgeReportStarts(d: PlaybookDraft, i: nat)
    requires i < |d.edges|
    ensures EdgeReport(d, i, [], 5)
  {
  }

  lemma NodeReportStarts(d: PlaybookDraft, parse: Parser, i: nat)
    requires i < |d.nodes|
    ensures NodeReport(d, parse, i, [], 0)
  {
  }

  /** When all places are done, exactly the problems are reported. */
  lemma NodeReportComplete(d: PlaybookDraft, parse: Parser, i: nat, errors: seq<DraftError>)
    requires i < |d.nodes| && NodeReport(d, parse, i, errors, 5)
    ensures InReportOrder(errors) && forall x :: x in errors <==> x.index == i && NodeProblem(d, parse, i, x.problem)
  {
  }

  lemma EdgeReportComplete(d: PlaybookDraft, i: nat, errors: seq<DraftError>)
    requires i < |d.edges| && EdgeReport(d, i, errors, 12)
    ensures InReportOrder(errors) && forall x :: x in errors <==> x.index == i && EdgeProblem(d, i, x.problem)
  {
  }

  /** The order and the set of problems determine the report. */
  lemma {:induction false} ReportDetermined(a: seq<DraftError>, b: seq<DraftError>)
    requires InReportOrder(a) && InReportOrder(b) && forall x :: x in a <==> x in b
    ensures a == b
  {
    SameEmptiness(a, b);
    if a != [] {
      SameFirst(a, b);
      RestAgrees(a, b);
      ReportDetermined(a[1..], b[1..]);
      assert a == [a[0]] + a[1..] && b == [b[0]] + b[1..];
    }
  }

  lemma SameEmptiness<T>(a: seq<T>, b: seq<T>)
    requires forall x :: x in a <==> x in b
    ensures a == [] <==> b == []
  {
    if a != [] { assert a[0] in a; }
    if b != [] { assert b[0] in b; }
  }

  lemma SameFirst(a: seq<DraftError>, b: seq<DraftError>)
    requires a != [] && b != [] && InReportOrder(a) && InReportOrder(b) && forall x :: x in a <==> x in b
    ensures a[0] == b[0]
  {
    FirstIsLeast(a, b[0]);
    FirstIsLeast(b, a[0]);
  }

  lemma FirstIsLeast(a: seq<DraftError>, x: DraftError)
    requires InReportOrder(a) && x in a
    ensures x == a[0] || Before(a[0], x)
  {
    var i :| 0 <= i < |a| && a[i] == x;
    if i > 0 { assert Before(a[0], a[i]); }
  }

  lemma RestAgrees(a: seq<DraftError>, b: seq<DraftError>)
    requires a != [] && b != [] && InReportOrder(a) && InReportOrder(b) && a[0] == b[0] && forall x :: x in a <==> x in b
    ensures InReportOrder(a[1..]) && InReportOrder(b[1..]) && forall x :: x in a[1..] <==> x in b[1..]
  {
    FirstNotInRest(a);
    FirstNotInRest(b);
    forall x ensures x in a[1..] <==> x in b[1..] {
      assert x in a <==> x == a[0] || x in a[1..] by { assert a == [a[0]] + a[1..]; }
      assert x in b <==> x == b[0] || x in b[1..] by { assert b == [b[0]] + b[1..]; }
    }
  }

  lemma FirstNotInRest(a: seq<DraftError>)
    requires a != [] && InReportOrder(a)
    ensures a[0] !in a[1..]
  {
    forall x | x in a[1..] ensures Before(a[0], x) {
      var k :| 0 <= k < |a[1..]| && a[1..][k] == x;
      assert x == a[k + 1];
    }
  }

  // ----- the serializer

  /** parseMetadata: the value, and the problem if any. */
  method ParseMetadata(raw: string, parse: Parser) returns (value: Option<Json>, problem: Option<Problem>)
    ensures value == MetadataOf(raw, parse)
    ensures problem == None <==> Trim(raw) == "" || value.Some?
    ensures problem == Some(MetadataNotJson) <==> Trim(raw) != "" && parse(Trim(raw)) == None
    ensures problem == Some(MetadataNotObject) <==> Trim(raw) != "" && parse(Trim(raw)).Some? && !parse(Trim(raw)).value.Object?
  {
    var text := Trim(raw);
    if text == "" {
      return None, None;
    }
    var parsed := parse(text);
    if parsed == None {
      return None, Some(MetadataNotJson);
    }
    if !parsed.value.Object? {
      return None, Some(MetadataNotObject);
    }
    return parsed, None;
  }

  lemma RepeatedIsSeen(d: PlaybookDraft, parse: Parser, i: nat)
    requires i < |d.nodes|
    ensures d.nodes[i].id in DraftIds(d.nodes[..i]) <==> NodeProblem(d, parse, i, NodeIdRepeated)
  {
    var u := d.nodes[i].id;
    if u in DraftIds(d.nodes[..i]) {
      var m :| m in d.nodes[..i] && m.id == u;
      var j :| 0 <= j < i && d.nodes[..i][j] == m;
      assert d.nodes[j].id == u;
    }
    if j :| 0 <= j < i && d.nodes[j].id == u { assert d.nodes[..i][j] in d.nodes[..i]; }
  }

  /** The checks on node i, given the ids of the nodes before it. */
  method CheckNode(d: PlaybookDraft, parse: Parser, i: nat, seen: set<Uuid>) returns (node: Node, errors: seq<DraftError>)
    requires i < |d.nodes| && seen == DraftIds(d.nodes[..i])
    ensures node == NodeOf(d.nodes[i], parse)
    ensures InReportOrder(errors) && forall x :: x in errors <==> x.index == i && NodeProblem(d, parse, i, x.problem)
  {
    var n := d.nodes[i];
    errors := [];
    NodeReportStarts(d, parse, i);
    RepeatedIsSeen(d, parse, i);
    NodeReportGrows(d, parse, i, errors, NodeIdRepeated);
    if n.id in seen { errors := errors + [DraftError(i, NodeIdRepeated)]; }
    NodeReportGrows(d, parse, i, errors, TitleMissing);
    var title := Trim(n.title);
    if title == "" { errors := errors + [DraftError(i, TitleMissing)]; }
    NodeReportGrows(d, parse, i, errors, ResolutionMissing);
    var resolution := Trim(n.terminalResolution);
    if n.kind == Terminal && resolution == "" { errors := errors + [DraftError(i, ResolutionMissing)]; }
    var metadata, problem := ParseMetadata(n.metadata, parse);
    MetadataReported(d, parse, i, errors, problem);
    if problem != None { errors := errors + [DraftError(i, problem.value)]; }
    NodeReportComplete(d, parse, i, errors);
    node := Node(n.id, n.kind, title, Trim(n.description), if n.kind == Terminal then Some(resolution) else None, metadata);
  }

  lemma MetadataReported(d: PlaybookDraft, parse: Parser, i: nat, errors: seq<DraftError>, problem: Option<Problem>)
    requires i < |d.nodes| && NodeReport(d, parse, i, errors, 3)
    requires problem == Some(MetadataNotJson) <==> NodeProblem(d, parse, i, MetadataNotJson)
    requires problem == Some(MetadataNotObject) <==> NodeProblem(d, parse, i, MetadataNotObject)
    requires problem in {None, Some(MetadataNotJson), Some(MetadataNotObject)}
    ensures NodeReport(d, parse, i, if problem.Some? then errors + [DraftError(i, problem.value)] else errors, 5)
  {
    NodeReportGrows(d, parse, i, errors, MetadataNotJson);
    NodeReportGrows(d, parse, i, Noting(errors, i, MetadataNotJson, problem == Some(MetadataNotJson)), MetadataNotObject);
  }

  /** The labels already seen at a node. */
  function LabelsAt(labels: map<Uuid, set<string>>, u: Uuid): set<string> {
    if u in labels then labels[u] else {}
  }

  ghost predicate LabelsSeen(d: PlaybookDraft, i: nat, labels: map<Uuid, set<string>>)
    requires i <= |d.edges|
  {
    forall u, s :: s in LabelsAt(labels, u) <==> SeenLabel(d, i, u, s)
  }

  predicate SeenLabel(d: PlaybookDraft, i: nat, u: Uuid, s: string)
    requires i <= |d.edges|
  {
    s != "" && exists j :: 0 <= j < i && d.edges[j].from == Some(u) && Trim(d.edges[j].caption) == s
  }

  /** The checks on the endpoints of edge i, after what has been reported of it. */
  method CheckEndpoints(d: PlaybookDraft, i: nat, nodeIds: set<Uuid>, errors0: seq<DraftError>) returns (errors: seq<DraftError>)
    requires i < |d.edges| && nodeIds == DraftIds(d.nodes) && EdgeReport(d, i, errors0, 7)
    ensures EdgeReport(d, i, errors, 11)
  {
    var e := d.edges[i];
    errors := errors0;
    EdgeReportGrows(d, i, errors, FromUnset);
    EdgeReportGrows(d, i, Noting(errors, i, FromUnset, e.from == None), FromGone);
    if e.from == None {
      errors := errors + [DraftError(i, FromUnset)];
    } else if e.from.value !in nodeIds {
      errors := errors + [DraftError(i, FromGone)];
    }
    EdgeReportGrows(d, i, errors, ToUnset);
    EdgeReportGrows(d, i, Noting(errors, i, ToUnset, e.to == None), ToGone);
    if e.to == None {
      errors := errors + [DraftError(i, ToUnset)];
    } else if e.to.value !in nodeIds {
      errors := errors + [DraftError(i, ToGone)];
    }
  }

  /** One label per node: the check on edge i, and the labels seen from then on. */
  method CheckLabel(d: PlaybookDraft, i: nat, errors0: seq<DraftError>, labels: map<Uuid, set<string>>)
    returns (errors: seq<DraftError>, labels': map<Uuid, set<string>>)
    requires i < |d.edges| && EdgeReport(d, i, errors0, 11) && LabelsSeen(d, i, labels)
    ensures EdgeReport(d, i, errors, 12) && LabelsSeen(d, i + 1, labels')
  {
    var e := d.edges[i];
    var caption := Trim(e.caption);
    errors, labels' := errors0, labels;
    EdgeReportGrows(d, i, errors, LabelRepeated);
    LabelsGrow(d, i, labels);
    if e.from != None && caption != "" {
      var used := LabelsAt(labels, e.from.value);
      if caption in used { errors := errors + [DraftError(i, LabelRepeated)]; }
      labels' := labels[e.from.value := used + {caption}];
    }
  }

  /** The checks on edge i, given what the edges before it used. */
  method CheckEdge(d: PlaybookDraft, i: nat, nodeIds: set<Uuid>, seen: set<Uuid>, labels: map<Uuid, set<string>>)
    returns (edge: Edge, errors: seq<DraftError>, labels': map<Uuid, set<string>>)
    requires i < |d.edges| && nodeIds == DraftIds(d.nodes) && LabelsSeen(d, i, labels)
    requires forall u :: u in seen <==> exists j :: 0 <= j < i && d.edges[j].id == u
    ensures edge == EdgeOf(d.edges[i])
    ensures InReportOrder(errors) && forall x :: x in errors <==> x.index == i && EdgeProblem(d, i, x.problem)
    ensures LabelsSeen(d, i + 1, labels')
  {
    var e := d.edges[i];
    errors := [];
    EdgeReportStarts(d, i);
    EdgeReportGrows(d, i, errors, EdgeIdRepeated);
    if e.id in seen { errors := errors + [DraftError(i, EdgeIdRepeated)]; }
    EdgeReportGrows(d, i, errors, LabelMissing);
    var caption := Trim(e.caption);
    if caption == "" { errors := errors + [DraftError(i, LabelMissing)]; }
    errors := CheckEndpoints(d, i, nodeIds, errors);
    errors, labels' := CheckLabel(d, i, errors, labels);
    EdgeReportComplete(d, i, errors);
    edge := Edge(e.id, if e.from.Some? then e.from.value else NIL, if e.to.Some? then e.to.value else NIL, caption,
                 if Trim(e.description) == "" then None else Some(Trim(e.description)), SortOrderOf(e.sortOrder));
  }

  /** The label map after edge i, and what it says about the edge's own label before. */
  lemma LabelsGrow(d: PlaybookDraft, i: nat, labels: map<Uuid, set<string>>)
    requires i < |d.edges| && LabelsSeen(d, i, labels)
    ensures var e := d.edges[i];
      var caption := Trim(e.caption);
      if e.from.Some? && caption != "" then
        && (caption in LabelsAt(labels, e.from.value) <==> EdgeProblem(d, i, LabelRepeated))
        && LabelsSeen(d, i + 1, labels[e.from.value := LabelsAt(labels, e.from.value) + {caption}])
      else LabelsSeen(d, i + 1, labels)
  {
    var e := d.edges[i];
    var caption := Trim(e.caption);
    var labels' := if e.from.Some? && caption != "" then labels[e.from.value := LabelsAt(labels, e.from.value) + {caption}] else labels;
    if e.from.Some? { assert caption in LabelsAt(labels, e.from.value) <==> SeenLabel(d, i, e.from.value, caption); }
    forall u, s ensures s in LabelsAt(labels', u) <==> SeenLabel(d, i + 1, u, s) {
      assert s in LabelsAt(labels, u) <==> SeenLabel(d, i, u, s);
    }
  }

  /**
    serializePlaybookDraft: it reports exactly the problems of the draft, each once, node
    by node, then edge by edge, then the root; and when there are none it yields the
    normalised graph.
  */
  method SerializePlaybookDraft(d: PlaybookDraft, parse: Parser) returns (r: Serialized)
    ensures r.Saved? <==> Acceptable(d, parse)
    ensures r.Saved? ==> r.graph == Normalised(d, parse)
    ensures r.Rejected? ==> InReportOrder(r.errors) && forall x :: x in r.errors <==> HasProblem(d, parse, x)
  {
    var nodes, nodeErrors := SerializeNodes(d, parse);
    var edges, edgeErrors := SerializeEdges(d);
    var errors := nodeErrors + edgeErrors;
    JoinReports(nodeErrors, edgeErrors);
    if d.root != None && d.root.value !in DraftIds(d.nodes) {
      JoinReports(errors, [DraftError(-1, RootGone)]);
      errors := errors + [DraftError(-1, RootGone)];
    }
    EmptyIffAcceptable(d, parse, errors);
    if |errors| > 0 {
      return Rejected(errors);
    }
    return Saved(Graph(d.root, nodes, edges));
  }

  lemma EmptyIffAcceptable(d: PlaybookDraft, parse: Parser, errors: seq<DraftError>)
    requires forall x :: x in errors <==> HasProblem(d, parse, x)
    ensures errors == [] <==> Acceptable(d, parse)
  {
    if errors != [] { assert errors[0] in errors; }
  }

  ghost predicate Acceptable(d: PlaybookDraft, parse: Parser) {
    forall x :: !HasProblem(d, parse, x)
  }

  lemma IdsGrow(ns: seq<NodeDraft>, i: nat)
    requires i < |ns|
    ensures DraftIds(ns[..i + 1]) == DraftIds(ns[..i]) + {ns[i].id}
  {
    assert ns[..i + 1] == ns[..i] + [ns[i]];
  }

  lemma NodesGrow(d: PlaybookDraft, parse: Parser, i: nat)
    requires i < |d.nodes|
    ensures Normalised(d, parse).nodes[..i + 1] == Normalised(d, parse).nodes[..i] + [NodeOf(d.nodes[i], parse)]
  {
  }

  method SerializeNodes(d: PlaybookDraft, parse: Parser) returns (nodes: seq<Node>, errors: seq<DraftError>)
    ensures nodes == Normalised(d, parse).nodes
    ensures forall x :: x in errors <==> 0 <= x.index < |d.nodes| && NodeProblem(d, parse, x.index, x.problem)
    ensures InReportOrder(errors)
  {
    nodes, errors := [], [];
    var seen: set<Uuid> := {};
    for i := 0 to |d.nodes|
      invariant seen == DraftIds(d.nodes[..i]) && nodes == Normalised(d, parse).nodes[..i]
      invariant forall x :: x in errors <==> 0 <= x.index < i && NodeProblem(d, parse, x.index, x.problem)
      invariant InReportOrder(errors)
    {
      var node, found := CheckNode(d, parse, i, seen);
      JoinReports(errors, found);
      NodesGrow(d, parse, i);
      errors := errors + found;
      seen := seen + {d.nodes[i].id};
      nodes := nodes + [node];
      IdsGrow(d.nodes, i);
    }
  }

  lemma EdgesGrow(d: PlaybookDraft, i: nat)
    requires i < |d.edges|
    ensures SentEdges(d)[..i + 1] == SentEdges(d)[..i] + [EdgeOf(d.edges[i])]
  {
  }

  method SerializeEdges(d: PlaybookDraft) returns (edges: seq<Edge>, errors: seq<DraftError>)
    ensures edges == SentEdges(d)
    ensures forall x :: x in errors <==> 0 <= x.index < |d.edges| && EdgeProblem(d, x.index, x.problem)
    ensures InReportOrder(errors)
  {
    edges, errors := [], [];
    var seen: set<Uuid> := {};
    var labels: map<Uuid, set<string>> := map[];
    for i := 0 to |d.edges|
      invariant edges == SentEdges(d)[..i] && LabelsSeen(d, i, labels)
      invariant forall u :: u in seen <==> exists j :: 0 <= j < i && d.edges[j].id == u
      invariant forall x :: x in errors <==> 0 <= x.index < i && EdgeProblem(d, x.index, x.problem)
      invariant InReportOrder(errors)
    {
      var edge, found;
      edge, found, labels := CheckEdge(d, i, DraftIds(d.nodes), seen, labels);
      JoinReports(errors, found);
      EdgesGrow(d, i);
      errors := errors + found;
      seen := seen + {d.edges[i].id};
      edges := edges + [edge];
    }
  }

  // ----- what an accepted draft satisfies

  /** Everything that can be demanded of one stored version's graph by itself. */
  ghost predicate Coherent(g: Graph) {
    && UniqueNodeIds(g.nodes) && (forall n :: n in g.nodes ==> NodeCheck(n))
    && UniqueEdgeIds(g.edges) && UniqueLabels(g.edges)
    && (forall e :: e in g.edges ==> Resolves(NodeIds(g.nodes), e))
    && (g.root.Some? ==> g.root.value in NodeIds(g.nodes))
  }

  /** The form's kind selector offers two kinds. */
  ghost predicate KindsOffered(d: PlaybookDraft) {
    forall n :: n in d.nodes ==> n.kind == Decision || n.kind == Terminal
  }

  lemma NormalisedIds(d: PlaybookDraft, parse: Parser)
    ensures NodeIds(Normalised(d, parse).nodes) == DraftIds(d.nodes)
  {
    var g := Normalised(d, parse);
    forall u ensures u in NodeIds(g.nodes) <==> u in DraftIds(d.nodes) {
      if u in NodeIds(g.nodes) {
        var n :| n in g.nodes && n.id == u;
        var i :| 0 <= i < |g.nodes| && g.nodes[i] == n;
        assert d.nodes[i] in d.nodes && d.nodes[i].id == u;
      }
      if u in DraftIds(d.nodes) {
        var n :| n in d.nodes && n.id == u;
        var i :| 0 <= i < |d.nodes| && d.nodes[i] == n;
        assert g.nodes[i] in g.nodes && g.nodes[i].id == u;
      }
    }
  }

  lemma AcceptedNodes(d: PlaybookDraft, parse: Parser)
    requires Acceptable(d, parse) && KindsOffered(d)
    ensures var g := Normalised(d, parse);
      UniqueNodeIds(g.nodes) && (forall n :: n in g.nodes ==> NodeCheck(n) && n.title != "")
  {
    var g := Normalised(d, parse);
    forall i, j | 0 <= i < j < |g.nodes| ensures g.nodes[i].id != g.nodes[j].id {
      assert !HasProblem(d, parse, DraftError(j, NodeIdRepeated));
    }
    forall n | n in g.nodes ensures NodeCheck(n) && n.title != "" {
      var i :| 0 <= i < |g.nodes| && g.nodes[i] == n;
      assert d.nodes[i] in d.nodes;
      assert !HasProblem(d, parse, DraftError(i, TitleMissing));
    }
  }

  lemma AcceptedEdge(d: PlaybookDraft, parse: Parser, i: nat)
    requires Acceptable(d, parse) && i < |d.edges|
    ensures var e := d.edges[i];
      && e.from.Some? && e.to.Some? && e.from.value in DraftIds(d.nodes) && e.to.value in DraftIds(d.nodes) && Trim(e.caption) != ""
      && forall j :: 0 <= j < i ==> d.edges[j].id != e.id && !(d.edges[j].from == e.from && Trim(d.edges[j].caption) == Trim(e.caption))
  {
    assert !HasProblem(d, parse, DraftError(i, FromUnset)) && !HasProblem(d, parse, DraftError(i, FromGone));
    assert !HasProblem(d, parse, DraftError(i, ToUnset)) && !HasProblem(d, parse, DraftError(i, ToGone));
    assert !HasProblem(d, parse, DraftError(i, LabelMissing)) && !HasProblem(d, parse, DraftError(i, LabelRepeated));
    assert !HasProblem(d, parse, DraftError(i, EdgeIdRepeated));
  }

  /** What the form accepts satisfies every per-version constraint of the database. */
  lemma AcceptedIsCoherent(d: PlaybookDraft, parse: Parser)
    requires Acceptable(d, parse) && KindsOffered(d)
    ensures Coherent(Normalised(d, parse))
  {
    var g := Normalised(d, parse);
    AcceptedNodes(d, parse);
    NormalisedIds(d, parse);
    forall e | e in g.edges ensures Resolves(NodeIds(g.nodes), e) {
      var i :| 0 <= i < |g.edges| && g.edges[i] == e;
      AcceptedEdge(d, parse, i);
    }
    forall i, j | 0 <= i < j < |g.edges|
      ensures g.edges[i].id != g.edges[j].id && !(g.edges[i].from == g.edges[j].from && g.edges[i].caption == g.edges[j].caption)
    {
      AcceptedEdge(d, parse, i);
      AcceptedEdge(d, parse, j);
    }
    if d.root.Some? { assert !HasProblem(d, parse, DraftError(-1, RootGone)); }
  }

  /** So ReplaceGraph stores it, unless one of its ids is in use by another version. */
  lemma AcceptedIsStorable(d: PlaybookDraft, parse: Parser, t: Tables, v: Uuid)
    requires Acceptable(d, parse) && KindsOffered(d) && Consistent(t) && v in t.versions
    requires forall r :: r in t.nodes && r.node.id in DraftIds(d.nodes) ==> r.versionId == v
    requires forall r :: r in t.edges && r.edge.id in EdgeIds(Normalised(d, parse).edges) ==> r.versionId == v
    ensures RunAll(t, v, ReplaceScript(Normalised(d, parse))) == Ran(Stored(t, v, Normalised(d, parse)))
  {
    var g := Normalised(d, parse);
    AcceptedIsCoherent(d, parse);
    NormalisedIds(d, parse);
    forall n, r | n in g.nodes && r in t.nodes && n.id == r.node.id ensures r.versionId == v { assert n.id in NodeIds(g.nodes); }
    forall e, r | e in g.edges && r in t.edges && e.id == r.edge.id ensures r.versionId == v { assert e.id in EdgeIds(g.edges); }
    ReplaceExact(t, v, g);
  }

  // ----- reloading

  /** draftFromDefinition: a stored graph back in the form. print is JSON.stringify. */
  function DraftFrom(g: Graph, render: Json -> string): PlaybookDraft {
    PlaybookDraft(g.root,
          seq(|g.nodes|, i requires 0 <= i < |g.nodes| => NodeDraftFrom(g.nodes[i], render)),
          seq(|g.edges|, i requires 0 <= i < |g.edges| => EdgeDraftFrom(g.edges[i])))
  }

  function NodeDraftFrom(n: Node, render: Json -> string): NodeDraft {
    NodeDraft(n.id, n.kind, n.title, n.description, if n.resolution.Some? then n.resolution.value else "",
              if n.metadata.Some? then render(n.metadata.value) else "")
  }

  function EdgeDraftFrom(e: Edge): EdgeDraft {
    EdgeDraft(e.id, Some(e.from), Some(e.to), e.caption, if e.description.Some? then e.description.value else "", IntToString(e.sortOrder))
  }

  /** Printing an object and parsing it gives it back, with no white space around it. */
  ghost predicate PrintsObjects(parse: Parser, render: Json -> string) {
    forall j: Json :: j.Object? ==> render(j) != "" && Trim(render(j)) == render(j) && parse(render(j)) == Some(j)
  }

  /** A stored graph whose texts the form would leave alone. */
  ghost predicate FormShaped(g: Graph) {
    && (forall n :: n in g.nodes ==> FormNode(n))
    && (forall e :: e in g.edges ==> FormEdge(e))
  }

  predicate FormNode(n: Node) {
    && n.title != "" && IsTrimmed(n.title) && IsTrimmed(n.description)
    && (n.resolution.Some? ==> n.resolution.value != "" && IsTrimmed(n.resolution.value))
    && (n.metadata.Some? ==> n.metadata.value.Object?)
  }

  predicate FormEdge(e: Edge) {
    && e.caption != "" && IsTrimmed(e.caption)
    && (e.description.Some? ==> e.description.value != "" && IsTrimmed(e.description.value))
  }

  lemma NodeSurvives(n: Node, parse: Parser, render: Json -> string)
    requires FormNode(n) && NodeCheck(n) && PrintsObjects(parse, render)
    ensures NodeOf(NodeDraftFrom(n, render), parse) == n
    ensures n.metadata.Some? ==> MetadataOf(render(n.metadata.value), parse) == n.metadata
  {
    TrimTrims(n.title);
    TrimTrims(n.description);
    if n.resolution.Some? { TrimTrims(n.resolution.value); }
    assert Trim("") == "";
  }

  lemma EdgeSurvives(e: Edge)
    requires FormEdge(e)
    ensures EdgeOf(EdgeDraftFrom(e)) == e && Trim(e.caption) == e.caption
  {
    TrimTrims(e.caption);
    if e.description.Some? { TrimTrims(e.description.value); }
    ParsePrinted(e.sortOrder);
    assert Trim("") == "";
  }

  lemma ReloadNormalises(g: Graph, parse: Parser, render: Json -> string)
    requires FormShaped(g) && PrintsObjects(parse, render) && forall n :: n in g.nodes ==> NodeCheck(n)
    ensures Normalised(DraftFrom(g, render), parse) == g
  {
    var h := Normalised(DraftFrom(g, render), parse);
    forall i | 0 <= i < |g.nodes| ensures h.nodes[i] == g.nodes[i] {
      assert g.nodes[i] in g.nodes;
      NodeSurvives(g.nodes[i], parse, render);
    }
    forall i | 0 <= i < |g.edges| ensures h.edges[i] == g.edges[i] {
      assert g.edges[i] in g.edges;
      EdgeSurvives(g.edges[i]);
    }
  }

  lemma NormalisedNodeShaped(d: PlaybookDraft, parse: Parser, i: nat)
    requires Acceptable(d, parse) && KindsOffered(d) && i < |d.nodes|
    ensures FormNode(Normalised(d, parse).nodes[i])
  {
    assert !HasProblem(d, parse, DraftError(i, TitleMissing)) && !HasProblem(d, parse, DraftError(i, ResolutionMissing));
    TrimTrims(d.nodes[i].title);
    TrimTrims(d.nodes[i].description);
    TrimTrims(d.nodes[i].terminalResolution);
  }

  lemma NormalisedEdgeShaped(d: PlaybookDraft, parse: Parser, i: nat)
    requires Acceptable(d, parse) && i < |d.edges|
    ensures FormEdge(Normalised(d, parse).edges[i])
  {
    assert !HasProblem(d, parse, DraftError(i, LabelMissing));
    TrimTrims(d.edges[i].caption);
    TrimTrims(d.edges[i].description);
  }

  /** What the form sends is already in the shape the form leaves alone. */
  lemma NormalisedIsFormShaped(d: PlaybookDraft, parse: Parser)
    requires Acceptable(d, parse) && KindsOffered(d)
    ensures FormShaped(Normalised(d, parse))
  {
    var g := Normalised(d, parse);
    forall n | n in g.nodes ensures FormNode(n) {
      var i :| 0 <= i < |g.nodes| && g.nodes[i] == n;
      NormalisedNodeShaped(d, parse, i);
    }
    forall e | e in g.edges ensures FormEdge(e) {
      var i :| 0 <= i < |g.edges| && g.edges[i] == e;
      NormalisedEdgeShaped(d, parse, i);
    }
  }

  /** A stored graph with object metadata saves again from the form exactly when this holds. */
  ghost predicate Resavable(g: Graph) {
    && (forall n :: n in g.nodes ==> Trim(n.title) != "" && (n.kind == Terminal ==> Trim(n.resolution.GetOr("")) != ""))
    && (forall e :: e in g.edges ==> Trim(e.caption) != "")
    && (forall i, j :: 0 <= i < j < |g.edges| && g.edges[i].from == g.edges[j].from ==>
          Trim(g.edges[i].caption) != Trim(g.edges[j].caption))
  }

  lemma DraftFromIds(g: Graph, render: Json -> string)
    ensures DraftIds(DraftFrom(g, render).nodes) == NodeIds(g.nodes)
  {
    var d := DraftFrom(g, render);
    forall u ensures u in DraftIds(d.nodes) <==> u in NodeIds(g.nodes) {
      if u in DraftIds(d.nodes) {
        var n :| n in d.nodes && n.id == u;
        var i :| 0 <= i < |d.nodes| && d.nodes[i] == n;
        assert g.nodes[i] in g.nodes && g.nodes[i].id == u;
      }
      if u in NodeIds(g.nodes) {
        var n :| n in g.nodes && n.id == u;
        var i :| 0 <= i < |g.nodes| && g.nodes[i] == n;
        assert d.nodes[i] in d.nodes && d.nodes[i].id == u;
      }
    }
  }

  lemma ResavableNode(g: Graph, parse: Parser, render: Json -> string, i: nat, p: Problem)
    requires UniqueNodeIds(g.nodes) && PrintsObjects(parse, render) && i < |g.nodes| && NodeCheck(g.nodes[i])
    requires var n := g.nodes[i];
      && Trim(n.title) != "" && (n.kind == Terminal ==> Trim(n.resolution.GetOr("")) != "")
      && (n.metadata.Some? ==> n.metadata.value.Object?)
    ensures !NodeProblem(DraftFrom(g, render), parse, i, p)
  {
    var d := DraftFrom(g, render);
    assert Trim("") == "";
    assert forall j :: 0 <= j < i ==> d.nodes[j].id == g.nodes[j].id != g.nodes[i].id;
  }

  lemma ResavableEdge(g: Graph, render: Json -> string, i: nat, p: Problem)
    requires UniqueEdgeIds(g.edges) && i < |g.edges| && Resolves(NodeIds(g.nodes), g.edges[i]) && Trim(g.edges[i].caption) != ""
    requires forall j :: 0 <= j < i && g.edges[j].from == g.edges[i].from ==> Trim(g.edges[j].caption) != Trim(g.edges[i].caption)
    ensures !EdgeProblem(DraftFrom(g, render), i, p)
  {
    var d := DraftFrom(g, render);
    DraftFromIds(g, render);
    forall j | 0 <= j < i
      ensures d.edges[j].id != d.edges[i].id
      ensures !(d.edges[j].from == d.edges[i].from && Trim(d.edges[j].caption) == Trim(d.edges[i].caption))
    {
      assert g.edges[j].id != g.edges[i].id;
    }
  }

  lemma ResavableHasNoProblem(g: Graph, parse: Parser, render: Json -> string, x: DraftError)
    requires Coherent(g) && PrintsObjects(parse, render) && Resavable(g)
    requires forall n :: n in g.nodes && n.metadata.Some? ==> n.metadata.value.Object?
    ensures !HasProblem(DraftFrom(g, render), parse, x)
  {
    if 0 <= x.index < |g.nodes| {
      assert g.nodes[x.index] in g.nodes;
      ResavableNode(g, parse, render, x.index, x.problem);
    }
    if 0 <= x.index < |g.edges| {
      assert g.edges[x.index] in g.edges;
      ResavableEdge(g, render, x.index, x.problem);
    }
    DraftFromIds(g, render);
  }

  lemma ProblemFreeIsResavable(g: Graph, parse: Parser, render: Json -> string)
    requires Acceptable(DraftFrom(g, render), parse)
    ensures Resavable(g)
  {
    var d := DraftFrom(g, render);
    forall n | n in g.nodes ensures Trim(n.title) != "" && (n.kind == Terminal ==> Trim(n.resolution.GetOr("")) != "") {
      var i :| 0 <= i < |g.nodes| && g.nodes[i] == n;
      assert !HasProblem(d, parse, DraftError(i, TitleMissing)) && !HasProblem(d, parse, DraftError(i, ResolutionMissing));
    }
    forall e | e in g.edges ensures Trim(e.caption) != "" {
      var i :| 0 <= i < |g.edges| && g.edges[i] == e;
      assert !HasProblem(d, parse, DraftError(i, LabelMissing));
    }
    forall i, j | 0 <= i < j < |g.edges| && g.edges[i].from == g.edges[j].from
      ensures Trim(g.edges[i].caption) != Trim(g.edges[j].caption)
    {
      AcceptedEdge(d, parse, j);
      assert d.edges[i].id == g.edges[i].id && d.edges[i].from == d.edges[j].from;
    }
  }

  /**
    The client's rules are stricter than the server's: a stored graph, loaded back into
    the form, can be saved again exactly when no title, label or terminal resolution is
    blank and the labels of a node stay distinct when trimmed.
  */
  lemma ReloadAcceptedIff(g: Graph, parse: Parser, render: Json -> string)
    requires Coherent(g) && PrintsObjects(parse, render)
    requires forall n :: n in g.nodes && n.metadata.Some? ==> n.metadata.value.Object?
    ensures Acceptable(DraftFrom(g, render), parse) <==> Resavable(g)
  {
    if Resavable(g) {
      forall x ensures !HasProblem(DraftFrom(g, render), parse, x) { ResavableHasNoProblem(g, parse, render, x); }
    }
    if Acceptable(DraftFrom(g, render), parse) { ProblemFreeIsResavable(g, parse, render); }
  }

  /** The database accepts a terminal node with an empty resolution; the form does not. */
  lemma EmptyResolutionDisagreement(parse: Parser, render: Json -> string)
    requires PrintsObjects(parse, render)
    ensures var g := Graph(None, [Node(1, Terminal, "t", "", Some(""), None)], []);
      Coherent(g) && !Acceptable(DraftFrom(g, render), parse)
  {
    var g := Graph(None, [Node(1, Terminal, "t", "", Some(""), None)], []);
    assert g.nodes[0] in g.nodes && Trim("") == "";
    ReloadAcceptedIff(g, parse, render);
  }

  /**
    Saving is a normalising fixpoint: what the form sends, loaded back into the form, is
    accepted and sent unchanged.
  */
  lemma SavingIsStable(d: PlaybookDraft, parse: Parser, render: Json -> string)
    requires Acceptable(d, parse) && KindsOffered(d) && PrintsObjects(parse, render)
    ensures var g := Normalised(d, parse);
      Acceptable(DraftFrom(g, render), parse) && Normalised(DraftFrom(g, render), parse) == g
  {
    var g := Normalised(d, parse);
    AcceptedIsCoherent(d, parse);
    NormalisedIsFormShaped(d, parse);
    ReloadNormalises(g, parse, render);
    FormShapedIsResavable(g);
    ReloadAcceptedIff(g, parse, render);
  }

  lemma FormShapedIsResavable(g: Graph)
    requires FormShaped(g) && Coherent(g)
    ensures Resavable(g)
  {
    forall n | n in g.nodes ensures Trim(n.title) == n.title && (n.resolution.Some? ==> Trim(n.resolution.value) == n.resolution.value) {
      TrimTrims(n.title);
      if n.resolution.Some? { TrimTrims(n.resolution.value); }
    }
    forall e | e in g.edges ensures Trim(e.caption) == e.caption { TrimTrims(e.caption); }
    forall i, j | 0 <= i < j < |g.edges| && g.edges[i].from == g.edges[j].from
      ensures Trim(g.edges[i].caption) != Trim(g.edges[j].caption)
    {
      assert g.edges[i] in g.edges && g.edges[j] in g.edges;
    }
  }

  lemma AcceptedNodesClean(d: PlaybookDraft, parse: Parser)
    requires Acceptable(d, parse) && KindsOffered(d) && NIL !in DraftIds(d.nodes)
    ensures GraphInput.NodesClean(Normalised(d, parse).nodes)
  {
    var g := Normalised(d, parse);
    AcceptedNodes(d, parse);
    NormalisedIds(d, parse);
    forall i, f | 0 <= i < |g.nodes| ensures !GraphInput.NodeFault(g.nodes, i, f) {
      assert g.nodes[i] in g.nodes && g.nodes[i].id in NodeIds(g.nodes) && NodeCheck(g.nodes[i]);
    }
  }

  lemma AcceptedEdgesClean(d: PlaybookDraft, parse: Parser)
    requires Acceptable(d, parse) && NIL !in DraftIds(d.nodes) && forall e :: e in d.edges ==> e.id != NIL
    ensures GraphInput.EdgesClean(Normalised(d, parse).edges)
  {
    var g := Normalised(d, parse);
    forall i, f | 0 <= i < |g.edges| ensures !GraphInput.EdgeFault(g.edges, i, f) {
      AcceptedEdge(d, parse, i);
      assert d.edges[i] in d.edges;
      assert forall j :: 0 <= j < i ==> g.edges[j].id == d.edges[j].id;
    }
  }

  /** The server's input validation finds no fault in what the form sends, given non-nil ids. */
  lemma AcceptedPassesInput(d: PlaybookDraft, parse: Parser)
    requires Acceptable(d, parse) && KindsOffered(d)
    requires NIL !in DraftIds(d.nodes) && forall e :: e in d.edges ==> e.id != NIL
    ensures GraphInput.NodesClean(Normalised(d, parse).nodes) && GraphInput.EdgesClean(Normalised(d, parse).edges)
  {
    AcceptedNodesClean(d, parse);
    AcceptedEdgesClean(d, parse);
  }
}
