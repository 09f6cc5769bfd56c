/**
  The tables playbooks, playbook_versions, playbook_nodes and playbook_edges of
  migrations/000001_init_schema.up.sql, their constraints, and the statements that
  internal/repository/postgres/playbook.go runs on one version. Every statement is
  checked against the constraints it could break, as PostgreSQL does when it ends.
*/
module VersionTables {
  import opened Domain

  datatype NodeRow = NodeRow(versionId: Uuid, node: Node)
  datatype EdgeRow = EdgeRow(versionId: Uuid, edge: Edge)

  datatype Tables = Tables(
    playbooks: map<Uuid, string>,   // id to alert_type
    versions: map<Uuid, Version>,
    nodes: set<NodeRow>,
    edges: set<EdgeRow>)

  datatype Violation =
    | NodeIdTaken        // playbook_nodes_pkey
    | EdgeIdTaken        // playbook_edges_pkey
    | LabelTaken         // playbook_edges_from_node_id_label_key
    | EndpointMissing    // fk_playbook_edges_from/to_node_same_version
    | RootMissing        // fk_playbook_versions_root_node
    | NodeCheckFailed    // chk_playbook_nodes_terminal_resolution, playbook_node_kind

  datatype Outcome = Ran(tables: Tables) | Violated(what: Violation)

  // ----- rows of one version

  function NodesOf(t: Tables, v: Uuid): set<Node> {
    set r | r in t.nodes && r.versionId == v :: r.node
  }

  function EdgesOf(t: Tables, v: Uuid): set<Edge> {
    set r | r in t.edges && r.versionId == v :: r.edge
  }

  function IdsOf(nodes: set<Node>): set<Uuid> {
    set n | n in nodes :: n.id
  }

  /** What is stored of one version. */
  datatype Content = Content(row: Version, nodes: set<Node>, edges: set<Edge>)

  function ContentOf(t: Tables, v: Uuid): Content
    requires v in t.versions
  {
    Content(t.versions[v], NodesOf(t, v), EdgesOf(t, v))
  }

  // ----- constraints

  /** kind is one of the enum's values, and carries a resolution iff it is terminal. */
  predicate NodeCheck(n: Node) {
    (n.kind == Terminal && n.resolution.Some?) || (n.kind == Decision && n.resolution == None)
  }

  /** One of the two kinds, with a resolution exactly for a terminal node. */
  lemma NodeCheckMeans(n: Node)
    ensures NodeCheck(n) <==> (n.kind == Decision || n.kind == Terminal) && (n.resolution.Some? <==> n.kind == Terminal)
  {
  }

  ghost predicate VersionRowOk(t: Tables, v: Uuid)
    requires v in t.versions
  {
    var row := t.versions[v];
    && row.id == v
    && row.playbookId in t.playbooks
    && (row.status == Draft <==> row.publishedAt == None)
    && (row.root.Some? ==> row.root.value in IdsOf(NodesOf(t, v)))
  }

  ghost predicate EdgeRowOk(t: Tables, r: EdgeRow) {
    r.versionId in t.versions && Resolves(IdsOf(NodesOf(t, r.versionId)), r.edge)
  }

  ghost predicate NodeIdsUnique(nodes: set<NodeRow>) {
    forall r, q :: r in nodes && q in nodes && r.node.id == q.node.id ==> r == q
  }

  ghost predicate EdgeIdsUnique(edges: set<EdgeRow>) {
    forall r, q :: r in edges && q in edges && r.edge.id == q.edge.id ==> r == q
  }

  ghost predicate LabelsUnique(edges: set<EdgeRow>) {
    forall r, q :: r in edges && q in edges && r.edge.from == q.edge.from && r.edge.caption == q.edge.caption ==> r == q
  }

  predicate SameNumber(a: Version, b: Version) {
    a.playbookId == b.playbookId && a.number == b.number
  }

  /** UNIQUE (playbook_id, version). */
  ghost predicate NumbersUnique(versions: map<Uuid, Version>) {
    forall v, w :: v in versions && w in versions && SameNumber(versions[v], versions[w]) ==> v == w
  }

  ghost predicate Consistent(t: Tables) {
    && (forall v {:trigger VersionRowOk(t, v)} :: v in t.versions ==> VersionRowOk(t, v))
    && (forall r {:trigger NodeCheck(r.node)} :: r in t.nodes ==> r.versionId in t.versions && NodeCheck(r.node))
    && (forall r {:trigger EdgeRowOk(t, r)} :: r in t.edges ==> EdgeRowOk(t, r))
    && NodeIdsUnique(t.nodes)
    && EdgeIdsUnique(t.edges)
    && LabelsUnique(t.edges)
    && NumbersUnique(t.versions)
  }

  // ----- statements on one version

  datatype Stmt =
    | ClearRoot
    | DropEdges
    | DropNodes
    | AddNode(node: Node)
    | AddEdge(edge: Edge)
    | PutRoot(root: Uuid)
    | MarkPublished(at: Time)

  function PutRow(t: Tables, v: Uuid, row: Version): Tables {
    t.(versions := t.versions[v := row])
  }

  function Exec(t: Tables, v: Uuid, s: Stmt): Outcome
    requires v in t.versions
  {
    match s
    case ClearRoot => Ran(PutRow(t, v, t.versions[v].(root := None)))
    case DropEdges => Ran(t.(edges := set r | r in t.edges && r.versionId != v))
    case DropNodes =>
      if exists r :: r in t.edges && r.versionId == v then Violated(EndpointMissing)
      else if t.versions[v].root.Some? then Violated(RootMissing)
      else Ran(t.(nodes := set r | r in t.nodes && r.versionId != v))
    case AddNode(n) =>
      if exists r :: r in t.nodes && r.node.id == n.id then Violated(NodeIdTaken)
      else if !NodeCheck(n) then Violated(NodeCheckFailed)
      else Ran(t.(nodes := t.nodes + {NodeRow(v, n)}))
    case AddEdge(e) =>
      if exists r :: r in t.edges && r.edge.id == e.id then Violated(EdgeIdTaken)
      else if exists r :: r in t.edges && r.edge.from == e.from && r.edge.caption == e.caption then Violated(LabelTaken)
      else if !Resolves(IdsOf(NodesOf(t, v)), e) then Violated(EndpointMissing)
      else Ran(t.(edges := t.edges + {EdgeRow(v, e)}))
    case PutRoot(r) =>
      if r !in IdsOf(NodesOf(t, v)) then Violated(RootMissing)
      else Ran(PutRow(t, v, t.versions[v].(root := Some(r))))
    case MarkPublished(at) => Ran(PutRow(t, v, t.versions[v].(status := Published, publishedAt := Some(at))))
  }

  /** Statements one after the other, stopping at the first violation. */
  function RunAll(t: Tables, v: Uuid, ss: seq<Stmt>): Outcome
    requires v in t.versions
    decreases |ss|
  {
    if ss == [] then Ran(t)
    else
      var first := Exec(t, v, ss[0]);
      if first.Violated? then first else RunAll(first.tables, v, ss[1..])
  }

  /** Rows of version v, and only of version v, may differ. */
  ghost predicate OnlyVersion(t: Tables, t': Tables, v: Uuid) {
    && t'.playbooks == t.playbooks
    && t'.versions.Keys == t.versions.Keys
    && (forall w {:trigger t'.versions[w]} :: w in t.versions && w != v ==> t'.versions[w] == t.versions[w])
    && (forall w :: w != v ==> NodesOf(t', w) == NodesOf(t, w) && EdgesOf(t', w) == EdgesOf(t, w))
  }

  lemma ExecTouchesOnly(t: Tables, v: Uuid, s: Stmt)
    requires v in t.versions && Exec(t, v, s).Ran?
    ensures OnlyVersion(t, Exec(t, v, s).tables, v)
  {
    var t' := Exec(t, v, s).tables;
    forall w | w != v ensures NodesOf(t', w) == NodesOf(t, w) && EdgesOf(t', w) == EdgesOf(t, w) {}
  }

  // one lemma per table: a statement that ran left every constraint true

  lemma ExecKeepsNodes(t: Tables, v: Uuid, s: Stmt)
    requires Consistent(t) && v in t.versions && Exec(t, v, s).Ran?
    ensures var t' := Exec(t, v, s).tables;
      NodeIdsUnique(t'.nodes) && forall r :: r in t'.nodes ==> r.versionId in t'.versions && NodeCheck(r.node)
  {
    var t' := Exec(t, v, s).tables;
    forall r | r in t'.nodes ensures r.versionId in t'.versions && NodeCheck(r.node) {
      if r in t.nodes { assert NodeCheck(r.node); }
    }
  }

  lemma NodesOfGrow(t: Tables, t': Tables, w: Uuid)
    requires t.nodes <= t'.nodes
    ensures NodesOf(t, w) <= NodesOf(t', w) && IdsOf(NodesOf(t, w)) <= IdsOf(NodesOf(t', w))
  {
  }

  lemma ExecKeepsEdgeRow(t: Tables, v: Uuid, s: Stmt, r: EdgeRow)
    requires Consistent(t) && v in t.versions && Exec(t, v, s).Ran? && r in Exec(t, v, s).tables.edges
    ensures EdgeRowOk(Exec(t, v, s).tables, r)
  {
    var t' := Exec(t, v, s).tables;
    ExecTouchesOnly(t, v, s);
    if r in t.edges {
      assert EdgeRowOk(t, r);
      if r.versionId == v { NodesOfGrow(t, t', v); }
    }
  }

  lemma ExecKeepsEdges(t: Tables, v: Uuid, s: Stmt)
    requires Consistent(t) && v in t.versions && Exec(t, v, s).Ran?
    ensures var t' := Exec(t, v, s).tables;
      EdgeIdsUnique(t'.edges) && LabelsUnique(t'.edges) && forall r :: r in t'.edges ==> EdgeRowOk(t', r)
  {
    var t' := Exec(t, v, s).tables;
    forall r | r in t'.edges ensures EdgeRowOk(t', r) { ExecKeepsEdgeRow(t, v, s, r); }
  }

  lemma ExecKeepsVersions(t: Tables, v: Uuid, s: Stmt)
    requires Consistent(t) && v in t.versions && Exec(t, v, s).Ran?
    ensures var t' := Exec(t, v, s).tables;
      NumbersUnique(t'.versions) && forall w :: w in t'.versions ==> VersionRowOk(t', w)
  {
    var t' := Exec(t, v, s).tables;
    ExecTouchesOnly(t, v, s);
    forall w | w in t'.versions ensures VersionRowOk(t', w) {
      assert VersionRowOk(t, w);
      if w == v && s.AddNode? { NodesOfGrow(t, t', v); }
    }
  }

  /** Every single statement of every script preserves every constraint, or is refused. */
  lemma ExecKeeps(t: Tables, v: Uuid, s: Stmt)
    requires Consistent(t) && v in t.versions && Exec(t, v, s).Ran?
    ensures Consistent(Exec(t, v, s).tables)
  {
    ExecKeepsNodes(t, v, s);
    ExecKeepsEdges(t, v, s);
    ExecKeepsVersions(t, v, s);
  }

  lemma {:induction false} RunKeeps(t: Tables, v: Uuid, ss: seq<Stmt>)
    requires Consistent(t) && v in t.versions && RunAll(t, v, ss).Ran?
    ensures Consistent(RunAll(t, v, ss).tables) && OnlyVersion(t, RunAll(t, v, ss).tables, v)
    decreases |ss|
  {
    if ss != [] {
      ExecKeeps(t, v, ss[0]);
      ExecTouchesOnly(t, v, ss[0]);
      RunKeeps(Exec(t, v, ss[0]).tables, v, ss[1..]);
    }
  }

  lemma {:induction false} RunConcat(t: Tables, v: Uuid, a: seq<Stmt>, b: seq<Stmt>)
    requires v in t.versions
    ensures RunAll(t, v, a).Ran? ==> v in RunAll(t, v, a).tables.versions
    ensures RunAll(t, v, a + b) == if RunAll(t, v, a).Ran? then RunAll(RunAll(t, v, a).tables, v, b) else RunAll(t, v, a)
    decreases |a|
  {
    if a == [] {
      assert a + b == b;
    } else {
      assert (a + b)[1..] == a[1..] + b && (a + b)[0] == a[0];
      if Exec(t, v, a[0]).Ran? {
        RunConcat(Exec(t, v, a[0]).tables, v, a[1..], b);
      }
    }
  }
}
