/**
  The statement sequences of writeGraph, clearGraph and ReplaceGraph
  (internal/repository/postgres/playbook.go): exactly which graphs they can store, and
  that what is stored is the graph and nothing else.
*/
module VersionScripts {
  import opened Domain
  import opened VersionTables

  function NodeStmts(ns: seq<Node>): seq<Stmt> {
    if ns == [] then [] else [AddNode(ns[0])] + NodeStmts(ns[1..])
  }

  function EdgeStmts(es: seq<Edge>): seq<Stmt> {
    if es == [] then [] else [AddEdge(es[0])] + EdgeStmts(es[1..])
  }

  function RootStmts(root: Option<Uuid>): seq<Stmt> {
    if root == None then [] else [PutRoot(root.value)]
  }

  /** writeGraph: nodes, then edges, then the root. */
  function WriteScript(g: Graph): seq<Stmt> {
    NodeStmts(g.nodes) + (EdgeStmts(g.edges) + RootStmts(g.root))
  }

  /** clearGraph: the root pointer, then edges, then nodes. */
  const CLEAR_SCRIPT: seq<Stmt> := [ClearRoot, DropEdges, DropNodes]

  function ReplaceScript(g: Graph): seq<Stmt> {
    CLEAR_SCRIPT + WriteScript(g)
  }

  // ----- what can be stored

  ghost predicate NodesAddable(taken: set<NodeRow>, ns: seq<Node>) {
    && UniqueNodeIds(ns)
    && (forall n :: n in ns ==> NodeCheck(n))
    && (forall n, r :: n in ns && r in taken ==> n.id != r.node.id)
  }

  ghost predicate EdgesAddable(taken: set<EdgeRow>, ids: set<Uuid>, es: seq<Edge>) {
    && UniqueEdgeIds(es)
    && UniqueLabels(es)
    && (forall e :: e in es ==> Resolves(ids, e))
    && (forall e, r :: e in es && r in taken ==> e.id != r.edge.id)
    && (forall e, r :: e in es && r in taken ==> !(e.from == r.edge.from && e.caption == r.edge.caption))
  }

  function NodeRows(v: Uuid, ns: seq<Node>): set<NodeRow> {
    set n | n in ns :: NodeRow(v, n)
  }

  function EdgeRows(v: Uuid, es: seq<Edge>): set<EdgeRow> {
    set e | e in es :: EdgeRow(v, e)
  }

  /** The graph is coherent, and its ids collide with no row of another version. */
  ghost predicate Storable(t: Tables, v: Uuid, g: Graph) {
    && UniqueNodeIds(g.nodes)
    && (forall n :: n in g.nodes ==> NodeCheck(n))
    && (forall n, r :: n in g.nodes && r in t.nodes && n.id == r.node.id ==> r.versionId == v)
    && UniqueEdgeIds(g.edges)
    && UniqueLabels(g.edges)
    && (forall e :: e in g.edges ==> Resolves(NodeIds(g.nodes), e))
    && (forall e, r :: e in g.edges && r in t.edges && e.id == r.edge.id ==> r.versionId == v)
    && (g.root.Some? ==> g.root.value in NodeIds(g.nodes))
  }

  // ----- inserting nodes and edges

  lemma AddableSplits(taken: set<NodeRow>, v: Uuid, ns: seq<Node>)
    requires ns != []
    ensures NodesAddable(taken, ns) <==> NodeFits(taken, ns[0]) && NodesAddable(taken + {NodeRow(v, ns[0])}, ns[1..])
  {
    var n, rest, taken' := ns[0], ns[1..], taken + {NodeRow(v, ns[0])};
    assert ns == [n] + rest && n in ns && NodeRow(v, n) in taken';
    if NodesAddable(taken, ns) {
      forall i, j | 0 <= i < j < |rest| ensures rest[i].id != rest[j].id { assert ns[i + 1].id != ns[j + 1].id; }
      forall m, r | m in rest && r in taken' ensures m.id != r.node.id {
        var i :| 0 <= i < |rest| && rest[i] == m;
        assert ns[0].id != ns[i + 1].id;
      }
    }
    if NodesAddable(taken', rest) && NodeFits(taken, n) {
      forall i, j | 0 <= i < j < |ns| ensures ns[i].id != ns[j].id {
        if i == 0 { assert rest[j - 1] in rest; } else { assert rest[i - 1].id != rest[j - 1].id; }
      }
    }
  }

  /** Node n can be inserted beside the taken rows. */
  predicate NodeFits(taken: set<NodeRow>, n: Node) {
    (!exists r :: r in taken && r.node.id == n.id) && NodeCheck(n)
  }

  lemma FirstNodeRuns(t: Tables, v: Uuid, ns: seq<Node>)
    requires v in t.versions && ns != []
    ensures NodeFits(t.nodes, ns[0]) ==>
      RunAll(t, v, NodeStmts(ns)) == RunAll(t.(nodes := t.nodes + {NodeRow(v, ns[0])}), v, NodeStmts(ns[1..]))
    ensures !NodeFits(t.nodes, ns[0]) ==> !RunAll(t, v, NodeStmts(ns)).Ran?
  {
    assert NodeStmts(ns)[1..] == NodeStmts(ns[1..]) && NodeStmts(ns)[0] == AddNode(ns[0]);
  }

  /** The node batch of writeGraph succeeds exactly when every row is new and passes its check. */
  lemma {:induction false} NodesRun(t: Tables, v: Uuid, ns: seq<Node>)
    requires v in t.versions
    ensures RunAll(t, v, NodeStmts(ns)).Ran? <==> NodesAddable(t.nodes, ns)
    ensures NodesAddable(t.nodes, ns) ==> RunAll(t, v, NodeStmts(ns)) == Ran(t.(nodes := t.nodes + NodeRows(v, ns)))
    decreases |ns|
  {
    if ns == [] {
      assert NodeRows(v, ns) == {};
    } else {
      AddableSplits(t.nodes, v, ns);
      FirstNodeRuns(t, v, ns);
      var t' := t.(nodes := t.nodes + {NodeRow(v, ns[0])});
      NodesRun(t', v, ns[1..]);
      assert ns == [ns[0]] + ns[1..];
      assert t.nodes + NodeRows(v, ns) == t'.nodes + NodeRows(v, ns[1..]);
    }
  }

  /** Edge e can be inserted beside the taken rows. */
  predicate EdgeFits(taken: set<EdgeRow>, ids: set<Uuid>, e: Edge) {
    && (!exists r :: r in taken && r.edge.id == e.id)
    && (!exists r :: r in taken && r.edge.from == e.from && r.edge.caption == e.caption)
    && Resolves(ids, e)
  }

  lemma EdgesAddableSplit(taken: set<EdgeRow>, ids: set<Uuid>, v: Uuid, es: seq<Edge>)
    requires es != []
    ensures EdgesAddable(taken, ids, es) <==> EdgeFits(taken, ids, es[0]) && EdgesAddable(taken + {EdgeRow(v, es[0])}, ids, es[1..])
  {
    var e, rest, taken' := es[0], es[1..], taken + {EdgeRow(v, es[0])};
    assert es == [e] + rest && e in es && EdgeRow(v, e) in taken';
    if EdgesAddable(taken, ids, es) {
      assert EdgeFits(taken, ids, e);
      forall i, j | 0 <= i < j < |rest|
        ensures rest[i].id != rest[j].id && !(rest[i].from == rest[j].from && rest[i].caption == rest[j].caption)
      {
        assert es[i + 1].id != es[j + 1].id && !(es[i + 1].from == es[j + 1].from && es[i + 1].caption == es[j + 1].caption);
      }
      forall f, r | f in rest && r in taken'
        ensures f.id != r.edge.id && !(f.from == r.edge.from && f.caption == r.edge.caption)
      {
        var i :| 0 <= i < |rest| && rest[i] == f;
        assert es[0].id != es[i + 1].id && !(es[0].from == es[i + 1].from && es[0].caption == es[i + 1].caption);
      }
    }
    if EdgesAddable(taken', ids, rest) && EdgeFits(taken, ids, e) {
      forall i, j | 0 <= i < j < |es|
        ensures es[i].id != es[j].id && !(es[i].from == es[j].from && es[i].caption == es[j].caption)
      {
        if i == 0 { assert rest[j - 1] in rest; } else { assert es[i] == rest[i - 1] && es[j] == rest[j - 1]; }
      }
    }
  }

  lemma FirstEdgeRuns(t: Tables, v: Uuid, es: seq<Edge>)
    requires v in t.versions && es != []
    ensures EdgeFits(t.edges, IdsOf(NodesOf(t, v)), es[0]) ==>
      RunAll(t, v, EdgeStmts(es)) == RunAll(t.(edges := t.edges + {EdgeRow(v, es[0])}), v, EdgeStmts(es[1..]))
    ensures !EdgeFits(t.edges, IdsOf(NodesOf(t, v)), es[0]) ==> !RunAll(t, v, EdgeStmts(es)).Ran?
  {
    assert EdgeStmts(es)[1..] == EdgeStmts(es[1..]) && EdgeStmts(es)[0] == AddEdge(es[0]);
  }

  lemma {:induction false} EdgesRun(t: Tables, v: Uuid, es: seq<Edge>)
    requires v in t.versions
    ensures RunAll(t, v, EdgeStmts(es)).Ran? <==> EdgesAddable(t.edges, IdsOf(NodesOf(t, v)), es)
    ensures EdgesAddable(t.edges, IdsOf(NodesOf(t, v)), es) ==>
      RunAll(t, v, EdgeStmts(es)) == Ran(t.(edges := t.edges + EdgeRows(v, es)))
    decreases |es|
  {
    if es == [] {
      assert EdgeRows(v, es) == {};
    } else {
      EdgesAddableSplit(t.edges, IdsOf(NodesOf(t, v)), v, es);
      FirstEdgeRuns(t, v, es);
      var t' := t.(edges := t.edges + {EdgeRow(v, es[0])});
      assert NodesOf(t', v) == NodesOf(t, v);
      EdgesRun(t', v, es[1..]);
      assert es == [es[0]] + es[1..];
      assert t.edges + EdgeRows(v, es) == t'.edges + EdgeRows(v, es[1..]);
    }
  }

  // ----- whole scripts

  function NodesSet(ns: seq<Node>): set<Node> {
    set n | n in ns
  }

  function EdgesSet(es: seq<Edge>): set<Edge> {
    set e | e in es
  }

  /** The rows of every version but v. */
  function Cleared(t: Tables, v: Uuid): Tables
    requires v in t.versions
  {
    Tables(t.playbooks, t.versions[v := t.versions[v].(root := None)],
           set r | r in t.nodes && r.versionId != v, set r | r in t.edges && r.versionId != v)
  }

  /** The rows of every other version, and g as the graph of v. */
  function Stored(t: Tables, v: Uuid, g: Graph): Tables
    requires v in t.versions
  {
    var c := Cleared(t, v);
    Tables(t.playbooks, t.versions[v := t.versions[v].(root := g.root)],
           c.nodes + NodeRows(v, g.nodes), c.edges + EdgeRows(v, g.edges))
  }

  predicate HoldsNoGraph(t: Tables, v: Uuid) {
    v in t.versions && t.versions[v].root == None && NodesOf(t, v) == {} && EdgesOf(t, v) == {}
  }

  /** A version's rows are exactly the graph that was stored. */
  lemma StoredContent(t: Tables, v: Uuid, g: Graph)
    requires v in t.versions
    ensures ContentOf(Stored(t, v, g), v) == Content(t.versions[v].(root := g.root), NodesSet(g.nodes), EdgesSet(g.edges))
    ensures OnlyVersion(t, Stored(t, v, g), v)
  {
    var t' := Stored(t, v, g);
    forall n ensures n in NodesOf(t', v) <==> n in NodesSet(g.nodes) {
      if n in g.nodes { assert NodeRow(v, n) in t'.nodes; }
    }
    forall e ensures e in EdgesOf(t', v) <==> e in EdgesSet(g.edges) {
      if e in g.edges { assert EdgeRow(v, e) in t'.edges; }
    }
    forall w | w != v ensures NodesOf(t', w) == NodesOf(t, w) && EdgesOf(t', w) == EdgesOf(t, w) {
      forall n ensures n in NodesOf(t', w) <==> n in NodesOf(t, w) {
        if n in NodesOf(t, w) { assert NodeRow(w, n) in t.nodes; }
      }
      forall e ensures e in EdgesOf(t', w) <==> e in EdgesOf(t, w) {
        if e in EdgesOf(t, w) { assert EdgeRow(w, e) in t.edges; }
      }
    }
  }

  /** A choice of v cannot share node and label with a row of another version: their nodes differ. */
  lemma LabelsFollowNodes(t: Tables, v: Uuid, g: Graph)
    requires Consistent(t) && HoldsNoGraph(t, v) && NodesAddable(t.nodes, g.nodes)
    requires forall e :: e in g.edges ==> Resolves(NodeIds(g.nodes), e)
    ensures forall e, r :: e in g.edges && r in t.edges ==> e.from != r.edge.from
  {
    forall e, r | e in g.edges && r in t.edges ensures e.from != r.edge.from {
      assert EdgeRowOk(t, r);
      var n :| n in NodesOf(t, r.versionId) && n.id == r.edge.from;
      assert NodeRow(r.versionId, n) in t.nodes;
      var m :| m in g.nodes && m.id == e.from;
    }
  }

  lemma NoRows(t: Tables, v: Uuid)
    requires HoldsNoGraph(t, v)
    ensures Cleared(t, v).nodes == t.nodes && Cleared(t, v).edges == t.edges
  {
    forall r | r in t.nodes ensures r.versionId != v { assert r.versionId == v ==> r.node in NodesOf(t, v); }
    forall r | r in t.edges ensures r.versionId != v { assert r.versionId == v ==> r.edge in EdgesOf(t, v); }
  }

  /** On a version without rows, storable is what the two batches and the root update need. */
  lemma StorableSplits(t: Tables, v: Uuid, g: Graph)
    requires Consistent(t) && HoldsNoGraph(t, v)
    ensures Storable(t, v, g) <==>
      NodesAddable(t.nodes, g.nodes) && EdgesAddable(t.edges, NodeIds(g.nodes), g.edges) &&
      (g.root.Some? ==> g.root.value in NodeIds(g.nodes))
  {
    NoRows(t, v);
    forall r | r in t.nodes ensures r.versionId != v { assert r in Cleared(t, v).nodes; }
    forall r | r in t.edges ensures r.versionId != v { assert r in Cleared(t, v).edges; }
    if NodesAddable(t.nodes, g.nodes) && forall e :: e in g.edges ==> Resolves(NodeIds(g.nodes), e) {
      LabelsFollowNodes(t, v, g);
    }
  }

  /** writeGraph into a version without rows succeeds exactly for the storable graphs, and stores them. */
  lemma WriteExact(t: Tables, v: Uuid, g: Graph)
    requires Consistent(t) && HoldsNoGraph(t, v)
    ensures RunAll(t, v, WriteScript(g)).Ran? <==> Storable(t, v, g)
    ensures Storable(t, v, g) ==> RunAll(t, v, WriteScript(g)) == Ran(Stored(t, v, g))
  {
    StorableSplits(t, v, g);
    NodesRun(t, v, g.nodes);
    RunConcat(t, v, NodeStmts(g.nodes), EdgeStmts(g.edges) + RootStmts(g.root));
    if NodesAddable(t.nodes, g.nodes) {
      var t1 := t.(nodes := t.nodes + NodeRows(v, g.nodes));
      NewNodeIds(t, v, g.nodes);
      EdgesRun(t1, v, g.edges);
      RunConcat(t1, v, EdgeStmts(g.edges), RootStmts(g.root));
      if EdgesAddable(t.edges, NodeIds(g.nodes), g.edges) {
        var t2 := t1.(edges := t1.edges + EdgeRows(v, g.edges));
        assert NodesOf(t2, v) == NodesOf(t1, v);
        RootRuns(t2, v, g.root);
        NoRows(t, v);
      }
    }
  }

  lemma NewNodeIds(t: Tables, v: Uuid, ns: seq<Node>)
    requires HoldsNoGraph(t, v)
    ensures IdsOf(NodesOf(t.(nodes := t.nodes + NodeRows(v, ns)), v)) == NodeIds(ns)
  {
    var t1 := t.(nodes := t.nodes + NodeRows(v, ns));
    forall n ensures n in NodesOf(t1, v) <==> n in ns {
      if n in ns { assert NodeRow(v, n) in t1.nodes; }
      assert NodeRow(v, n) in t.nodes ==> n in NodesOf(t, v);
    }
  }

  lemma RootRuns(t: Tables, v: Uuid, root: Option<Uuid>)
    requires v in t.versions && t.versions[v].root == None
    ensures RunAll(t, v, RootStmts(root)).Ran? <==> (root.Some? ==> root.value in IdsOf(NodesOf(t, v)))
    ensures RunAll(t, v, RootStmts(root)).Ran? ==> RunAll(t, v, RootStmts(root)).tables == PutRow(t, v, t.versions[v].(root := root))
  {
    if root.Some? {
      assert RootStmts(root)[1..] == [];
    } else {
      assert t.versions[v := t.versions[v]] == t.versions;
    }
  }

  lemma DropNodesRuns(t: Tables, v: Uuid)
    requires v in t.versions && t.versions[v].root == None && forall r :: r in t.edges ==> r.versionId != v
    ensures RunAll(t, v, [DropNodes]) == Ran(t.(nodes := set r | r in t.nodes && r.versionId != v))
  {
    RunStep(t, v, DropNodes, []);
    assert [DropNodes] == [DropNodes] + [];
  }

  lemma ClearRuns(t: Tables, v: Uuid)
    requires v in t.versions
    ensures RunAll(t, v, CLEAR_SCRIPT) == Ran(Cleared(t, v))
  {
    var t1 := PutRow(t, v, t.versions[v].(root := None));
    var t2 := t1.(edges := set r | r in t1.edges && r.versionId != v);
    assert CLEAR_SCRIPT == [ClearRoot] + [DropEdges, DropNodes] && [DropEdges, DropNodes] == [DropEdges] + [DropNodes];
    RunStep(t, v, ClearRoot, [DropEdges, DropNodes]);
    RunStep(t1, v, DropEdges, [DropNodes]);
    DropNodesRuns(t2, v);
  }

  /** clearGraph never fails and leaves the other versions' rows. */
  lemma ClearExact(t: Tables, v: Uuid)
    requires Consistent(t) && v in t.versions
    ensures RunAll(t, v, CLEAR_SCRIPT) == Ran(Cleared(t, v))
    ensures HoldsNoGraph(Cleared(t, v), v) && Consistent(Cleared(t, v))
  {
    ClearRuns(t, v);
    RunKeeps(t, v, CLEAR_SCRIPT);
  }

  lemma RunStep(t: Tables, v: Uuid, s: Stmt, rest: seq<Stmt>)
    requires v in t.versions && Exec(t, v, s).Ran?
    ensures RunAll(t, v, [s] + rest) == RunAll(Exec(t, v, s).tables, v, rest)
  {
    assert ([s] + rest)[1..] == rest;
  }

  /**
    ReplaceGraph's statements, on any consistent tables: no statement is refused exactly
    when the graph is storable; the version then holds that graph, no other version has
    changed, and every constraint holds.
  */
  lemma ReplaceExact(t: Tables, v: Uuid, g: Graph)
    requires Consistent(t) && v in t.versions
    ensures RunAll(t, v, ReplaceScript(g)).Ran? <==> Storable(t, v, g)
    ensures Storable(t, v, g) ==>
      && RunAll(t, v, ReplaceScript(g)) == Ran(Stored(t, v, g))
      && ContentOf(Stored(t, v, g), v) == Content(t.versions[v].(root := g.root), NodesSet(g.nodes), EdgesSet(g.edges))
      && OnlyVersion(t, Stored(t, v, g), v)
      && Consistent(Stored(t, v, g))
  {
    ReplaceRuns(t, v, g);
    StoredContent(t, v, g);
    if Storable(t, v, g) { RunKeeps(t, v, ReplaceScript(g)); }
  }

  lemma ReplaceRuns(t: Tables, v: Uuid, g: Graph)
    requires Consistent(t) && v in t.versions
    ensures RunAll(t, v, ReplaceScript(g)).Ran? <==> Storable(t, v, g)
    ensures Storable(t, v, g) ==> RunAll(t, v, ReplaceScript(g)) == Ran(Stored(t, v, g))
  {
    ClearExact(t, v);
    RunConcat(t, v, CLEAR_SCRIPT, WriteScript(g));
    WriteExact(Cleared(t, v), v, g);
    StorableAfterClear(t, v, g);
    StoredAfterClear(t, v, g);
  }

  lemma StoredAfterClear(t: Tables, v: Uuid, g: Graph)
    requires v in t.versions
    ensures Stored(Cleared(t, v), v, g) == Stored(t, v, g)
  {
  }

  lemma StorableAfterClear(t: Tables, v: Uuid, g: Graph)
    requires v in t.versions
    ensures Storable(Cleared(t, v), v, g) <==> Storable(t, v, g)
  {
    var c := Cleared(t, v);
    if Storable(c, v, g) {
      forall n, r | n in g.nodes && r in t.nodes && n.id == r.node.id ensures r.versionId == v {
        assert r.versionId != v ==> r in c.nodes;
      }
      forall e, r | e in g.edges && r in t.edges && e.id == r.edge.id ensures r.versionId == v {
        assert r.versionId != v ==> r in c.edges;
      }
    }
  }
}
