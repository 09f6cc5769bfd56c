/**
  What a transaction sees: the committed rows with its own pending rows of one version in
  place of the committed ones.
*/
module VersionOverlay {
  import opened Domain
  import opened VersionTables
  import opened VersionScripts

  /** The rows of t with those of version v replaced by c. */
  function Put(t: Tables, v: Uuid, c: Content): Tables {
    Tables(t.playbooks, t.versions[v := c.row],
           (set r | r in t.nodes && r.versionId != v) + (set n | n in c.nodes :: NodeRow(v, n)),
           (set r | r in t.edges && r.versionId != v) + (set e | e in c.edges :: EdgeRow(v, e)))
  }

  lemma PutRows(t: Tables, v: Uuid, c: Content, w: Uuid)
    ensures NodesOf(Put(t, v, c), w) == if w == v then c.nodes else NodesOf(t, w)
    ensures EdgesOf(Put(t, v, c), w) == if w == v then c.edges else EdgesOf(t, w)
  {
    var t' := Put(t, v, c);
    forall n ensures n in NodesOf(t', w) <==> n in (if w == v then c.nodes else NodesOf(t, w)) {
      assert n in c.nodes ==> NodeRow(v, n) in t'.nodes;
      assert n in NodesOf(t, w) && w != v ==> NodeRow(w, n) in t'.nodes;
    }
    forall e ensures e in EdgesOf(t', w) <==> e in (if w == v then c.edges else EdgesOf(t, w)) {
      assert e in c.edges ==> EdgeRow(v, e) in t'.edges;
      assert e in EdgesOf(t, w) && w != v ==> EdgeRow(w, e) in t'.edges;
    }
  }

  lemma PutSelf(t: Tables, v: Uuid)
    requires v in t.versions
    ensures Put(t, v, ContentOf(t, v)) == t
  {
    var t' := Put(t, v, ContentOf(t, v));
    forall r ensures r in t'.nodes <==> r in t.nodes {
      if r in t.nodes && r.versionId == v { assert r.node in NodesOf(t, v) && r == NodeRow(v, r.node); }
    }
    forall r ensures r in t'.edges <==> r in t.edges {
      if r in t.edges && r.versionId == v { assert r.edge in EdgesOf(t, v) && r == EdgeRow(v, r.edge); }
    }
    assert t'.versions == t.versions;
  }

  /** The effect of a statement on the rows of its version, constraints aside. */
  function LocalExec(c: Content, s: Stmt): Content {
    match s
    case ClearRoot => c.(row := c.row.(root := None))
    case DropEdges => c.(edges := {})
    case DropNodes => c.(nodes := {})
    case AddNode(n) => c.(nodes := c.nodes + {n})
    case AddEdge(e) => c.(edges := c.edges + {e})
    case PutRoot(r) => c.(row := c.row.(root := Some(r)))
    case MarkPublished(at) => c.(row := c.row.(status := Published, publishedAt := Some(at)))
  }

  /** A statement that succeeds over pending rows changes those and nothing else. */
  lemma ExecOverPending(t: Tables, v: Uuid, c: Content, s: Stmt)
    requires Exec(Put(t, v, c), v, s).Ran?
    ensures Exec(Put(t, v, c), v, s).tables == Put(t, v, LocalExec(c, s))
  {
    var o, p := Exec(Put(t, v, c), v, s).tables, Put(t, v, LocalExec(c, s));
    forall r ensures r in o.nodes <==> r in p.nodes {}
    forall r ensures r in o.edges <==> r in p.edges {}
    assert o.versions == p.versions;
  }

  function LocalRun(c: Content, ss: seq<Stmt>): Content
    decreases |ss|
  {
    if ss == [] then c else LocalRun(LocalExec(c, ss[0]), ss[1..])
  }

  lemma {:induction false} LocalRunNodes(c: Content, ns: seq<Node>, rest: seq<Stmt>)
    ensures LocalRun(c, NodeStmts(ns) + rest) == LocalRun(c.(nodes := c.nodes + NodesSet(ns)), rest)
    decreases |ns|
  {
    if ns == [] {
      assert NodeStmts(ns) + rest == rest && c.nodes + NodesSet(ns) == c.nodes;
    } else {
      assert (NodeStmts(ns) + rest)[1..] == NodeStmts(ns[1..]) + rest;
      LocalRunNodes(c.(nodes := c.nodes + {ns[0]}), ns[1..], rest);
      assert ns == [ns[0]] + ns[1..];
      assert c.nodes + NodesSet(ns) == c.nodes + {ns[0]} + NodesSet(ns[1..]);
    }
  }

  lemma {:induction false} LocalRunEdges(c: Content, es: seq<Edge>, rest: seq<Stmt>)
    ensures LocalRun(c, EdgeStmts(es) + rest) == LocalRun(c.(edges := c.edges + EdgesSet(es)), rest)
    decreases |es|
  {
    if es == [] {
      assert EdgeStmts(es) + rest == rest && c.edges + EdgesSet(es) == c.edges;
    } else {
      assert (EdgeStmts(es) + rest)[1..] == EdgeStmts(es[1..]) + rest;
      LocalRunEdges(c.(edges := c.edges + {es[0]}), es[1..], rest);
      assert es == [es[0]] + es[1..];
      assert c.edges + EdgesSet(es) == c.edges + {es[0]} + EdgesSet(es[1..]);
    }
  }

  /** A version's row with exactly the rows of g. */
  function Holding(row: Version, g: Graph): Content {
    Content(row.(root := g.root), NodesSet(g.nodes), EdgesSet(g.edges))
  }

  /** Where writeGraph and ReplaceGraph lead, whatever the version held. */
  lemma ScriptsLead(row: Version, g: Graph, nodes: set<Node>, edges: set<Edge>)
    ensures LocalRun(Content(row.(root := None), {}, {}), WriteScript(g)) == Holding(row, g)
    ensures LocalRun(Content(row, nodes, edges), ReplaceScript(g)) == Holding(row, g)
  {
    var empty := Content(row.(root := None), {}, {});
    LocalRunNodes(empty, g.nodes, EdgeStmts(g.edges) + RootStmts(g.root));
    var c1 := Content(row.(root := None), {} + NodesSet(g.nodes), {});
    LocalRunEdges(c1, g.edges, RootStmts(g.root));
    var c2 := Content(row.(root := None), {} + NodesSet(g.nodes), {} + EdgesSet(g.edges));
    if g.root.Some? { assert RootStmts(g.root)[1..] == []; }
    assert LocalRun(c2, RootStmts(g.root)) == Holding(row, g);
    var c := Content(row, nodes, edges);
    var ss := ReplaceScript(g);
    assert ss[0] == ClearRoot && ss[1..][0] == DropEdges && ss[1..][1..][0] == DropNodes && ss[1..][1..][1..] == WriteScript(g);
    var d1 := LocalExec(c, ClearRoot);
    var d2 := LocalExec(d1, DropEdges);
    assert LocalExec(d2, DropNodes) == empty;
    assert LocalRun(d2, ss[1..][1..]) == LocalRun(empty, WriteScript(g));
    assert LocalRun(d1, ss[1..]) == LocalRun(d2, ss[1..][1..]);
    assert LocalRun(c, ss) == LocalRun(d1, ss[1..]);
  }

  // ----- two transactions with pending rows

  /** No node or edge id is pending in both. */
  ghost predicate IdsApart(c: Content, d: Content) {
    && (forall n, m :: n in c.nodes && m in d.nodes ==> n.id != m.id)
    && (forall e, f :: e in c.edges && f in d.edges ==> e.id != f.id)
  }

  lemma MorePlaybooks(t: Tables, playbooks: map<Uuid, string>)
    requires Consistent(t) && t.playbooks.Keys <= playbooks.Keys
    ensures Consistent(t.(playbooks := playbooks))
  {
    var t' := t.(playbooks := playbooks);
    forall w ensures NodesOf(t', w) == NodesOf(t, w) && EdgesOf(t', w) == EdgesOf(t, w) {}
    forall r | r in t'.nodes ensures r.versionId in t'.versions && NodeCheck(r.node) { assert NodeCheck(r.node); }
    forall r | r in t'.edges ensures EdgeRowOk(t', r) { assert EdgeRowOk(t, r); }
    forall v | v in t'.versions ensures VersionRowOk(t', v) { assert VersionRowOk(t, v); }
  }

  /** Rows that each fit beside the committed ones, and have no id in common, fit together. */
  lemma TwoPuts(t: Tables, v: Uuid, c: Content, w: Uuid, d: Content)
    requires v != w && Consistent(Put(t, v, c)) && Consistent(Put(t, w, d))
    requires IdsApart(c, d) && !SameNumber(c.row, d.row)
    ensures Consistent(Put(Put(t, v, c), w, d))
  {
    TwoPutsNodes(t, v, c, w, d);
    TwoPutsEdges(t, v, c, w, d);
    TwoPutsVersions(t, v, c, w, d);
  }

  lemma TwoPutsNodes(t: Tables, v: Uuid, c: Content, w: Uuid, d: Content)
    requires v != w && Consistent(Put(t, v, c)) && Consistent(Put(t, w, d)) && IdsApart(c, d)
    ensures var b := Put(Put(t, v, c), w, d);
      NodeIdsUnique(b.nodes) && forall r :: r in b.nodes ==> r.versionId in b.versions && NodeCheck(r.node)
  {
    var p, q, b := Put(t, v, c), Put(t, w, d), Put(Put(t, v, c), w, d);
    forall r | r in b.nodes
      ensures r.versionId in b.versions && NodeCheck(r.node) && (r in p.nodes || r in q.nodes)
      ensures r.versionId == v ==> r.node in c.nodes
      ensures r.versionId == w ==> r.node in d.nodes
      ensures r.versionId != w ==> r in p.nodes
      ensures r.versionId != v ==> r in q.nodes
    {
      assert NodeCheck(r.node);
    }
    forall r, s | r in b.nodes && s in b.nodes && r.node.id == s.node.id ensures r == s {
      assert (r in p.nodes && s in p.nodes) || (r in q.nodes && s in q.nodes) ||
        (r.versionId == v && s.versionId == w) || (r.versionId == w && s.versionId == v);
    }
  }

  lemma TwoPutsEdges(t: Tables, v: Uuid, c: Content, w: Uuid, d: Content)
    requires v != w && Consistent(Put(t, v, c)) && Consistent(Put(t, w, d)) && IdsApart(c, d)
    ensures var b := Put(Put(t, v, c), w, d);
      EdgeIdsUnique(b.edges) && LabelsUnique(b.edges) && forall r :: r in b.edges ==> EdgeRowOk(b, r)
  {
    var p, q, b := Put(t, v, c), Put(t, w, d), Put(Put(t, v, c), w, d);
    forall r | r in b.edges
      ensures EdgeRowOk(b, r)
      ensures r.versionId == v ==> r.edge in c.edges && r.edge.from in IdsOf(c.nodes)
      ensures r.versionId == w ==> r.edge in d.edges && r.edge.from in IdsOf(d.nodes)
      ensures r.versionId != w ==> r in p.edges
      ensures r.versionId != v ==> r in q.edges
    {
      PutRows(p, w, d, r.versionId);
      PutRows(t, v, c, r.versionId);
      PutRows(t, w, d, r.versionId);
      if r.versionId == w { assert EdgeRowOk(q, r); } else { assert EdgeRowOk(p, r); }
    }
    forall r, s | r in b.edges && s in b.edges
      ensures r.edge.id == s.edge.id ==> r == s
      ensures r.edge.from == s.edge.from && r.edge.caption == s.edge.caption ==> r == s
    {
      assert (r in p.edges && s in p.edges) || (r in q.edges && s in q.edges) ||
        (r.versionId == v && s.versionId == w) || (r.versionId == w && s.versionId == v);
    }
  }

  lemma TwoPutsVersions(t: Tables, v: Uuid, c: Content, w: Uuid, d: Content)
    requires v != w && Consistent(Put(t, v, c)) && Consistent(Put(t, w, d)) && !SameNumber(c.row, d.row)
    ensures var b := Put(Put(t, v, c), w, d);
      NumbersUnique(b.versions) && forall x :: x in b.versions ==> VersionRowOk(b, x)
  {
    var p, q, b := Put(t, v, c), Put(t, w, d), Put(Put(t, v, c), w, d);
    forall x | x in b.versions ensures VersionRowOk(b, x) {
      PutRows(p, w, d, x);
      PutRows(t, v, c, x);
      PutRows(t, w, d, x);
      if x == w { assert VersionRowOk(q, x); } else { assert VersionRowOk(p, x); }
    }
    forall x, y | x in b.versions && y in b.versions && SameNumber(b.versions[x], b.versions[y]) ensures x == y {
      if x != w && y != w {
        assert b.versions[x] == p.versions[x] && b.versions[y] == p.versions[y];
      } else if x != v && y != v {
        assert b.versions[x] == q.versions[x] && b.versions[y] == q.versions[y];
      }
    }
  }
}
