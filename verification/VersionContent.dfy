/**
  The stored content of one version: what may be listed, published, numbered and cloned.
*/
module VersionContent {
  import opened Domain
  import opened Digraph
  import opened Distinct
  import opened PublishRules
  import opened StableSort
  import opened Cloning
  import opened VersionTables
  import opened VersionScripts

  datatype Definition = Definition(version: Version, graph: Graph)

  /**
    g lists the stored content: the rows once each, in some order.
  */
  ghost predicate Lists(g: Graph, c: Content) {
    && g.root == c.row.root
    && NoDuplicates(g.nodes) && NodesSet(g.nodes) == c.nodes
    && NoDuplicates(g.edges) && EdgesSet(g.edges) == c.edges
  }

  // ----- the order of a load

  lemma StringOrder()
    ensures TotalPreorder(StringLe)
  {
    forall x, y ensures StringLe(x, y) || StringLe(y, x) { StringLeTotal(x, y); }
    forall x, y, z | StringLe(x, y) && StringLe(y, z) ensures StringLe(x, z) { StringLeTransitive(x, y, z); }
  }

  /** How the database orders texts. */
  type Collation = le: (string, string) -> bool | TotalPreorder(le) ghost witness (StringOrder(); StringLe)

  /** ORDER BY title, id. */
  predicate NodeBefore(le: Collation, a: Node, b: Node) {
    le(a.title, b.title) && (le(b.title, a.title) ==> a.id <= b.id)
  }

  /** ORDER BY sort_order, label, id. */
  predicate EdgeBefore(le: Collation, a: Edge, b: Edge) {
    a.sortOrder < b.sortOrder ||
      (a.sortOrder == b.sortOrder && le(a.caption, b.caption) && (le(b.caption, a.caption) ==> a.id <= b.id))
  }

  function NodeOrderBy(le: Collation): (Node, Node) -> bool {
    (a, b) => NodeBefore(le, a, b)
  }

  function EdgeOrderBy(le: Collation): (Edge, Edge) -> bool {
    (a, b) => EdgeBefore(le, a, b)
  }

  /** g is the stored content as the two queries return it. */
  ghost predicate Loads(le: Collation, g: Graph, c: Content) {
    Lists(g, c) && Sorted(NodeOrderBy(le), g.nodes) && Sorted(EdgeOrderBy(le), g.edges)
  }

  /** Titles never fall along the nodes, nor ids among nodes of one title; sort orders, labels and ids likewise along the edges. */
  lemma LoadsInOrder(le: Collation, g: Graph, c: Content)
    requires Loads(le, g, c)
    ensures forall i, j :: 0 <= i < j < |g.nodes| ==>
      le(g.nodes[i].title, g.nodes[j].title) && (le(g.nodes[j].title, g.nodes[i].title) ==> g.nodes[i].id <= g.nodes[j].id)
    ensures forall i, j :: 0 <= i < j < |g.edges| ==> g.edges[i].sortOrder <= g.edges[j].sortOrder
    ensures forall i, j :: 0 <= i < j < |g.edges| && g.edges[i].sortOrder == g.edges[j].sortOrder ==>
      le(g.edges[i].caption, g.edges[j].caption) &&
      (le(g.edges[j].caption, g.edges[i].caption) ==> g.edges[i].id <= g.edges[j].id)
  {
    forall i, j | 0 <= i < j < |g.nodes| ensures NodeBefore(le, g.nodes[i], g.nodes[j]) {
      assert NodeOrderBy(le)(g.nodes[i], g.nodes[j]);
    }
    forall i, j | 0 <= i < j < |g.edges| ensures EdgeBefore(le, g.edges[i], g.edges[j]) {
      assert EdgeOrderBy(le)(g.edges[i], g.edges[j]);
    }
  }

  lemma OrdersTotal(le: Collation)
    ensures TotalPreorder(NodeOrderBy(le)) && TotalPreorder(EdgeOrderBy(le))
  {
  }

  lemma SortLists<T(!new)>(le: (T, T) -> bool, rows: seq<T>)
    requires TotalPreorder(le) && NoDuplicates(rows)
    ensures NoDuplicates(Sort(le, rows)) && Sorted(le, Sort(le, rows)) && forall x :: x in Sort(le, rows) <==> x in rows
  {
    SortSorts(le, rows);
    SortPermutes(le, rows);
    DistinctPermutes(rows, Sort(le, rows));
  }

  /** With unique ids no two rows tie, so what is loaded is determined by what is stored. */
  lemma LoadsOnce(le: Collation, g: Graph, h: Graph, c: Content)
    requires Loads(le, g, c) && Loads(le, h, c) && UniqueNodeIds(g.nodes) && UniqueEdgeIds(g.edges)
    ensures g == h
  {
    forall n ensures n in h.nodes <==> n in g.nodes { assert n in NodesSet(h.nodes) <==> n in NodesSet(g.nodes); }
    forall e ensures e in h.edges <==> e in g.edges { assert e in EdgesSet(h.edges) <==> e in EdgesSet(g.edges); }
    SameElements(h.nodes, g.nodes);
    SameElements(h.edges, g.edges);
    SortedUnique(NodeOrderBy(le), g.nodes, h.nodes);
    SortedUnique(EdgeOrderBy(le), g.edges, h.edges);
  }

  /** Reloading what was stored gives the stored graph back, rows permuted. */
  lemma ReloadsSame(t: Tables, v: Uuid, g: Graph, h: Graph)
    requires v in t.versions && UniqueNodeIds(g.nodes) && UniqueEdgeIds(g.edges)
    requires Lists(h, ContentOf(Stored(t, v, g), v))
    ensures SameGraph(h, g)
  {
    StoredContent(t, v, g);
    forall n ensures n in h.nodes <==> n in g.nodes { assert n in NodesSet(h.nodes) <==> n in NodesSet(g.nodes); }
    forall e ensures e in h.edges <==> e in g.edges { assert e in EdgesSet(h.edges) <==> e in EdgesSet(g.edges); }
    SameElements(h.nodes, g.nodes);
    SameElements(h.edges, g.edges);
  }

  /** Whether a graph may be published does not depend on the order in which its rows are listed. */
  lemma ListingsAgree(g: Graph, h: Graph, c: Content)
    requires Lists(g, c) && Lists(h, c)
    ensures NodeIds(g.nodes) == NodeIds(h.nodes) && Links(g) == Links(h)
    ensures Publishable(g) ==> Publishable(h)
  {
    forall n ensures n in g.nodes <==> n in h.nodes { assert n in NodesSet(g.nodes) <==> n in NodesSet(h.nodes); }
    forall e ensures e in g.edges <==> e in h.edges { assert e in EdgesSet(g.edges) <==> e in EdgesSet(h.edges); }
    assert NodeIds(g.nodes) == NodeIds(h.nodes);
    assert Links(g) == Links(h);
    if Publishable(g) {
      forall n | n in h.nodes ensures KindRules(h, n) && Reaches(Links(h), h.root.value, n.id) {
        assert n in g.nodes && KindRules(g, n);
        assert HasChoice(g, n.id) <==> HasChoice(h, n.id);
      }
    }
  }

  /** The stored content is a graph that may be published. */
  ghost predicate PublishableContent(c: Content) {
    exists g :: Lists(g, c) && Publishable(g)
  }

  lemma NodeRowsApart(t: Tables, r: NodeRow, q: NodeRow)
    requires NodeIdsUnique(t.nodes) && r in t.nodes && q in t.nodes && r != q
    ensures r.node.id != q.node.id
  {
  }

  lemma EdgeRowsApart(t: Tables, r: EdgeRow, q: EdgeRow)
    requires EdgeIdsUnique(t.edges) && LabelsUnique(t.edges) && r in t.edges && q in t.edges && r != q
    ensures r.edge.id != q.edge.id && !(r.edge.from == q.edge.from && r.edge.caption == q.edge.caption)
  {
  }

  /** What the constraints guarantee of any listing of one version. */
  lemma ListingCoherent(t: Tables, v: Uuid, g: Graph)
    requires Consistent(t) && v in t.versions && Lists(g, ContentOf(t, v))
    ensures UniqueNodeIds(g.nodes) && UniqueEdgeIds(g.edges) && UniqueLabels(g.edges)
    ensures KindsKnown(g.nodes) && ReferenceClosed(g)
    ensures forall n :: n in g.nodes ==> NodeCheck(n) && NodeRow(v, n) in t.nodes
    ensures forall e :: e in g.edges ==> EdgeRow(v, e) in t.edges
  {
    assert VersionRowOk(t, v);
    forall n | n in g.nodes ensures NodeRow(v, n) in t.nodes && NodeCheck(n) {
      assert n in NodesSet(g.nodes) && n in NodesOf(t, v);
      assert NodeCheck(NodeRow(v, n).node);
    }
    forall e | e in g.edges ensures EdgeRow(v, e) in t.edges { assert e in EdgesSet(g.edges) && e in EdgesOf(t, v); }
    forall i, j | 0 <= i < j < |g.nodes| ensures g.nodes[i].id != g.nodes[j].id {
      assert g.nodes[i] != g.nodes[j];
      NodeRowsApart(t, NodeRow(v, g.nodes[i]), NodeRow(v, g.nodes[j]));
    }
    assert NodeIds(g.nodes) == IdsOf(NodesOf(t, v)) by {
      forall n ensures n in g.nodes <==> n in NodesOf(t, v) { assert n in NodesSet(g.nodes) <==> n in NodesOf(t, v); }
    }
    forall e | e in g.edges ensures Resolves(NodeIds(g.nodes), e) { assert EdgeRowOk(t, EdgeRow(v, e)); }
    forall i, j | 0 <= i < j < |g.edges|
      ensures g.edges[i].id != g.edges[j].id
      ensures !(g.edges[i].from == g.edges[j].from && g.edges[i].caption == g.edges[j].caption)
    {
      assert g.edges[i] != g.edges[j];
      EdgeRowsApart(t, EdgeRow(v, g.edges[i]), EdgeRow(v, g.edges[j]));
    }
  }

  // ----- version numbers

  function NumbersOf(t: Tables, pb: Uuid): set<int> {
    set v | v in t.versions && t.versions[v].playbookId == pb :: t.versions[v].number
  }

  /** The versions of a playbook are numbered exactly 1..n. */
  ghost predicate Contiguous(t: Tables, pb: Uuid, n: nat) {
    forall k :: k in NumbersOf(t, pb) <==> 1 <= k <= n
  }

  /** n is COALESCE(MAX(version), 0) + 1. */
  predicate IsNextNumber(numbers: set<int>, n: int) {
    if numbers == {} then n == 1 else n - 1 in numbers && forall k :: k in numbers ==> k < n
  }

  lemma NextIsContiguous(t: Tables, pb: Uuid, n: nat, next: int)
    requires Contiguous(t, pb, n) && IsNextNumber(NumbersOf(t, pb), next)
    ensures next == n + 1
  {
    if n > 0 { assert n in NumbersOf(t, pb); } else { assert NumbersOf(t, pb) == {}; }
  }

  predicate IsDraft(t: Tables, v: Uuid) {
    v in t.versions && t.versions[v].status == Draft
  }

  predicate BelongsTo(t: Tables, v: Uuid, pb: Uuid) {
    v in t.versions && t.versions[v].playbookId == pb
  }

  function NewVersion(id: Uuid, pb: Uuid, number: int): Version {
    Version(id, pb, number, Draft, None, None)
  }

  /** INSERT INTO playbook_versions. */
  function WithVersion(t: Tables, row: Version): Tables {
    t.(versions := t.versions[row.id := row])
  }

  /** A new version row under an unused id and number breaks no constraint and disturbs nothing stored. */
  lemma WithVersionKeeps(t: Tables, row: Version)
    requires Consistent(t) && row.id !in t.versions && row == NewVersion(row.id, row.playbookId, row.number)
    requires row.playbookId in t.playbooks && row.number !in NumbersOf(t, row.playbookId)
    ensures Consistent(WithVersion(t, row)) && HoldsNoGraph(WithVersion(t, row), row.id)
    ensures NumbersOf(WithVersion(t, row), row.playbookId) == NumbersOf(t, row.playbookId) + {row.number}
    ensures forall pb :: pb != row.playbookId ==> NumbersOf(WithVersion(t, row), pb) == NumbersOf(t, pb)
    ensures forall v :: v in t.versions ==> ContentOf(WithVersion(t, row), v) == ContentOf(t, v)
  {
    var t' := WithVersion(t, row);
    forall w ensures NodesOf(t', w) == NodesOf(t, w) && EdgesOf(t', w) == EdgesOf(t, w) {}
    forall r | r in t.nodes ensures r.versionId in t.versions { assert NodeCheck(r.node); }
    forall r | r in t'.edges ensures EdgeRowOk(t', r) { assert EdgeRowOk(t, r); }
    forall v | v in t'.versions ensures VersionRowOk(t', v) { assert v != row.id ==> VersionRowOk(t, v); }
    forall v, w | v in t'.versions && w in t'.versions && SameNumber(t'.versions[v], t'.versions[w]) ensures v == w {
      assert v != row.id ==> t.versions[v].number in NumbersOf(t, t.versions[v].playbookId);
      assert w != row.id ==> t.versions[w].number in NumbersOf(t, t.versions[w].playbookId);
    }
    NumbersWithVersion(t, row);
  }

  lemma NumbersWithVersion(t: Tables, row: Version)
    requires row.id !in t.versions
    ensures NumbersOf(WithVersion(t, row), row.playbookId) == NumbersOf(t, row.playbookId) + {row.number}
    ensures forall pb :: pb != row.playbookId ==> NumbersOf(WithVersion(t, row), pb) == NumbersOf(t, pb)
  {
    var t' := WithVersion(t, row);
    assert t'.versions[row.id] == row;
    forall pb, k
      ensures k in NumbersOf(t', pb) <==> k in NumbersOf(t, pb) || (pb == row.playbookId && k == row.number)
    {
      if k in NumbersOf(t, pb) {
        var v :| v in t.versions && t.versions[v].playbookId == pb && t.versions[v].number == k;
        assert t'.versions[v] == t.versions[v];
      }
    }
  }

  /** Writing a graph into a version leaves all version numbers. */
  lemma SameNumbers(t: Tables, t': Tables, v: Uuid, pb: Uuid)
    requires v in t.versions && OnlyVersion(t, t', v) && t'.versions[v].(root := None) == t.versions[v].(root := None)
    ensures NumbersOf(t', pb) == NumbersOf(t, pb)
  {
    assert forall w :: w in t.versions ==>
      t'.versions[w].number == t.versions[w].number && t'.versions[w].playbookId == t.versions[w].playbookId;
    forall k ensures k in NumbersOf(t', pb) <==> k in NumbersOf(t, pb) {
      if k in NumbersOf(t, pb) {
        var w :| w in t.versions && t.versions[w].playbookId == pb && t.versions[w].number == k;
        assert w in t'.versions && t'.versions[w].number == k;
      }
    }
  }

  lemma NewPlaybookKeeps(t: Tables, pb: Uuid, alertType: string)
    requires Consistent(t) && pb !in t.playbooks
    ensures Consistent(t.(playbooks := t.playbooks[pb := alertType]))
    ensures NumbersOf(t, pb) == {}
    ensures forall v :: v in t.versions ==> ContentOf(t.(playbooks := t.playbooks[pb := alertType]), v) == ContentOf(t, v)
  {
    var t' := t.(playbooks := t.playbooks[pb := alertType]);
    forall w ensures NodesOf(t', w) == NodesOf(t, w) && EdgesOf(t', w) == EdgesOf(t, w) {}
    forall r | r in t'.nodes ensures r.versionId in t'.versions && NodeCheck(r.node) { assert NodeCheck(r.node); }
    forall r | r in t'.edges ensures EdgeRowOk(t', r) { assert EdgeRowOk(t, r); }
    forall v | v in t'.versions ensures VersionRowOk(t', v) { assert VersionRowOk(t, v); }
    forall v | v in t.versions ensures t.versions[v].playbookId != pb { assert VersionRowOk(t, v); }
  }

  // ----- cloning into new rows

  lemma {:induction false} DistinctCard<T>(s: seq<T>)
    requires NoDuplicates(s)
    ensures |set x | x in s| == |s|
  {
    if s != [] {
      DistinctCard(s[1..]);
      assert (set x | x in s) == {s[0]} + (set x | x in s[1..]);
    }
  }

  lemma ListingLengths(g: Graph, c: Content)
    requires Lists(g, c)
    ensures |g.nodes| == |c.nodes| && |g.edges| == |c.edges|
  {
    DistinctCard(g.nodes);
    DistinctCard(g.edges);
  }

  /** No row uses any of these ids. */
  ghost predicate Unused(t: Tables, ids: seq<Uuid>) {
    && (forall x, r :: x in ids && r in t.nodes ==> x != r.node.id)
    && (forall x, r :: x in ids && r in t.edges ==> x != r.edge.id)
  }

  /** A clone of a stored graph under unused ids is a copy of it, and can be stored. */
  lemma CloneStorable(t: Tables, v: Uuid, src: Graph, minted: seq<Uuid>, copy: Graph, names: map<Uuid, Uuid>, newId: Uuid)
    requires Consistent(t) && v in t.versions && Lists(src, ContentOf(t, v))
    requires NoDuplicates(minted) && Unused(t, minted) && Cloned(src, minted, copy, names)
    ensures IsCopy(src, copy, names) && NodeIds(copy.nodes) !! NodeIds(src.nodes) && EdgeIds(copy.edges) !! EdgeIds(src.edges)
    ensures Storable(t, newId, copy)
  {
    ListingCoherent(t, v, src);
    forall x | x in minted ensures x !in NodeIds(src.nodes) && x !in EdgeIds(src.edges) {
      assert forall n :: n in src.nodes ==> NodeRow(v, n) in t.nodes;
      assert forall e :: e in src.edges ==> EdgeRow(v, e) in t.edges;
    }
    CloneIsCopy(src, minted, copy, names);
    CopyNodesStorable(src, minted, copy, names);
    CopyLabelsUnique(src, copy, names);
    EdgeIdsMinted(src, minted, copy, names);
    assert forall e :: e in copy.edges ==> e.id in EdgeIds(copy.edges);
  }

  lemma CopyNodesStorable(src: Graph, minted: seq<Uuid>, copy: Graph, names: map<Uuid, Uuid>)
    requires Cloned(src, minted, copy, names) && forall n :: n in src.nodes ==> NodeCheck(n)
    ensures forall n :: n in copy.nodes ==> NodeCheck(n) && n.id in minted
  {
    forall n | n in copy.nodes ensures NodeCheck(n) && n.id in minted {
      var i :| 0 <= i < |copy.nodes| && copy.nodes[i] == n;
      assert src.nodes[i] in src.nodes && NodeCheck(src.nodes[i]);
    }
  }

  lemma CopyLabelsUnique(src: Graph, copy: Graph, names: map<Uuid, Uuid>)
    requires IsCopy(src, copy, names) && UniqueLabels(src.edges)
    ensures UniqueLabels(copy.edges)
  {
    forall i, j | 0 <= i < j < |copy.edges|
      ensures !(copy.edges[i].from == copy.edges[j].from && copy.edges[i].caption == copy.edges[j].caption)
    {
      CopyKeepsLabels(src.edges[i], copy.edges[i], src.edges[j], copy.edges[j], names);
    }
  }

  lemma CopyKeepsLabels(e: Edge, e': Edge, f: Edge, f': Edge, names: map<Uuid, Uuid>)
    requires EdgeCopied(e, e', names) && EdgeCopied(f, f', names) && Injective(names)
    requires !(e.from == f.from && e.caption == f.caption)
    ensures !(e'.from == f'.from && e'.caption == f'.caption)
  {
  }

  /** Right after g was stored, g itself lists the content, and no other version has changed. */
  lemma StoredLists(t: Tables, v: Uuid, g: Graph)
    requires v in t.versions && UniqueNodeIds(g.nodes) && UniqueEdgeIds(g.edges)
    ensures Lists(g, ContentOf(Stored(t, v, g), v))
    ensures forall w :: w in t.versions && w != v ==> ContentOf(Stored(t, v, g), w) == ContentOf(t, w)
  {
    StoredContent(t, v, g);
  }
}
