/**
  cloneGraph (internal/repository/postgres/playbook.go): a structural copy under fresh
  ids. The copy breaks the same publish rules at the renamed nodes, and plays the same:
  any sequence of labels leads to the copy of where it leads in the source.
*/
module Cloning {
  import opened Domain
  import opened Digraph
  import opened PublishRules
  import opened Engine

  /** Reading an absent key of idMap yields the nil UUID. */
  function Name(names: map<Uuid, Uuid>, u: Uuid): Uuid {
    if u in names then names[u] else NIL
  }

  function RenameEdge(e: Edge, id: Uuid, names: map<Uuid, Uuid>): Edge {
    e.(id := id, from := Name(names, e.from), to := Name(names, e.to))
  }

  /** No later node has the id of node i. */
  predicate LastOfId(nodes: seq<Node>, i: int)
    requires 0 <= i < |nodes|
  {
    forall j :: i < j < |nodes| ==> nodes[j].id != nodes[i].id
  }

  /** out is src with node i called minted[i], edge i called minted[|nodes| + i], and references following names. */
  ghost predicate Cloned(src: Graph, minted: seq<Uuid>, out: Graph, names: map<Uuid, Uuid>) {
    && |minted| == |src.nodes| + |src.edges|
    && names.Keys == NodeIds(src.nodes)
    && (forall i {:trigger LastOfId(src.nodes, i)} :: 0 <= i < |src.nodes| && LastOfId(src.nodes, i) ==> Name(names, src.nodes[i].id) == minted[i])
    && |out.nodes| == |src.nodes| && (forall i :: 0 <= i < |src.nodes| ==> out.nodes[i] == src.nodes[i].(id := minted[i]))
    && |out.edges| == |src.edges|
    && (forall i :: 0 <= i < |src.edges| ==> out.edges[i] == RenameEdge(src.edges[i], minted[|src.nodes| + i], names))
    && out.root == (if src.root.Some? && src.root.value in names then Some(names[src.root.value]) else None)
  }

  /** The idMap after the first i nodes. */
  ghost predicate NamesTo(nodes: seq<Node>, minted: seq<Uuid>, i: nat, idMap: map<Uuid, Uuid>) {
    && i <= |nodes| && i <= |minted| && idMap.Keys == NodeIds(nodes[..i])
    && forall j {:trigger LastOfId(nodes[..i], j)} :: 0 <= j < i && LastOfId(nodes[..i], j) ==> Name(idMap, nodes[j].id) == minted[j]
  }

  lemma NamesGrow(nodes: seq<Node>, minted: seq<Uuid>, i: nat, idMap: map<Uuid, Uuid>)
    requires i < |nodes| && i < |minted| && NamesTo(nodes, minted, i, idMap)
    ensures NamesTo(nodes, minted, i + 1, idMap[nodes[i].id := minted[i]])
  {
    var next := idMap[nodes[i].id := minted[i]];
    assert nodes[..i + 1] == nodes[..i] + [nodes[i]];
    forall j | 0 <= j < i + 1 && LastOfId(nodes[..i + 1], j) ensures Name(next, nodes[j].id) == minted[j] {
      if j < i { StillLast(nodes, i, j); }
    }
  }

  lemma StillLast(nodes: seq<Node>, i: nat, j: nat)
    requires j < i < |nodes| && LastOfId(nodes[..i + 1], j)
    ensures LastOfId(nodes[..i], j) && nodes[j].id != nodes[i].id
  {
    forall k | j < k < i ensures nodes[..i][k].id != nodes[..i][j].id { assert nodes[..i + 1][k].id != nodes[..i + 1][j].id; }
    assert nodes[..i + 1][i].id != nodes[..i + 1][j].id;
  }

  /** The first loop: new ids for the nodes. */
  method CloneNodes(nodes: seq<Node>, minted: seq<Uuid>) returns (copies: seq<Node>, idMap: map<Uuid, Uuid>)
    requires |nodes| <= |minted|
    ensures |copies| == |nodes| && forall i :: 0 <= i < |nodes| ==> copies[i] == nodes[i].(id := minted[i])
    ensures idMap.Keys == NodeIds(nodes)
    ensures forall i {:trigger LastOfId(nodes, i)} :: 0 <= i < |nodes| && LastOfId(nodes, i) ==> Name(idMap, nodes[i].id) == minted[i]
  {
    copies, idMap := [], map[];
    for i := 0 to |nodes|
      invariant |copies| == i && NamesTo(nodes, minted, i, idMap)
      invariant forall j :: 0 <= j < i ==> copies[j] == nodes[j].(id := minted[j])
    {
      NamesGrow(nodes, minted, i, idMap);
      idMap := idMap[nodes[i].id := minted[i]];
      copies := copies + [nodes[i].(id := minted[i])];
    }
    assert nodes[..|nodes|] == nodes;
  }

  /** The second loop: new ids for the edges, and their ends renamed. */
  method CloneEdges(edges: seq<Edge>, minted: seq<Uuid>, idMap: map<Uuid, Uuid>) returns (copies: seq<Edge>)
    requires |edges| <= |minted|
    ensures |copies| == |edges| && forall i :: 0 <= i < |edges| ==> copies[i] == RenameEdge(edges[i], minted[i], idMap)
  {
    copies := [];
    for i := 0 to |edges|
      invariant |copies| == i && forall j :: 0 <= j < i ==> copies[j] == RenameEdge(edges[j], minted[j], idMap)
    {
      var e := edges[i];
      e := e.(id := minted[i]);
      e := e.(from := Name(idMap, e.from));
      e := e.(to := Name(idMap, e.to));
      copies := copies + [e];
    }
  }

  /** cloneGraph, drawing the new ids from minted: first one per node, then one per edge. names is its idMap. */
  method CloneGraph(src: Graph, minted: seq<Uuid>) returns (out: Graph, names: map<Uuid, Uuid>)
    requires |minted| == |src.nodes| + |src.edges|
    ensures Cloned(src, minted, out, names)
  {
    var nodes, edges;
    nodes, names := CloneNodes(src.nodes, minted);
    edges := CloneEdges(src.edges, minted[|src.nodes|..], names);
    out := Graph(None, nodes, edges);
    if src.root.Some? && src.root.value in names {
      out := out.(root := Some(names[src.root.value]));
    }
  }

  /** The copy of an edge keeps everything but its id and its ends; an end that is no node of the graph becomes nil. */
  lemma ClonedEdge(src: Graph, minted: seq<Uuid>, out: Graph, names: map<Uuid, Uuid>, i: nat)
    requires Cloned(src, minted, out, names) && i < |src.edges|
    ensures var e, d := src.edges[i], out.edges[i];
      && d.id == minted[|src.nodes| + i]
      && d.caption == e.caption && d.description == e.description && d.sortOrder == e.sortOrder
      && (forall k :: 0 <= k < |src.nodes| && LastOfId(src.nodes, k) && src.nodes[k].id == e.from ==> d.from == minted[k])
      && (forall k :: 0 <= k < |src.nodes| && LastOfId(src.nodes, k) && src.nodes[k].id == e.to ==> d.to == minted[k])
      && (e.from !in NodeIds(src.nodes) ==> d.from == NIL) && (e.to !in NodeIds(src.nodes) ==> d.to == NIL)
  {
  }

  // ----- copies

  /** Every reference in g resolves, as the foreign keys guarantee of a stored graph. */
  ghost predicate ReferenceClosed(g: Graph) {
    (g.root.Some? ==> g.root.value in NodeIds(g.nodes)) && forall e :: e in g.edges ==> Resolves(NodeIds(g.nodes), e)
  }

  ghost predicate Injective(names: map<Uuid, Uuid>) {
    forall u, v :: u in names && v in names && names[u] == names[v] ==> u == v
  }

  /** dst is src with node u called names[u]; edge ids are unrelated. */
  ghost predicate IsCopy(src: Graph, dst: Graph, names: map<Uuid, Uuid>) {
    && names.Keys == NodeIds(src.nodes) && names.Values == NodeIds(dst.nodes) && Injective(names)
    && ReferenceClosed(src) && ReferenceClosed(dst)
    && |dst.nodes| == |src.nodes| && |dst.edges| == |src.edges|
    && (forall i {:trigger dst.nodes[i]} {:trigger src.nodes[i]} :: 0 <= i < |src.nodes| ==>
          src.nodes[i].id in names && dst.nodes[i] == src.nodes[i].(id := names[src.nodes[i].id]))
    && (forall i {:trigger dst.edges[i]} {:trigger src.edges[i]} :: 0 <= i < |src.edges| ==> EdgeCopied(src.edges[i], dst.edges[i], names))
    && (dst.root == if src.root.Some? then Some(Name(names, src.root.value)) else None)
  }

  ghost predicate EdgeCopied(e: Edge, d: Edge, names: map<Uuid, Uuid>) {
    && e.from in names && d.from == names[e.from]
    && e.to in names && d.to == names[e.to]
    && d.caption == e.caption && d.description == e.description && d.sortOrder == e.sortOrder
  }

  /** With unique ids, node i is called minted[i]. */
  lemma NamesAreMinted(src: Graph, minted: seq<Uuid>, out: Graph, names: map<Uuid, Uuid>)
    requires UniqueNodeIds(src.nodes) && Cloned(src, minted, out, names)
    ensures forall i :: 0 <= i < |src.nodes| ==> Name(names, src.nodes[i].id) == minted[i]
  {
    forall i | 0 <= i < |src.nodes| ensures Name(names, src.nodes[i].id) == minted[i] { assert LastOfId(src.nodes, i); }
  }

  /** From distinct unused ids, cloneGraph of a reference-closed graph with unique ids is a copy that shares no id with it. */
  lemma CloneIsCopy(src: Graph, minted: seq<Uuid>, out: Graph, names: map<Uuid, Uuid>)
    requires UniqueNodeIds(src.nodes) && ReferenceClosed(src) && Cloned(src, minted, out, names) && NoDuplicates(minted)
    requires forall x :: x in minted ==> x !in NodeIds(src.nodes) && x !in EdgeIds(src.edges)
    ensures IsCopy(src, out, names)
    ensures UniqueNodeIds(out.nodes) && UniqueEdgeIds(out.edges)
    ensures NodeIds(out.nodes) !! NodeIds(src.nodes) && EdgeIds(out.edges) !! EdgeIds(src.edges)
  {
    NamesAreMinted(src, minted, out, names);
    NamesInjective(src, minted, out, names);
    NamesOnto(src, minted, out, names);
    EdgesCopied(src, minted, out, names);
    EdgeIdsMinted(src, minted, out, names);
  }

  lemma NamesInjective(src: Graph, minted: seq<Uuid>, out: Graph, names: map<Uuid, Uuid>)
    requires UniqueNodeIds(src.nodes) && Cloned(src, minted, out, names) && NoDuplicates(minted)
    ensures Injective(names) && UniqueNodeIds(out.nodes)
    ensures forall i :: 0 <= i < |src.nodes| ==> src.nodes[i].id in names
  {
    NamesAreMinted(src, minted, out, names);
    forall i | 0 <= i < |src.nodes| ensures src.nodes[i].id in names { assert src.nodes[i] in src.nodes; }
    forall u, v | u in names && v in names && names[u] == names[v] ensures u == v {
      var i, j := IndexOf(src.nodes, u), IndexOf(src.nodes, v);
      assert minted[i] == minted[j];
    }
    forall i, j | 0 <= i < j < |out.nodes| ensures out.nodes[i].id != out.nodes[j].id { assert minted[i] != minted[j]; }
  }

  lemma NamesOnto(src: Graph, minted: seq<Uuid>, out: Graph, names: map<Uuid, Uuid>)
    requires UniqueNodeIds(src.nodes) && Cloned(src, minted, out, names)
    ensures names.Values == NodeIds(out.nodes)
    ensures forall u :: u in NodeIds(out.nodes) ==> u in minted
  {
    NamesAreMinted(src, minted, out, names);
    forall x ensures x in names.Values <==> x in NodeIds(out.nodes) {
      if x in names.Values {
        var u :| u in names && names[u] == x;
        var i := IndexOf(src.nodes, u);
        assert out.nodes[i] in out.nodes;
      }
      if x in NodeIds(out.nodes) {
        var i := IndexOf(out.nodes, x);
        assert src.nodes[i] in src.nodes && src.nodes[i].id in names.Keys;
      }
    }
    forall u | u in NodeIds(out.nodes) ensures u in minted {
      var i := IndexOf(out.nodes, u);
      assert u == minted[i];
    }
  }

  lemma EdgesCopied(src: Graph, minted: seq<Uuid>, out: Graph, names: map<Uuid, Uuid>)
    requires ReferenceClosed(src) && Cloned(src, minted, out, names) && names.Values == NodeIds(out.nodes)
    ensures forall i :: 0 <= i < |src.edges| ==> EdgeCopied(src.edges[i], out.edges[i], names)
    ensures ReferenceClosed(out)
  {
    forall i | 0 <= i < |src.edges|
      ensures EdgeCopied(src.edges[i], out.edges[i], names) && Resolves(NodeIds(out.nodes), out.edges[i])
    {
      assert src.edges[i] in src.edges && Resolves(NodeIds(src.nodes), src.edges[i]);
      assert names[src.edges[i].from] in names.Values && names[src.edges[i].to] in names.Values;
    }
    if src.root.Some? { assert names[src.root.value] in names.Values; }
  }

  lemma EdgeIdsMinted(src: Graph, minted: seq<Uuid>, out: Graph, names: map<Uuid, Uuid>)
    requires Cloned(src, minted, out, names) && NoDuplicates(minted)
    ensures UniqueEdgeIds(out.edges)
    ensures forall u :: u in EdgeIds(out.edges) ==> u in minted
  {
    forall i, j | 0 <= i < j < |out.edges| ensures out.edges[i].id != out.edges[j].id {
      assert minted[|src.nodes| + i] != minted[|src.nodes| + j];
    }
    forall u | u in EdgeIds(out.edges) ensures u in minted {
      var e :| e in out.edges && e.id == u;
      var i :| 0 <= i < |out.edges| && out.edges[i] == e;
      assert u == minted[|src.nodes| + i];
    }
  }

  ghost function IndexOf(nodes: seq<Node>, u: Uuid): (i: nat)
    requires u in NodeIds(nodes)
    ensures i < |nodes| && nodes[i].id == u
  {
    var n :| n in nodes && n.id == u;
    var i :| 0 <= i < |nodes| && nodes[i] == n;
    i
  }

  // ----- a copy of a copy is the source again

  ghost function Inverse(names: map<Uuid, Uuid>): map<Uuid, Uuid> {
    map x | x in names.Values :: var u :| u in names && names[u] == x; u
  }

  lemma InverseInverts(names: map<Uuid, Uuid>)
    requires Injective(names)
    ensures Inverse(names).Keys == names.Values && Inverse(names).Values == names.Keys && Injective(Inverse(names))
    ensures forall u :: u in names ==> names[u] in Inverse(names) && Inverse(names)[names[u]] == u
  {
    var inv := Inverse(names);
    forall u | u in names ensures names[u] in inv && inv[names[u]] == u { assert names[u] in names.Values; }
    forall u ensures u in inv.Values <==> u in names.Keys {
      if u in names { assert inv[names[u]] == u && names[u] in inv; }
    }
  }

  lemma CopySymmetric(src: Graph, dst: Graph, names: map<Uuid, Uuid>)
    requires IsCopy(src, dst, names)
    ensures IsCopy(dst, src, Inverse(names))
  {
    InverseInverts(names);
    var inv := Inverse(names);
    forall i | 0 <= i < |src.edges| ensures EdgeCopied(dst.edges[i], src.edges[i], inv) {
      assert EdgeCopied(src.edges[i], dst.edges[i], names);
    }
  }

  // ----- what a copy keeps, in one direction; CopySymmetric gives the other

  lemma CopyLink(src: Graph, dst: Graph, names: map<Uuid, Uuid>, u: Uuid, v: Uuid)
    requires IsCopy(src, dst, names) && (u, v) in Links(src)
    ensures u in names && v in names && (names[u], names[v]) in Links(dst)
  {
    var e :| e in src.edges && Resolves(NodeIds(src.nodes), e) && (e.from, e.to) == (u, v);
    var i :| 0 <= i < |src.edges| && src.edges[i] == e;
    assert EdgeCopied(src.edges[i], dst.edges[i], names) && dst.edges[i] in dst.edges;
  }

  function Rename(names: map<Uuid, Uuid>, p: seq<Uuid>): seq<Uuid> {
    seq(|p|, i requires 0 <= i < |p| => Name(names, p[i]))
  }

  lemma CopyWalk(src: Graph, dst: Graph, names: map<Uuid, Uuid>, p: seq<Uuid>)
    requires IsCopy(src, dst, names) && IsWalk(Links(src), p)
    ensures IsWalk(Links(dst), Rename(names, p))
  {
    var q := Rename(names, p);
    forall i | 0 <= i < |q| - 1 ensures (q[i], q[i + 1]) in Links(dst) {
      CopyLink(src, dst, names, p[i], p[i + 1]);
    }
  }

  lemma CopyCycle(src: Graph, dst: Graph, names: map<Uuid, Uuid>, p: seq<Uuid>)
    requires IsCopy(src, dst, names) && IsCycle(Links(src), p)
    ensures IsCycle(Links(dst), Rename(names, p))
  {
    CopyWalk(src, dst, names, p);
  }

  lemma CopyCyclic(src: Graph, dst: Graph, names: map<Uuid, Uuid>, u: Uuid)
    requires IsCopy(src, dst, names) && OnCycle(Links(src), u)
    ensures OnCycle(Links(dst), Name(names, u))
  {
    var p :| IsCycle(Links(src), p) && p[0] == u;
    CopyCycle(src, dst, names, p);
  }

  lemma CopyReaches(src: Graph, dst: Graph, names: map<Uuid, Uuid>, u: Uuid, v: Uuid)
    requires IsCopy(src, dst, names) && Reaches(Links(src), u, v)
    ensures Reaches(Links(dst), Name(names, u), Name(names, v))
  {
    var p :| WalkBetween(Links(src), p, u, v);
    CopyWalk(src, dst, names, p);
    assert WalkBetween(Links(dst), Rename(names, p), Name(names, u), Name(names, v));
  }

  lemma CopyChoice(src: Graph, dst: Graph, names: map<Uuid, Uuid>, u: Uuid)
    requires IsCopy(src, dst, names) && HasChoice(src, u)
    ensures u in names && HasChoice(dst, names[u])
  {
    var e :| e in src.edges && Resolves(NodeIds(src.nodes), e) && e.from == u;
    var i :| 0 <= i < |src.edges| && src.edges[i] == e;
    assert EdgeCopied(src.edges[i], dst.edges[i], names) && dst.edges[i] in dst.edges;
    assert Resolves(NodeIds(dst.nodes), dst.edges[i]);
  }

  /** Node u and its copy agree on cycles, reachability and having choices. */
  lemma CopyAgrees(src: Graph, dst: Graph, names: map<Uuid, Uuid>, u: Uuid)
    requires IsCopy(src, dst, names) && u in names
    ensures OnCycle(Links(src), u) <==> OnCycle(Links(dst), names[u])
    ensures HasChoice(src, u) <==> HasChoice(dst, names[u])
    ensures RootUsable(src) <==> RootUsable(dst)
    ensures RootUsable(src) ==>
      (Reaches(Links(src), src.root.value, u) <==> Reaches(Links(dst), dst.root.value, names[u]))
  {
    CopySymmetric(src, dst, names);
    InverseInverts(names);
    var inv := Inverse(names);
    if OnCycle(Links(src), u) { CopyCyclic(src, dst, names, u); }
    if OnCycle(Links(dst), names[u]) { CopyCyclic(dst, src, inv, names[u]); }
    if HasChoice(src, u) { CopyChoice(src, dst, names, u); }
    if HasChoice(dst, names[u]) { CopyChoice(dst, src, inv, names[u]); }
    if RootUsable(src) {
      var r := src.root.value;
      if Reaches(Links(src), r, u) { CopyReaches(src, dst, names, r, u); }
      if Reaches(Links(dst), names[r], names[u]) { CopyReaches(dst, src, inv, names[r], names[u]); }
    }
  }

  function RenameIssue(names: map<Uuid, Uuid>, i: Issue): Issue {
    i.(nodeId := if i.nodeId.Some? then Some(Name(names, i.nodeId.value)) else None)
  }

  /** The validator's issues about the copy are the renamed issues about the source. */
  lemma CopyViolates(src: Graph, dst: Graph, names: map<Uuid, Uuid>, i: Issue)
    requires IsCopy(src, dst, names) && i.reason != CycleDetected
    requires i.nodeId.Some? ==> i.nodeId.value in names
    ensures Violates(src, i) <==> Violates(dst, RenameIssue(names, i))
  {
    if i.nodeId.Some? {
      var u := i.nodeId.value;
      CopyAgrees(src, dst, names, u);
      CopyBreaksKind(src, dst, names, u, i.reason);
      if i.edgeId == None && i.reason == DanglingReference { assert names[u] in names.Values; }
    }
  }

  lemma BrokenInCopy(src: Graph, dst: Graph, names: map<Uuid, Uuid>, x: Node, r: Reason) returns (y: Node)
    requires IsCopy(src, dst, names) && x in src.nodes && BreaksKindRule(x, HasChoice(src, x.id), r)
    ensures x.id in names && y in dst.nodes && y.id == names[x.id] && BreaksKindRule(y, HasChoice(dst, y.id), r)
  {
    var i :| 0 <= i < |src.nodes| && src.nodes[i] == x;
    y := dst.nodes[i];
    CopyAgrees(src, dst, names, x.id);
  }

  lemma CopyBreaksKind(src: Graph, dst: Graph, names: map<Uuid, Uuid>, u: Uuid, r: Reason)
    requires IsCopy(src, dst, names) && u in names
    ensures (exists x :: x in src.nodes && x.id == u && BreaksKindRule(x, HasChoice(src, u), r)) <==>
      (exists x :: x in dst.nodes && x.id == names[u] && BreaksKindRule(x, HasChoice(dst, names[u]), r))
  {
    if x :| x in src.nodes && x.id == u && BreaksKindRule(x, HasChoice(src, u), r) {
      var y := BrokenInCopy(src, dst, names, x, r);
    }
    if x :| x in dst.nodes && x.id == names[u] && BreaksKindRule(x, HasChoice(dst, names[u]), r) {
      CopySymmetric(src, dst, names);
      InverseInverts(names);
      var y := BrokenInCopy(dst, src, Inverse(names), x, r);
    }
  }

  lemma CopyNodeFits(src: Graph, dst: Graph, names: map<Uuid, Uuid>, i: nat)
    requires IsCopy(src, dst, names) && Publishable(src) && i < |dst.nodes|
    ensures RootUsable(dst) && KindRules(dst, dst.nodes[i]) && Reaches(Links(dst), dst.root.value, dst.nodes[i].id)
  {
    var m := src.nodes[i];
    assert m in src.nodes && KindRules(src, m) && Reaches(Links(src), src.root.value, m.id);
    CopyAgrees(src, dst, names, m.id);
  }

  lemma CopyAcyclic(src: Graph, dst: Graph, names: map<Uuid, Uuid>)
    requires IsCopy(src, dst, names) && Acyclic(Links(src))
    ensures Acyclic(Links(dst))
  {
    CopySymmetric(src, dst, names);
    forall p ensures !IsCycle(Links(dst), p) {
      if IsCycle(Links(dst), p) { CopyCycle(dst, src, Inverse(names), p); }
    }
  }

  lemma CopyRootUsable(src: Graph, dst: Graph, names: map<Uuid, Uuid>)
    requires IsCopy(src, dst, names) && RootUsable(src)
    ensures RootUsable(dst)
  {
    assert names[src.root.value] in names.Values;
  }

  lemma CopyPublishableOneWay(src: Graph, dst: Graph, names: map<Uuid, Uuid>)
    requires IsCopy(src, dst, names) && Publishable(src)
    ensures Publishable(dst)
  {
    CopyRootUsable(src, dst, names);
    CopyAcyclic(src, dst, names);
    forall n | n in dst.nodes ensures KindRules(dst, n) && Reaches(Links(dst), dst.root.value, n.id) {
      var i :| 0 <= i < |dst.nodes| && dst.nodes[i] == n;
      CopyNodeFits(src, dst, names, i);
    }
  }

  /** A copy is publishable exactly when its source is. */
  lemma CopyPublishable(src: Graph, dst: Graph, names: map<Uuid, Uuid>)
    requires IsCopy(src, dst, names)
    ensures Publishable(src) <==> Publishable(dst)
  {
    CopySymmetric(src, dst, names);
    if Publishable(src) { CopyPublishableOneWay(src, dst, names); }
    if Publishable(dst) { CopyPublishableOneWay(dst, src, Inverse(names)); }
  }

  // ----- playing a copy

  /** Choosing these labels one after the other can lead from u to v. */
  ghost predicate PlaysTo(g: Graph, u: Uuid, captions: seq<string>, v: Uuid) {
    exists es :: Spells(g, u, es, captions) && RouteNode(u, es, |es|) == v
  }

  ghost predicate Spells(g: Graph, u: Uuid, es: seq<Edge>, captions: seq<string>) {
    IsRoute(g, u, es) && |es| == |captions| && forall i :: 0 <= i < |es| ==> es[i].caption == captions[i]
  }

  lemma SpellsShorter(g: Graph, u: Uuid, es: seq<Edge>, captions: seq<string>)
    requires Spells(g, u, es, captions) && es != []
    ensures Spells(g, u, es[..|es| - 1], captions[..|captions| - 1])
    ensures es[|es| - 1].from == RouteNode(u, es[..|es| - 1], |es| - 1) && es[|es| - 1] in g.edges
    ensures es[|es| - 1].caption == captions[|captions| - 1]
  {
    var rest := es[..|es| - 1];
    forall i | 0 <= i < |rest| ensures rest[i].from == RouteNode(u, rest, i) && rest[i] in g.edges && Resolves(NodeIds(g.nodes), rest[i]) {
      assert es[i].from == RouteNode(u, es, i);
    }
  }

  lemma SpellsLonger(g: Graph, u: Uuid, es: seq<Edge>, captions: seq<string>, e: Edge)
    requires captions != [] && Spells(g, u, es, captions[..|captions| - 1]) && e.caption == captions[|captions| - 1]
    requires e in g.edges && Resolves(NodeIds(g.nodes), e) && e.from == RouteNode(u, es, |es|)
    ensures Spells(g, u, es + [e], captions) && RouteNode(u, es + [e], |es + [e]|) == e.to
  {
    RouteGrows(g, u, es, e);
  }

  /** The copy of an edge. */
  lemma EdgeInCopy(src: Graph, dst: Graph, names: map<Uuid, Uuid>, e: Edge) returns (d: Edge)
    requires IsCopy(src, dst, names) && e in src.edges
    ensures d in dst.edges && EdgeCopied(e, d, names) && Resolves(NodeIds(dst.nodes), d)
  {
    var i :| 0 <= i < |src.edges| && src.edges[i] == e;
    d := dst.edges[i];
  }

  /** ds plays in the copy what es plays in the source. */
  ghost predicate Mirrors(src: Graph, dst: Graph, names: map<Uuid, Uuid>, u: Uuid, captions: seq<string>, es: seq<Edge>, ds: seq<Edge>)
    requires u in names
  {
    && Spells(src, u, es, captions) && Spells(dst, names[u], ds, captions)
    && RouteNode(u, es, |es|) in names && RouteNode(names[u], ds, |ds|) == names[RouteNode(u, es, |es|)]
  }

  lemma MirrorStep(src: Graph, dst: Graph, names: map<Uuid, Uuid>, u: Uuid, captions: seq<string>, es: seq<Edge>, ds: seq<Edge>)
    returns (ds': seq<Edge>)
    requires IsCopy(src, dst, names) && u in names && es != [] && Spells(src, u, es, captions)
    requires Mirrors(src, dst, names, u, captions[..|captions| - 1], es[..|es| - 1], ds)
    ensures Mirrors(src, dst, names, u, captions, es, ds')
  {
    var e := es[|es| - 1];
    SpellsShorter(src, u, es, captions);
    var d := EdgeInCopy(src, dst, names, e);
    SpellsLonger(dst, names[u], ds, captions, d);
    ds' := ds + [d];
  }

  lemma {:induction false} CopyPlays(src: Graph, dst: Graph, names: map<Uuid, Uuid>, u: Uuid, captions: seq<string>, es: seq<Edge>)
    returns (ds: seq<Edge>)
    requires IsCopy(src, dst, names) && u in names && Spells(src, u, es, captions)
    ensures Mirrors(src, dst, names, u, captions, es, ds)
  {
    if es == [] {
      ds := [];
    } else {
      SpellsShorter(src, u, es, captions);
      ds := CopyPlays(src, dst, names, u, captions[..|captions| - 1], es[..|es| - 1]);
      ds := MirrorStep(src, dst, names, u, captions, es, ds);
    }
  }

  /**
    A copy plays like its source: a sequence of labels leads from u to v exactly when it
    leads from the copy of u to the copy of v, and a node and its copy have the same kind
    and resolution.
  */
  lemma CopyBisimilar(src: Graph, dst: Graph, names: map<Uuid, Uuid>, u: Uuid, captions: seq<string>, v: Uuid)
    requires IsCopy(src, dst, names) && u in names && v in names
    ensures PlaysTo(src, u, captions, v) <==> PlaysTo(dst, names[u], captions, names[v])
    ensures forall i :: 0 <= i < |src.nodes| && src.nodes[i].id == v ==>
      dst.nodes[i].id == names[v] && dst.nodes[i].kind == src.nodes[i].kind && dst.nodes[i].resolution == src.nodes[i].resolution
  {
    CopySymmetric(src, dst, names);
    InverseInverts(names);
    if PlaysTo(src, u, captions, v) {
      var es :| Spells(src, u, es, captions) && RouteNode(u, es, |es|) == v;
      var ds := CopyPlays(src, dst, names, u, captions, es);
    }
    if PlaysTo(dst, names[u], captions, names[v]) {
      var ds :| Spells(dst, names[u], ds, captions) && RouteNode(names[u], ds, |ds|) == names[v];
      var es := CopyPlays(dst, src, Inverse(names), names[u], captions, ds);
    }
  }
}
