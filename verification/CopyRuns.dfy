/**
  A run on a copy of a graph goes exactly as on its source: the same choices are accepted
  and rejected, with the same errors, and the rows differ only in names.
*/
module CopyRuns {
  import opened Domain
  import opened Engine
  import opened Cloning

  /** d selects the copy of the edge that c selects; or neither selects an edge. */
  ghost predicate ChoiceCopied(src: Graph, dst: Graph, c: Choice, d: Choice) {
    && c.at == d.at
    && (SameEdge(src, dst, c.edgeId, d.edgeId) || (c.edgeId !in EdgeIds(src.edges) && d.edgeId !in EdgeIds(dst.edges)))
  }

  ghost predicate SameEdge(src: Graph, dst: Graph, x: Uuid, y: Uuid) {
    exists i :: 0 <= i < |src.edges| && i < |dst.edges| && src.edges[i].id == x && dst.edges[i].id == y
  }

  ghost predicate ChoicesCopied(src: Graph, dst: Graph, cs: seq<Choice>, ds: seq<Choice>) {
    |cs| == |ds| && forall i :: 0 <= i < |cs| ==> ChoiceCopied(src, dst, cs[i], ds[i])
  }

  /** The same row, at the copy of its node and on another version. */
  ghost predicate RowCopied(names: map<Uuid, Uuid>, inv: Investigation, inv': Investigation) {
    inv.current in names && inv' == inv.(current := names[inv.current], versionId := inv'.versionId)
  }

  ghost predicate OutcomeCopied(names: map<Uuid, Uuid>, a: Result<Investigation>, b: Result<Investigation>) {
    match (a, b)
    case (Ok(inv), Ok(inv')) => RowCopied(names, inv, inv') && inv.status == inv'.status && inv.resolution == inv'.resolution
    case (Err(e), Err(e')) => e == e'
    case _ => false
  }

  ghost predicate Unambiguous(g: Graph) {
    UniqueNodeIds(g.nodes) && UniqueEdgeIds(g.edges)
  }

  lemma EdgeOfCopy(src: Graph, dst: Graph, names: map<Uuid, Uuid>, c: Choice, d: Choice)
    requires IsCopy(src, dst, names) && Unambiguous(src) && Unambiguous(dst) && ChoiceCopied(src, dst, c, d)
    ensures var e, e' := EdgeById(src.edges, c.edgeId), EdgeById(dst.edges, d.edgeId);
      (e == None && e' == None) || (e.Some? && e'.Some? && e.value in src.edges && EdgeCopied(e.value, e'.value, names))
  {
    EdgeByIdFinds(src.edges, c.edgeId);
    EdgeByIdFinds(dst.edges, d.edgeId);
    if SameEdge(src, dst, c.edgeId, d.edgeId) {
      var i :| 0 <= i < |src.edges| && i < |dst.edges| && src.edges[i].id == c.edgeId && dst.edges[i].id == d.edgeId;
      assert src.edges[i] in src.edges && dst.edges[i] in dst.edges;
    }
  }

  lemma NodeOfCopy(src: Graph, dst: Graph, names: map<Uuid, Uuid>, u: Uuid)
    requires IsCopy(src, dst, names) && Unambiguous(src) && Unambiguous(dst) && u in names
    ensures NodeById(src.nodes, u).Some?
    ensures NodeById(dst.nodes, names[u]) == Some(NodeById(src.nodes, u).value.(id := names[u]))
  {
    NodeByIdFinds(src.nodes, u);
    NodeByIdFinds(dst.nodes, names[u]);
    var n := NodeById(src.nodes, u).value;
    var i :| 0 <= i < |src.nodes| && src.nodes[i] == n;
    assert dst.nodes[i] in dst.nodes;
  }

  lemma LoadOfCopy(src: Graph, dst: Graph, names: map<Uuid, Uuid>, c: Choice, d: Choice)
    requires IsCopy(src, dst, names) && Unambiguous(src) && Unambiguous(dst) && ChoiceCopied(src, dst, c, d)
    ensures var p, p' := LoadEdge(src, c.edgeId), LoadEdge(dst, d.edgeId);
      (p == None && p' == None) || (p.Some? && p'.Some? && EdgeCopied(p.value.0, p'.value.0, names) &&
        p.value.1.id == p.value.0.to && p'.value.1 == p.value.1.(id := names[p.value.0.to]))
  {
    EdgeOfCopy(src, dst, names, c, d);
    var e := EdgeById(src.edges, c.edgeId);
    if e.Some? {
      NodeOfCopy(src, dst, names, e.value.to);
      NodeByIdFinds(src.nodes, e.value.to);
    }
  }

  /** The transition rule on copied arguments. */
  lemma DecideInCopy(names: map<Uuid, Uuid>, inv: Investigation, inv': Investigation, e: Edge, e': Edge, n: Node, now: Time)
    requires Injective(names) && RowCopied(names, inv, inv') && EdgeCopied(e, e', names) && n.id == e.to
    ensures OutcomeCopied(names, Decide(inv, e, n, now), Decide(inv', e', n.(id := names[e.to]), now))
  {
  }

  lemma SubmitInCopy(src: Graph, dst: Graph, names: map<Uuid, Uuid>, inv: Investigation, inv': Investigation, c: Choice, d: Choice)
    requires IsCopy(src, dst, names) && Unambiguous(src) && Unambiguous(dst)
    requires RowCopied(names, inv, inv') && ChoiceCopied(src, dst, c, d)
    ensures OutcomeCopied(names, Submit(src, inv, c), Submit(dst, inv', d))
  {
    LoadOfCopy(src, dst, names, c, d);
    var p, p' := LoadEdge(src, c.edgeId), LoadEdge(dst, d.edgeId);
    if p.Some? { DecideInCopy(names, inv, inv', p.value.0, p'.value.0, p.value.1, c.at); }
  }

  lemma {:induction false} RunInCopy(src: Graph, dst: Graph, names: map<Uuid, Uuid>,
                                     inv: Investigation, inv': Investigation, cs: seq<Choice>, ds: seq<Choice>)
    requires IsCopy(src, dst, names) && Unambiguous(src) && Unambiguous(dst)
    requires RowCopied(names, inv, inv') && ChoicesCopied(src, dst, cs, ds)
    ensures OutcomeCopied(names, Run(src, inv, cs), Run(dst, inv', ds))
    decreases |cs|
  {
    if cs != [] {
      var n := |cs| - 1;
      RunInCopy(src, dst, names, inv, inv', cs[..n], ds[..n]);
      assert ChoiceCopied(src, dst, cs[n], ds[n]);
      var before, before' := Run(src, inv, cs[..n]), Run(dst, inv', ds[..n]);
      if before.Ok? { SubmitInCopy(src, dst, names, before.value, before'.value, cs[n], ds[n]); }
    }
  }

  /**
    An investigation started on a published version and one started on a published copy
    of it, given the same choices: both reject, with the same error, or both accept and
    stand at a node and its copy with the same status, times and resolution.
  */
  lemma CopyRunsAlike(src: Graph, dst: Graph, names: map<Uuid, Uuid>, alertId: Uuid, version: Version, version': Version,
                      root: Node, now: Time, cs: seq<Choice>, ds: seq<Choice>)
    requires IsCopy(src, dst, names) && Unambiguous(src) && Unambiguous(dst) && ChoicesCopied(src, dst, cs, ds)
    requires root in src.nodes && version.status == Published && version'.status == Published
    ensures root.id in names
    ensures var root' := root.(id := names[root.id]);
      && NodeById(dst.nodes, names[root.id]) == Some(root')
      && var inv, inv' := Start(alertId, version, root, now), Start(alertId, version', root', now);
        inv.Ok? && inv'.Ok? && OutcomeCopied(names, Run(src, inv.value, cs), Run(dst, inv'.value, ds))
  {
    NodeByIdFinds(src.nodes, root.id);
    NodeOfCopy(src, dst, names, root.id);
    var root' := root.(id := names[root.id]);
    RunInCopy(src, dst, names, Start(alertId, version, root, now).value, Start(alertId, version', root', now).value, cs, ds);
  }
}
