/**
  What the report overlay shows of any path, whatever its entries: also of paths that
  revisit nodes, repeat edges or end in an edge that is not listed.
*/
module OverlayMeaning {
  import opened Domain
  import opened StableSort
  import opened Engine
  import opened PathOverlay

  /** Entry i is the first at its node. */
  predicate FirstVisit(path: seq<PathStep>, i: int)
    requires 0 <= i < |path|
  {
    forall j :: 0 <= j < i ==> path[j].nodeId != path[i].nodeId
  }

  /** Entry i is the last over its edge. */
  predicate LastUse(path: seq<PathStep>, i: int)
    requires 0 <= i < |path|
  {
    forall j :: i < j < |path| ==> path[j].selectedEdgeId != path[i].selectedEdgeId
  }

  function NodesIn(path: seq<PathStep>): set<Uuid> {
    set s | s in path :: s.nodeId
  }

  function EdgesIn(path: seq<PathStep>): set<Uuid> {
    set s | s in path :: s.selectedEdgeId
  }

  /** A node is stamped by the first entry at it. */
  ghost predicate NodesStamped(stamps: map<Uuid, int>, path: seq<PathStep>) {
    && stamps.Keys == NodesIn(path)
    && forall i {:trigger FirstVisit(path, i)} :: 0 <= i < |path| && FirstVisit(path, i) ==>
         path[i].nodeId in stamps && stamps[path[i].nodeId] == path[i].stepNumber
  }

  /** An edge is stamped by the last entry over it. */
  ghost predicate EdgesStamped(stamps: map<Uuid, int>, path: seq<PathStep>) {
    && stamps.Keys == EdgesIn(path)
    && forall i {:trigger LastUse(path, i)} :: 0 <= i < |path| && LastUse(path, i) ==>
         path[i].selectedEdgeId in stamps && stamps[path[i].selectedEdgeId] == path[i].stepNumber
  }

  /** The nodes of a path once each. */
  ghost predicate VisitsOnce(o: Overlay, path: seq<PathStep>) {
    o.visited == NodesIn(path) && Elements(o.visitedNodeIds) == o.visited && NoDuplicates(o.visitedNodeIds)
  }

  lemma LastEntry(path: seq<PathStep>)
    requires path != []
    ensures var n := |path| - 1;
      && NodesIn(path) == NodesIn(path[..n]) + {path[n].nodeId}
      && EdgesIn(path) == EdgesIn(path[..n]) + {path[n].selectedEdgeId}
  {
    assert path == path[..|path| - 1] + [path[|path| - 1]];
  }

  lemma EarlierFirst(path: seq<PathStep>, i: nat)
    requires i < |path| - 1 && FirstVisit(path, i)
    ensures FirstVisit(path[..|path| - 1], i)
  {
  }

  lemma LastNotFirst(path: seq<PathStep>)
    requires path != [] && FirstVisit(path, |path| - 1)
    ensures path[|path| - 1].nodeId !in NodesIn(path[..|path| - 1])
  {
    var n := |path| - 1;
    forall s | s in path[..n] ensures s.nodeId != path[n].nodeId {
      var j :| 0 <= j < n && path[..n][j] == s;
      assert path[j] == s;
    }
  }

  lemma EarlierLast(path: seq<PathStep>, i: nat)
    requires i < |path| - 1 && LastUse(path, i)
    ensures LastUse(path[..|path| - 1], i) && path[|path| - 1].selectedEdgeId != path[i].selectedEdgeId
  {
  }

  lemma NodeStampsGrow(stamps: map<Uuid, int>, path: seq<PathStep>)
    requires path != [] && NodesStamped(stamps, path[..|path| - 1])
    ensures var s := path[|path| - 1];
      NodesStamped(if s.nodeId in stamps then stamps else stamps[s.nodeId := s.stepNumber], path)
  {
    var n := |path| - 1;
    var s, rest := path[n], path[..n];
    var next := if s.nodeId in stamps then stamps else stamps[s.nodeId := s.stepNumber];
    LastEntry(path);
    forall i | 0 <= i < |path| && FirstVisit(path, i) ensures path[i].nodeId in next && next[path[i].nodeId] == path[i].stepNumber {
      if i < n {
        EarlierFirst(path, i);
        assert rest[i] == path[i];
      } else {
        LastNotFirst(path);
      }
    }
  }

  lemma EdgeStampsGrow(stamps: map<Uuid, int>, path: seq<PathStep>)
    requires path != [] && EdgesStamped(stamps, path[..|path| - 1])
    ensures var s := path[|path| - 1]; EdgesStamped(stamps[s.selectedEdgeId := s.stepNumber], path)
  {
    var n := |path| - 1;
    var s, rest := path[n], path[..n];
    var next := stamps[s.selectedEdgeId := s.stepNumber];
    LastEntry(path);
    forall i | 0 <= i < |path| && LastUse(path, i) ensures path[i].selectedEdgeId in next && next[path[i].selectedEdgeId] == path[i].stepNumber {
      if i < n {
        EarlierLast(path, i);
        assert rest[i] == path[i];
      }
    }
  }

  lemma VisitGrows(o: Overlay, node: Uuid, seen: set<Uuid>)
    requires o.visited == seen && Elements(o.visitedNodeIds) == seen && NoDuplicates(o.visitedNodeIds)
    ensures var o' := Visit(o, node);
      && o'.visited == seen + {node} && Elements(o'.visitedNodeIds) == seen + {node} && NoDuplicates(o'.visitedNodeIds)
      && o.visitedNodeIds <= o'.visitedNodeIds
  {
    assert node !in seen ==> Elements(o.visitedNodeIds + [node]) == seen + {node};
    assert node !in seen ==> node !in Elements(o.visitedNodeIds);
  }

  /** The overlay of an ordered path, before it lands. */
  lemma {:induction false} MarksMean(path: seq<PathStep>)
    ensures var o := MarkAll(path);
      && VisitsOnce(o, path) && NodesStamped(o.stepAtNode, path)
      && o.selectedEdgeIds == EdgesIn(path) && EdgesStamped(o.stepAtEdge, path) && o.finalNodeId == None
  {
    if path != [] {
      var n := |path| - 1;
      MarksMean(path[..n]);
      var o := MarkAll(path[..n]);
      LastEntry(path);
      VisitGrows(o, path[n].nodeId, NodesIn(path[..n]));
      NodeStampsGrow(o.stepAtNode, path);
      EdgeStampsGrow(o.stepAtEdge, path);
    }
  }

  /** Later entries add nodes at the end, so the nodes stand in the order of their first visits. */
  lemma {:induction false} VisitsInOrder(path: seq<PathStep>, i: nat)
    requires i <= |path|
    ensures MarkAll(path[..i]).visitedNodeIds <= MarkAll(path).visitedNodeIds
    decreases |path|
  {
    if i < |path| {
      var n := |path| - 1;
      VisitsInOrder(path[..n], i);
      assert path[..n][..i] == path[..i];
      MarksMean(path[..n]);
      VisitGrows(MarkAll(path[..n]), path[n].nodeId, NodesIn(path[..n]));
    } else {
      assert path[..i] == path;
    }
  }

  /** Where the edge of an entry leads, when it is listed. */
  ghost predicate LeadsTo(last: PathStep, edges: seq<Edge>, final: Option<Uuid>) {
    && (final == None <==> forall e :: e in edges ==> e.id != last.selectedEdgeId)
    && (final.Some? ==> exists e :: e in edges && e.id == last.selectedEdgeId && e.to == final.value)
  }

  lemma FinalMeans(ordered: seq<PathStep>, edges: seq<Edge>)
    requires ordered != []
    ensures LeadsTo(ordered[|ordered| - 1], edges, FinalNode(ordered, edges))
  {
    var last := ordered[|ordered| - 1];
    EdgeByIdFinds(edges, last.selectedEdgeId);
    if e :| e in edges && e.id == last.selectedEdgeId { assert e.id in EdgeIds(edges); }
  }

  lemma OrderedByStep(path: seq<PathStep>)
    ensures var ordered := Sort(ByStepNumber, path);
      && |ordered| == |path| && multiset(ordered) == multiset(path)
      && forall i, j :: 0 <= i < j < |ordered| ==> ordered[i].stepNumber <= ordered[j].stepNumber
  {
    NumbersTotal();
    SortSorts(ByStepNumber, path);
    SortPermutes(ByStepNumber, path);
  }

  /** What Land leaves, and what it adds. */
  lemma LandMeans(o: Overlay, node: Option<Uuid>, seen: set<Uuid>)
    requires o.visited == seen && Elements(o.visitedNodeIds) == seen && NoDuplicates(o.visitedNodeIds) && o.finalNodeId == None
    ensures var r := Land(o, node);
      && r.stepAtNode == o.stepAtNode && r.stepAtEdge == o.stepAtEdge && r.selectedEdgeIds == o.selectedEdgeIds
      && r.finalNodeId == node && r.visited == seen + (if node.Some? then {node.value} else {})
      && Elements(r.visitedNodeIds) == r.visited && NoDuplicates(r.visitedNodeIds) && o.visitedNodeIds <= r.visitedNodeIds
  {
    if node.Some? { VisitGrows(o.(finalNodeId := node), node.value, seen); }
  }

  /**
    The overlay of any non-empty path: its entries are taken by step number; each node is
    stamped by its first entry and each edge by its last; the end of the last edge is
    added as the final node; and nothing else is shown.
  */
  lemma OverlayMeans(path: seq<PathStep>, edges: seq<Edge>, terminalRoot: Option<Uuid>)
    requires path != []
    ensures var ordered, o := Sort(ByStepNumber, path), PathOverlayOf(path, edges, terminalRoot);
      && ordered != [] && multiset(ordered) == multiset(path)
      && (forall i, j :: 0 <= i < j < |ordered| ==> ordered[i].stepNumber <= ordered[j].stepNumber)
      && NodesStamped(o.stepAtNode, ordered) && EdgesStamped(o.stepAtEdge, ordered) && o.selectedEdgeIds == EdgesIn(ordered)
      && o.visited == NodesIn(ordered) + (if o.finalNodeId.Some? then {o.finalNodeId.value} else {})
      && Elements(o.visitedNodeIds) == o.visited && NoDuplicates(o.visitedNodeIds)
      && MarkAll(ordered).visitedNodeIds <= o.visitedNodeIds
      && LeadsTo(ordered[|ordered| - 1], edges, o.finalNodeId)
  {
    var ordered := Sort(ByStepNumber, path);
    OrderedByStep(path);
    MarksMean(ordered);
    FinalMeans(ordered, edges);
    LandMeans(MarkAll(ordered), FinalNode(ordered, edges), NodesIn(ordered));
  }
}
