/**
  The report overlay (frontend/src/lib/report-path.ts): what the console highlights, and
  why it agrees with the engine's own projection of the run.
*/
module PathOverlay {
  import opened Domain
  import opened StableSort
  import opened Engine
  import opened DecisionStore
  import opened DecisionHistory

  /** The fields of a report path entry that the overlay reads. */
  datatype PathStep = PathStep(stepNumber: int, nodeId: Uuid, selectedEdgeId: Uuid)

  datatype Overlay = Overlay(
    visitedNodeIds: seq<Uuid>,
    visited: set<Uuid>,
    stepAtNode: map<Uuid, int>,
    selectedEdgeIds: set<Uuid>,
    stepAtEdge: map<Uuid, int>,
    finalNodeId: Option<Uuid>)

  const EMPTY_OVERLAY := Overlay([], {}, map[], {}, map[], None)

  predicate ByStepNumber(a: PathStep, b: PathStep) { a.stepNumber <= b.stepNumber }

  /** Add a node to the visit order unless it is already there. */
  function Visit(o: Overlay, node: Uuid): Overlay {
    if node in o.visited then o else o.(visited := o.visited + {node}, visitedNodeIds := o.visitedNodeIds + [node])
  }

  /** One entry of the ordered path: the first visit of a node stamps it. */
  function Mark(o: Overlay, s: PathStep): Overlay {
    var o' := Visit(o, s.nodeId);
    o'.(stepAtNode := if s.nodeId in o'.stepAtNode then o'.stepAtNode else o'.stepAtNode[s.nodeId := s.stepNumber],
        selectedEdgeIds := o'.selectedEdgeIds + {s.selectedEdgeId},
        stepAtEdge := o'.stepAtEdge[s.selectedEdgeId := s.stepNumber])
  }

  function MarkAll(ordered: seq<PathStep>): Overlay {
    if ordered == [] then EMPTY_OVERLAY else Mark(MarkAll(ordered[..|ordered| - 1]), ordered[|ordered| - 1])
  }

  /** The run's end is wherever the final edge leads. */
  function Land(o: Overlay, node: Option<Uuid>): Overlay {
    if node == None then o else Visit(o.(finalNodeId := node), node.value)
  }

  /** Where the last entry of an ordered path leads. */
  function FinalNode(ordered: seq<PathStep>, edges: seq<Edge>): Option<Uuid> {
    if ordered == [] then None
    else
      var last := EdgeById(edges, ordered[|ordered| - 1].selectedEdgeId);
      if last == None then None else Some(last.value.to)
  }

  function PathOverlayOf(path: seq<PathStep>, edges: seq<Edge>, terminalRoot: Option<Uuid>): Overlay {
    if path == [] then Land(EMPTY_OVERLAY, terminalRoot)
    else
      var ordered := Sort(ByStepNumber, path);
      Land(MarkAll(ordered), FinalNode(ordered, edges))
  }

  lemma MarkAllGrows(ordered: seq<PathStep>, i: nat)
    requires i < |ordered|
    ensures MarkAll(ordered[..i + 1]) == Mark(MarkAll(ordered[..i]), ordered[i])
  {
    assert ordered[..i + 1][..i] == ordered[..i];
  }

  /** The loop of buildPathOverlay, updating the overlay entry by entry. */
  method MarkPath(ordered: seq<PathStep>) returns (o: Overlay)
    ensures o == MarkAll(ordered) && o.finalNodeId == None
  {
    o := EMPTY_OVERLAY;
    for i := 0 to |ordered|
      invariant o == MarkAll(ordered[..i]) && o.finalNodeId == None
    {
      MarkAllGrows(ordered, i);
      var step := ordered[i];
      if step.nodeId !in o.visited {
        o := o.(visited := o.visited + {step.nodeId}, visitedNodeIds := o.visitedNodeIds + [step.nodeId]);
      }
      if step.nodeId !in o.stepAtNode {
        o := o.(stepAtNode := o.stepAtNode[step.nodeId := step.stepNumber]);
      }
      o := o.(selectedEdgeIds := o.selectedEdgeIds + {step.selectedEdgeId});
      o := o.(stepAtEdge := o.stepAtEdge[step.selectedEdgeId := step.stepNumber]);
    }
    assert ordered[..|ordered|] == ordered;
  }

  /** buildPathOverlay. */
  method BuildPathOverlay(path: seq<PathStep>, edges: seq<Edge>, terminalRoot: Option<Uuid>) returns (o: Overlay)
    ensures o == PathOverlayOf(path, edges, terminalRoot)
  {
    o := EMPTY_OVERLAY;
    if |path| == 0 {
      if terminalRoot != None {
        var root := terminalRoot.value;
        o := o.(finalNodeId := Some(root), visited := o.visited + {root}, visitedNodeIds := o.visitedNodeIds + [root]);
      }
      return;
    }
    var ordered := Sort(ByStepNumber, path);
    o := MarkPath(ordered);
    SortPermutes(ByStepNumber, path);
    var lastEdge := EdgeById(edges, ordered[|ordered| - 1].selectedEdgeId);
    if lastEdge != None {
      o := o.(finalNodeId := Some(lastEdge.value.to));
      if lastEdge.value.to !in o.visited {
        o := o.(visited := o.visited + {lastEdge.value.to}, visitedNodeIds := o.visitedNodeIds + [lastEdge.value.to]);
      }
    }
  }

  function ToPath(ss: seq<Step>): seq<PathStep> {
    seq(|ss|, i requires 0 <= i < |ss| => PathStep(ss[i].number, ss[i].nodeId, ss[i].edgeId))
  }

  /** buildOverlayFromSteps: the live runner's overlay, which is told the current node. */
  method BuildOverlayFromSteps(steps: seq<Step>, edges: seq<Edge>, current: Option<Uuid>) returns (o: Overlay)
    ensures o == Land(PathOverlayOf(ToPath(steps), edges, None), current)
  {
    o := BuildPathOverlay(ToPath(steps), edges, None);
    if current != None {
      o := o.(finalNodeId := current);
      if current.value !in o.visited {
        o := o.(visited := o.visited + {current.value}, visitedNodeIds := o.visitedNodeIds + [current.value]);
      }
    }
  }

  // ----- agreement with the engine

  function Elements(xs: seq<Uuid>): set<Uuid> {
    set x | x in xs
  }

  /** Element i of xs is stamped i + 1, and nothing else is stamped. */
  ghost predicate Stamped(stamps: map<Uuid, int>, xs: seq<Uuid>) {
    stamps.Keys == Elements(xs) && forall i :: 0 <= i < |xs| ==> xs[i] in stamps && stamps[xs[i]] == i + 1
  }

  lemma StampGrows(stamps: map<Uuid, int>, xs: seq<Uuid>, x: Uuid)
    requires Stamped(stamps, xs) && x !in xs
    ensures Stamped(stamps[x := |xs| + 1], xs + [x])
  {
    assert Elements(xs + [x]) == Elements(xs) + {x};
  }

  function NodesLeft(ss: seq<Step>): seq<Uuid> {
    seq(|ss|, i requires 0 <= i < |ss| => ss[i].nodeId)
  }

  function EdgesTaken(ss: seq<Step>): seq<Uuid> {
    seq(|ss|, i requires 0 <= i < |ss| => ss[i].edgeId)
  }

  /** The overlay of some first steps of a run: nodes and edges in order, each stamped with its step. */
  ghost predicate Marked(o: Overlay, nodes: seq<Uuid>, edges: seq<Uuid>) {
    && o.visitedNodeIds == nodes && o.visited == Elements(nodes) && Stamped(o.stepAtNode, nodes)
    && o.selectedEdgeIds == Elements(edges) && Stamped(o.stepAtEdge, edges)
  }

  lemma {:induction false} MarksRun(ss: seq<Step>)
    requires forall i :: 0 <= i < |ss| ==> ss[i].number == i + 1
    requires NoDuplicates(NodesLeft(ss)) && NoDuplicates(EdgesTaken(ss))
    ensures Marked(MarkAll(ToPath(ss)), NodesLeft(ss), EdgesTaken(ss))
  {
    if ss != [] {
      var s, rest := ss[|ss| - 1], ss[..|ss| - 1];
      assert NodesLeft(ss) == NodesLeft(rest) + [s.nodeId] && EdgesTaken(ss) == EdgesTaken(rest) + [s.edgeId];
      assert ToPath(ss)[..|ss| - 1] == ToPath(rest);
      LastIsNew(NodesLeft(rest), s.nodeId);
      LastIsNew(EdgesTaken(rest), s.edgeId);
      MarksRun(rest);
      var o := MarkAll(ToPath(rest));
      StampGrows(o.stepAtNode, NodesLeft(rest), s.nodeId);
      StampGrows(o.stepAtEdge, EdgesTaken(rest), s.edgeId);
      assert Elements(NodesLeft(ss)) == Elements(NodesLeft(rest)) + {s.nodeId};
      assert Elements(EdgesTaken(ss)) == Elements(EdgesTaken(rest)) + {s.edgeId};
    }
  }

  lemma LastIsNew(xs: seq<Uuid>, x: Uuid)
    requires NoDuplicates(xs + [x])
    ensures x !in xs && NoDuplicates(xs)
  {
    forall i | 0 <= i < |xs| ensures xs[i] != x { assert (xs + [x])[i] != (xs + [x])[|xs|]; }
    forall i, j | 0 <= i < j < |xs| ensures xs[i] != xs[j] { assert (xs + [x])[i] != (xs + [x])[j]; }
  }

  /** However the entries of a run's path are arranged, sorting restores the run. */
  lemma PathSorts(ss: seq<Step>, path: seq<PathStep>)
    requires forall i :: 0 <= i < |ss| ==> ss[i].number == i + 1
    requires multiset(path) == multiset(ToPath(ss))
    ensures Sort(ByStepNumber, path) == ToPath(ss)
  {
    NumbersTotal();
    SortSorts(ByStepNumber, path);
    SortPermutes(ByStepNumber, path);
    PathInOrder(ss);
    SortedUnique(ByStepNumber, ToPath(ss), Sort(ByStepNumber, path));
  }

  lemma NumbersTotal()
    ensures TotalPreorder(ByStepNumber)
  {
  }

  lemma PathInOrder(ss: seq<Step>)
    requires forall i :: 0 <= i < |ss| ==> ss[i].number == i + 1
    ensures Sorted(ByStepNumber, ToPath(ss)) && TiesEqual(ByStepNumber, ToPath(ss))
  {
  }

  /** What an overlay of a whole run shows. */
  ghost predicate ShowsRun(o: Overlay, g: Graph, inv: Investigation, ss: seq<Step>)
    requires EdgesKnown(g, ss)
  {
    && o.visitedNodeIds == RouteNodes(RootOf(g), StepEdges(g, ss)) == NodesLeft(ss) + [inv.current]
    && NoDuplicates(o.visitedNodeIds)
    && o.visited == Elements(o.visitedNodeIds)
    && o.finalNodeId == Some(inv.current)
    && Stamped(o.stepAtNode, NodesLeft(ss))
    && o.selectedEdgeIds == Elements(EdgesTaken(ss))
    && Stamped(o.stepAtEdge, EdgesTaken(ss))
  }

  lemma RouteNodesAre(root: Uuid, es: seq<Edge>, ss: seq<Step>, last: Uuid)
    requires |es| == |ss| && last == RouteNode(root, es, |es|)
    requires forall i :: 0 <= i < |ss| ==> ss[i].nodeId == RouteNode(root, es, i)
    ensures RouteNodes(root, es) == NodesLeft(ss) + [last]
  {
  }

  /** The nodes of a run are those its steps left, and the current node. */
  lemma StepsLeave(g: Graph, inv: Investigation, ss: seq<Step>)
    requires History(g, inv, ss)
    ensures RouteNodes(RootOf(g), StepEdges(g, ss)) == NodesLeft(ss) + [inv.current]
  {
    forall i | 0 <= i < |ss| ensures ss[i].nodeId == RouteNode(RootOf(g), StepEdges(g, ss), i) {
      StepLeaves(g, inv, ss, i);
    }
    RouteNodesAre(RootOf(g), StepEdges(g, ss), ss, inv.current);
  }

  lemma StepsDistinct(g: Graph, inv: Investigation, ss: seq<Step>)
    requires Playable(g) && History(g, inv, ss)
    ensures NoDuplicates(NodesLeft(ss) + [inv.current]) && NoDuplicates(EdgesTaken(ss))
  {
    RouteBounds(g, RootOf(g), StepEdges(g, ss));
    StepsLeave(g, inv, ss);
    var p := NodesLeft(ss) + [inv.current];
    forall i, j | 0 <= i < j < |ss| ensures EdgesTaken(ss)[i] != EdgesTaken(ss)[j] {
      StepLeaves(g, inv, ss, i);
      StepLeaves(g, inv, ss, j);
      assert p[i] != p[j];
    }
  }

  lemma LandShowsRun(o: Overlay, nodes: seq<Uuid>, edges: seq<Uuid>, final: Uuid)
    requires Marked(o, nodes, edges) && final !in nodes
    ensures var r := Land(o, Some(final));
      && r.visitedNodeIds == nodes + [final] && r.visited == Elements(nodes + [final]) && r.finalNodeId == Some(final)
      && r.stepAtNode == o.stepAtNode && r.selectedEdgeIds == o.selectedEdgeIds && r.stepAtEdge == o.stepAtEdge
      && Land(r, Some(final)) == r
  {
    assert Elements(nodes + [final]) == Elements(nodes) + {final};
  }

  /**
    For any reachable investigation with steps, and its path in any order, the report
    overlay is the run: its nodes in order without repetition, the final node the
    engine's current node; and the live runner's overlay is the same.
  */
  lemma OverlayIsRun(db: Db, id: Uuid, path: seq<PathStep>, edges: seq<Edge>, terminalRoot: Option<Uuid>)
    requires Sound(db) && id in db.investigations && StepsOf(db.steps, id) != []
    requires multiset(path) == multiset(ToPath(StepsOf(db.steps, id)))
    requires UniqueEdgeIds(edges) && multiset(edges) == multiset(GraphFor(db, id).edges)
    ensures SoundAt(db, id)
    ensures var o := PathOverlayOf(path, edges, terminalRoot);
      && ShowsRun(o, GraphFor(db, id), db.investigations[id], StepsOf(db.steps, id))
      && o == Land(PathOverlayOf(ToPath(StepsOf(db.steps, id)), edges, None), Some(db.investigations[id].current))
  {
    assert SoundAt(db, id);
    var inv, g, ss := db.investigations[id], GraphFor(db, id), StepsOf(db.steps, id);
    assert Playable(GraphOf(db, inv.versionId));
    StepNumbers(g, inv, ss);
    StepsLeave(g, inv, ss);
    StepsDistinct(g, inv, ss);
    OverlayOfHistory(g, inv, ss, path, edges, terminalRoot);
    OverlayOfHistory(g, inv, ss, ToPath(ss), edges, None);
  }

  lemma OverlayOfHistory(g: Graph, inv: Investigation, ss: seq<Step>, path: seq<PathStep>, edges: seq<Edge>, terminalRoot: Option<Uuid>)
    requires History(g, inv, ss) && ss != [] && forall i :: 0 <= i < |ss| ==> ss[i].number == i + 1
    requires RouteNodes(RootOf(g), StepEdges(g, ss)) == NodesLeft(ss) + [inv.current]
    requires NoDuplicates(NodesLeft(ss) + [inv.current]) && NoDuplicates(EdgesTaken(ss))
    requires multiset(path) == multiset(ToPath(ss)) && UniqueEdgeIds(edges) && multiset(edges) == multiset(g.edges)
    ensures var o := PathOverlayOf(path, edges, terminalRoot);
      && o == Land(MarkAll(ToPath(ss)), Some(inv.current)) && Land(o, Some(inv.current)) == o
      && ShowsRun(o, g, inv, ss)
  {
    PathSorts(ss, path);
    assert |path| == |ToPath(ss)| by { assert |multiset(path)| == |multiset(ToPath(ss))|; }
    LastEdgeFound(g, edges, ss);
    assert StepEdges(g, ss)[|ss| - 1].to == inv.current;
    LastIsNew(NodesLeft(ss), inv.current);
    MarksRun(ss);
    LandShowsRun(MarkAll(ToPath(ss)), NodesLeft(ss), EdgesTaken(ss), inv.current);
  }

  lemma LastEdgeFound(g: Graph, edges: seq<Edge>, ss: seq<Step>)
    requires ss != [] && EdgesKnown(g, ss) && UniqueEdgeIds(edges) && multiset(edges) == multiset(g.edges)
    ensures EdgeById(edges, ss[|ss| - 1].edgeId) == EdgeById(g.edges, ss[|ss| - 1].edgeId)
  {
    var id := ss[|ss| - 1].edgeId;
    EdgeByIdFinds(g.edges, id);
    EdgeByIdFinds(edges, id);
    var e := EdgeById(g.edges, id).value;
    assert e in multiset(edges);
  }

  /** A zero-step report shows just the root when the root was terminal, and nothing while nothing is decided. */
  lemma EmptyPathOverlay(db: Db, id: Uuid, edges: seq<Edge>)
    requires Sound(db) && id in db.investigations && StepsOf(db.steps, id) == []
    ensures var inv, root := db.investigations[id], RootOf(GraphFor(db, id));
      && inv.current == root
      && PathOverlayOf([], edges, if inv.status == Done then Some(root) else None) ==
           if inv.status == Done then Overlay([root], {root}, map[], {}, map[], Some(inv.current)) else EMPTY_OVERLAY
  {
    assert SoundAt(db, id);
  }
}
