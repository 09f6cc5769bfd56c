/**
  The comment on detectCycles says that the nodes that participate in a cycle are
  reported individually. On this graph, which can be stored in a draft and is loaded back
  in just this order, one of them is not.
*/
module MissedCycleNodes {
  import opened Domain
  import opened Digraph
  import opened StableSort
  import opened CycleSearch
  import opened PublishRules
  import opened GraphValidation
  import opened VersionTables
  import opened VersionScripts
  import opened VersionContent

  function Step0(id: Uuid): Node { Node(id, Decision, "step", "", None, None) }

  function Arrow(place: nat, from: Uuid, to: Uuid, caption: string): Edge {
    Edge(11 + place, from, to, caption, None, place)
  }

  /** 1 -> 2 -> 3 -> 1 and 1 -> 4 -> 2, the choice of 2 before the choice of 4. */
  function Loops(): Graph {
    Graph(Some(1), [Step0(1), Step0(2), Step0(3), Step0(4)],
          [Arrow(0, 1, 2, "next"), Arrow(1, 2, 3, "next"), Arrow(2, 3, 1, "next"), Arrow(3, 1, 4, "aside"), Arrow(4, 4, 2, "next")])
  }

  lemma LoopIds()
    ensures NodeIds(Loops().nodes) == {1, 2, 3, 4}
  {
    var nodes := Loops().nodes;
    assert forall i :: 0 <= i < 4 ==> nodes[i] in nodes && nodes[i].id == i + 1;
  }

  /** Node 4 is on the cycle 4 -> 2 -> 3 -> 1 -> 4. */
  lemma FourIsOnCycle()
    ensures OnCycle(Links(Loops()), 4)
  {
    var g := Loops();
    LoopIds();
    forall i | 0 <= i < 5 ensures (g.edges[i].from, g.edges[i].to) in Links(g) {
      assert g.edges[i] in g.edges && Resolves(NodeIds(g.nodes), g.edges[i]);
    }
    assert IsCycle(Links(g), [4, 2, 3, 1, 4]);
  }

  lemma TargetsOfThree(ids: set<Uuid>, es: seq<Edge>, u: Uuid)
    requires |es| >= 3
    ensures Targets(ids, es[..3], u) == TargetOf(ids, es[0], u) + TargetOf(ids, es[1], u) + TargetOf(ids, es[2], u)
  {
    TargetsGrow(ids, es, 0, u);
    TargetsGrow(ids, es, 1, u);
    TargetsGrow(ids, es, 2, u);
    assert es[..0] == [];
  }

  lemma TargetsOfFive(ids: set<Uuid>, es: seq<Edge>, u: Uuid)
    requires |es| == 5
    ensures Targets(ids, es, u) ==
      TargetOf(ids, es[0], u) + TargetOf(ids, es[1], u) + TargetOf(ids, es[2], u) + TargetOf(ids, es[3], u) + TargetOf(ids, es[4], u)
  {
    TargetsOfThree(ids, es, u);
    TargetsGrow(ids, es, 3, u);
    TargetsGrow(ids, es, 4, u);
    assert es[..5] == es;
  }

  /** Where the choices of each node lead, in order. */
  function Next(u: Uuid): seq<Uuid> {
    match u
    case 1 => [2, 4]
    case 2 => [3]
    case 3 => [1]
    case 4 => [2]
    case _ => []
  }

  lemma LoopTargets(u: Uuid)
    ensures Targets(NodeIds(Loops().nodes), Loops().edges, u) == Next(u)
  {
    LoopIds();
    TargetsOfFive(NodeIds(Loops().nodes), Loops().edges, u);
  }

  /** The search stands at t, and its next pass leads to u. */
  lemma Then(adj: Adjacency, s: Search, t: Search, u: Search)
    requires LeadsTo(adj, s, t) && Step(adj, t) == u
    ensures LeadsTo(adj, s, u)
  {
    LeadsOn(adj, s, t);
  }

  lemma FlagsThree(stack: seq<Frame>)
    requires stack == [Frame(1, 1), Frame(2, 1), Frame(3, 0)]
    ensures FlagDown(stack, 1) == {1, 2, 3}
  {
    var two, one := stack[..2], stack[..2][..1];
    assert FlagDown(one, 1) == {1};
    assert FlagDown(two, 1) == {2} + FlagDown(one, 1);
    assert FlagDown(stack, 1) == {3} + FlagDown(two, 1);
  }

  ghost predicate LoopsIn(adj: Adjacency) {
    At(adj, 1) == [2, 4] && At(adj, 2) == [3] && At(adj, 3) == [1] && At(adj, 4) == [2]
  }

  /** The way down: 1, 2 and 3 are on the stack. */
  const BOTTOM := Search(map[1 := Grey, 2 := Grey, 3 := Grey], [Frame(1, 1), Frame(2, 1), Frame(3, 0)], {})

  /** The edge from 3 back to 1 has flagged them. */
  const DOWN := Search(map[1 := Grey, 2 := Grey, 3 := Grey], [Frame(1, 1), Frame(2, 1), Frame(3, 1)], {1, 2, 3})

  const UP := Search(map[1 := Grey, 2 := Grey, 3 := Black], [Frame(1, 1), Frame(2, 1)], {1, 2, 3})

  /** Back at 1, with 2 and 3 finished. */
  const BACK := Search(map[1 := Grey, 2 := Black, 3 := Black], [Frame(1, 1)], {1, 2, 3})

  /** Inside 4, whose only edge leads to the finished 2. */
  const ASIDE := Search(map[1 := Grey, 2 := Black, 3 := Black, 4 := Grey], [Frame(1, 2), Frame(4, 1)], {1, 2, 3})

  const LAST := Search(map[1 := Grey, 2 := Black, 3 := Black, 4 := Black], [Frame(1, 2)], {1, 2, 3})

  const ALL_DONE := Search(map[1 := Black, 2 := Black, 3 := Black, 4 := Black], [], {1, 2, 3})

  const BLANK := Search(map[], [], {})

  lemma GoesDown(adj: Adjacency)
    requires LoopsIn(adj)
    ensures LeadsTo(adj, Entered(BLANK, 1), BOTTOM)
  {
    var s0 := Entered(BLANK, 1);
    var s1 := Search(map[1 := Grey, 2 := Grey], [Frame(1, 1), Frame(2, 0)], {});
    LeadsToItself(adj, s0);
    assert Step(adj, s0) == s1;
    Then(adj, s0, s0, s1);
    assert Step(adj, s1) == BOTTOM;
    Then(adj, s0, s1, BOTTOM);
  }

  lemma Flags(adj: Adjacency, s: Search)
    requires LoopsIn(adj) && LeadsTo(adj, s, BOTTOM)
    ensures LeadsTo(adj, s, DOWN)
  {
    FlagsThree(BOTTOM.stack);
    assert Step(adj, BOTTOM) == DOWN;
    Then(adj, s, BOTTOM, DOWN);
  }

  lemma GoesUp(adj: Adjacency, s: Search)
    requires LoopsIn(adj) && LeadsTo(adj, s, DOWN)
    ensures LeadsTo(adj, s, UP)
  {
    assert Step(adj, DOWN) == UP;
    Then(adj, s, DOWN, UP);
  }

  lemma GoesBack(adj: Adjacency, s: Search)
    requires LoopsIn(adj) && LeadsTo(adj, s, UP)
    ensures LeadsTo(adj, s, BACK)
  {
    assert Step(adj, UP) == BACK;
    Then(adj, s, UP, BACK);
  }

  lemma GoesAside(adj: Adjacency, s: Search)
    requires LoopsIn(adj) && LeadsTo(adj, s, BACK)
    ensures LeadsTo(adj, s, ASIDE)
  {
    var s6 := Search(map[1 := Grey, 2 := Black, 3 := Black, 4 := Grey], [Frame(1, 2), Frame(4, 0)], {1, 2, 3});
    assert Step(adj, BACK) == s6;
    Then(adj, s, BACK, s6);
    assert Step(adj, s6) == ASIDE;
    Then(adj, s, s6, ASIDE);
  }

  lemma Leaves(adj: Adjacency, s: Search)
    requires LoopsIn(adj) && LeadsTo(adj, s, ASIDE)
    ensures LeadsTo(adj, s, LAST)
  {
    assert Step(adj, ASIDE) == LAST;
    Then(adj, s, ASIDE, LAST);
  }

  lemma GoesHome(adj: Adjacency, s: Search)
    requires LoopsIn(adj) && LeadsTo(adj, s, LAST)
    ensures Finishes(adj, s, ALL_DONE)
  {
    assert Step(adj, LAST) == ALL_DONE;
    Then(adj, s, LAST, ALL_DONE);
  }

  lemma VisitsAll(adj: Adjacency)
    requires LoopsIn(adj)
    ensures Visits(adj, 1, BLANK, ALL_DONE)
  {
    var s := Entered(BLANK, 1);
    GoesDown(adj);
    Flags(adj, s);
    GoesUp(adj, s);
    GoesBack(adj, s);
    GoesAside(adj, s);
    Leaves(adj, s);
    GoesHome(adj, s);
  }

  /** The other starts find their nodes black, so these are all the flags. */
  lemma FlagsOfLoops(adj: Adjacency)
    requires LoopsIn(adj)
    ensures Flagged(adj, Loops().nodes, {1, 2, 3})
  {
    var nodes := Loops().nodes;
    VisitsAll(adj);
    assert nodes[..0] == [] && Searches(adj, nodes[..0], BLANK);
    SearchesGrow(adj, nodes, 0, BLANK, ALL_DONE);
    SearchesGrow(adj, nodes, 1, ALL_DONE, ALL_DONE);
    SearchesGrow(adj, nodes, 2, ALL_DONE, ALL_DONE);
    SearchesGrow(adj, nodes, 3, ALL_DONE, ALL_DONE);
    assert nodes[..4] == nodes;
  }

  lemma LoopsMarked(flagged: set<Uuid>)
    requires CyclesMarked(Loops(), flagged)
    ensures flagged == {1, 2, 3}
  {
    var adj :| AdjacencyFor(Loops(), adj) && Flagged(adj, Loops().nodes, flagged);
    LoopTargets(1);
    LoopTargets(2);
    LoopTargets(3);
    LoopTargets(4);
    FlagsOfLoops(adj);
    FlaggedOnce(adj, Loops().nodes, flagged, {1, 2, 3});
  }

  lemma UnmarkedUnreported(g: Graph, issues: seq<Issue>, flagged: set<Uuid>, u: Uuid)
    requires CycleIssuesAre(g, issues, flagged) && u !in flagged
    ensures NodeIssue(u, CycleDetected) !in issues
  {
  }

  /** A node of a cycle that the validator does not report, so "every node on a cycle is reported" is false. */
  lemma CycleNodeMissed(issues: seq<Issue>, flagged: set<Uuid>)
    requires CycleIssuesAre(Loops(), issues, flagged)
    ensures OnCycle(Links(Loops()), 4) && NodeIssue(4, CycleDetected) !in issues
  {
    FourIsOnCycle();
    LoopsMarked(flagged);
    UnmarkedUnreported(Loops(), issues, flagged, 4);
  }

  // ----- the graph can be stored, and is loaded in this order

  /** No other version uses these ids. */
  ghost predicate IdsFree(t: Tables, v: Uuid) {
    && (forall r :: r in t.nodes && r.node.id in {1, 2, 3, 4} ==> r.versionId == v)
    && (forall r :: r in t.edges && r.edge.id in {11, 12, 13, 14, 15} ==> r.versionId == v)
  }

  lemma LoopNodes()
    ensures UniqueNodeIds(Loops().nodes) && forall n :: n in Loops().nodes ==> NodeCheck(n)
  {
  }

  lemma LoopEdges()
    ensures forall e :: e in Loops().edges ==> Resolves(NodeIds(Loops().nodes), e) && e.id in {11, 12, 13, 14, 15}
  {
    LoopIds();
  }

  /** The edges have different ids, and those out of one node different labels. */
  lemma LoopLabels()
    ensures UniqueEdgeIds(Loops().edges) && UniqueLabels(Loops().edges)
  {
  }

  lemma LoopsStorable(t: Tables, v: Uuid)
    requires Consistent(t) && v in t.versions && IdsFree(t, v)
    ensures Storable(t, v, Loops()) && RunAll(t, v, ReplaceScript(Loops())) == Ran(Stored(t, v, Loops()))
  {
    LoopIds();
    LoopNodes();
    LoopEdges();
    LoopLabels();
    forall n, r | n in Loops().nodes && r in t.nodes && n.id == r.node.id ensures r.versionId == v {
      assert n.id in NodeIds(Loops().nodes);
    }
    forall e, r | e in Loops().edges && r in t.edges && e.id == r.edge.id ensures r.versionId == v {
      assert e.id in {11, 12, 13, 14, 15};
    }
    ReplaceExact(t, v, Loops());
  }

  lemma LoopsInOrder(le: Collation)
    ensures Sorted(NodeOrderBy(le), Loops().nodes) && Sorted(EdgeOrderBy(le), Loops().edges)
  {
    LoopNodesInOrder(le);
    LoopEdgesInOrder(le);
  }

  lemma LoopNodesInOrder(le: Collation)
    ensures Sorted(NodeOrderBy(le), Loops().nodes)
  {
  }

  lemma LoopEdgesInOrder(le: Collation)
    ensures Sorted(EdgeOrderBy(le), Loops().edges)
  {
  }

  /** Whatever the collation, this graph is what the queries return of it. */
  lemma LoopsLoaded(t: Tables, v: Uuid, le: Collation, g: Graph)
    requires v in t.versions && Loads(le, g, ContentOf(Stored(t, v, Loops()), v))
    ensures g == Loops()
  {
    LoopNodes();
    LoopLabels();
    LoopsInOrder(le);
    StoredLists(t, v, Loops());
    LoadsOnce(le, Loops(), g, ContentOf(Stored(t, v, Loops()), v));
  }

  /** One playbook with one empty draft. */
  const EMPTY_DRAFT := Tables(map[7 := "phishing"], map[8 := NewVersion(8, 7, 1)], {}, {})

  /**
    So the gap shows in use: after a replacement of an empty draft by this graph, whatever
    report the validator gives on the stored rows, node 4 is on a cycle and not in it.
  */
  lemma MissedInDraft(le: Collation, g: Graph, issues: seq<Issue>, flagged: set<Uuid>)
    ensures Consistent(EMPTY_DRAFT) && IsDraft(EMPTY_DRAFT, 8)
    ensures RunAll(EMPTY_DRAFT, 8, ReplaceScript(Loops())) == Ran(Stored(EMPTY_DRAFT, 8, Loops()))
    ensures Loads(le, g, ContentOf(Stored(EMPTY_DRAFT, 8, Loops()), 8)) && CycleIssuesAre(g, issues, flagged) ==>
      OnCycle(Links(g), 4) && NodeIssue(4, CycleDetected) !in issues
  {
    LoopsStorable(EMPTY_DRAFT, 8);
    if Loads(le, g, ContentOf(Stored(EMPTY_DRAFT, 8, Loops()), 8)) && CycleIssuesAre(g, issues, flagged) {
      LoopsLoaded(EMPTY_DRAFT, 8, le, g);
      CycleNodeMissed(issues, flagged);
    }
  }
}
