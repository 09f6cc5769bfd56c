/**
  When the cycle issues name every node of every cycle. They do if no link lies on two
  repetition-free cycles; and, of the graph without the order of its rows, they do in
  every order exactly if no evading path ends on a cycle.
*/
module CycleCoverage {
  import opened Domain
  import opened Digraph
  import opened CycleSearch
  import opened SearchPaths
  import opened EvadingPaths
  import opened CycleDetection
  import opened PublishRules
  import opened GraphValidation

  // ----- cycles that share no link

  /** No link lies on two different repetition-free cycles. */
  ghost predicate CyclesApart(r: Relation) {
    forall p, q :: SimpleCycle(r, p) && SimpleCycle(r, q) && p[0] == q[0] && p[1] == q[1] ==> p == q
  }

  /** A node on a cycle is on a repetition-free one. */
  lemma SimplifyCycle(r: Relation, u: Uuid) returns (q: seq<Uuid>)
    requires OnCycle(r, u)
    ensures SimpleCycle(r, q) && q[0] == u
  {
    var p :| IsCycle(r, p) && p[0] == u;
    SuffixIsWalk(r, p, 1);
    assert (p[0], p[1]) in r && WalkAvoiding(r, p[1..], p[1], u, []);
    var s := Shorten(r, p[1..], p[1], u, []);
    assert IsWalk(r, [u]);
    JoinWalks(r, [u], s);
    q := [u] + s;
    assert q[1..] == s;
  }

  lemma RoundThrough(r: Relation, flagged: set<Uuid>, q: seq<Uuid>, k: nat)
    requires CyclesApart(r) && SimpleCycle(r, q) && RoundAt(r, flagged, q, k)
    ensures q[0] in flagged
  {
    var c :| SimpleCycle(r, c) && c[0] == q[k] && c[1] == q[k + 1] && forall x :: x in c ==> x in flagged;
    RotatedIsSimple(r, q, k);
    assert Rotated(q, k) == c;
  }

  /** When no link lies on two repetition-free cycles, exactly the nodes on cycles are reported. */
  lemma ApartCyclesReported(g: Graph, issues: seq<Issue>, u: Uuid)
    requires CyclesApart(Links(g)) && CyclesFound(g, CycleNodes(issues))
    ensures u in CycleNodes(issues) <==> OnCycle(Links(g), u)
  {
    var r, flagged := Links(g), CycleNodes(issues);
    if OnCycle(r, u) {
      var q := SimplifyCycle(r, u);
      assert HasRound(r, flagged, q);
      var k :| RoundAt(r, flagged, q, k);
      RoundThrough(r, flagged, q, k);
    }
  }

  // ----- rearranging the edges

  /** The edges whose link is in s, or is not, in order. */
  function Those(edges: seq<Edge>, s: Relation, inside: bool): seq<Edge> {
    if edges == [] then []
    else
      var e := edges[|edges| - 1];
      Those(edges[..|edges| - 1], s, inside) + if ((e.from, e.to) in s) == inside then [e] else []
  }

  lemma {:induction false} ThoseAre(edges: seq<Edge>, s: Relation, inside: bool, e: Edge)
    ensures e in Those(edges, s, inside) <==> e in edges && ((e.from, e.to) in s) == inside
  {
    if edges != [] {
      ThoseAre(edges[..|edges| - 1], s, inside, e);
      assert edges == edges[..|edges| - 1] + [edges[|edges| - 1]];
    }
  }

  lemma {:induction false} ThosePartition(edges: seq<Edge>, s: Relation)
    ensures multiset(Those(edges, s, true)) + multiset(Those(edges, s, false)) == multiset(edges)
  {
    if edges != [] {
      var n := |edges| - 1;
      ThosePartition(edges[..n], s);
      LastApart(edges);
      LastAdded(Those(edges[..n], s, true), edges[n]);
      LastAdded(Those(edges[..n], s, false), edges[n]);
    }
  }

  lemma LastAdded<T>(a: seq<T>, x: T)
    ensures multiset(a + [x]) == multiset(a) + multiset{x}
  {
  }

  lemma LastApart<T>(a: seq<T>)
    requires a != []
    ensures multiset(a) == multiset(a[..|a| - 1]) + multiset{a[|a| - 1]}
  {
    assert a == a[..|a| - 1] + [a[|a| - 1]];
  }

  lemma ConcatLast<T>(a: seq<T>, b: seq<T>)
    requires b != []
    ensures (a + b)[..|a + b| - 1] == a + b[..|b| - 1] && (a + b)[|a + b| - 1] == b[|b| - 1]
  {
  }

  lemma Associates<T>(x: seq<T>, y: seq<T>, z: seq<T>)
    ensures x + y + z == x + (y + z)
  {
  }

  lemma {:induction false} TargetsConcat(ids: set<Uuid>, a: seq<Edge>, b: seq<Edge>, u: Uuid)
    ensures Targets(ids, a + b, u) == Targets(ids, a, u) + Targets(ids, b, u)
  {
    if b == [] {
      assert a + b == a;
    } else {
      var n := |b| - 1;
      TargetsConcat(ids, a, b[..n], u);
      ConcatLast(a, b);
      Associates(Targets(ids, a, u), Targets(ids, b[..n], u), TargetOf(ids, b[n], u));
    }
  }

  lemma TargetsOfThose(ids: set<Uuid>, edges: seq<Edge>, s: Relation, inside: bool, u: Uuid, v: Uuid)
    ensures v in Targets(ids, Those(edges, s, inside), u) <==> v in Targets(ids, edges, u) && ((u, v) in s) == inside
  {
    TargetsAre(ids, edges, u, v);
    TargetsAre(ids, Those(edges, s, inside), u, v);
    forall e ensures e in Those(edges, s, inside) <==> e in edges && ((e.from, e.to) in s) == inside {
      ThoseAre(edges, s, inside, e);
    }
  }

  /** The edges with their link in a, then those with it in b, then the rest. */
  function Arranged(edges: seq<Edge>, a: Relation, b: Relation): seq<Edge> {
    var rest := Those(edges, a, false);
    Those(edges, a, true) + Those(rest, b, true) + Those(rest, b, false)
  }

  lemma ArrangedPermutes(edges: seq<Edge>, a: Relation, b: Relation)
    ensures multiset(Arranged(edges, a, b)) == multiset(edges)
  {
    ThosePartition(edges, a);
    ThosePartition(Those(edges, a, false), b);
  }

  lemma FrontIsEarlier(a: seq<Uuid>, b: seq<Uuid>, v: Uuid, w: Uuid)
    requires v in a && w !in a
    ensures Earlier(a + b, v, w)
  {
    var i :| 0 <= i < |a| && a[i] == v;
    assert (a + b)[i] == v && (a + b)[..i + 1] == a[..i + 1];
  }

  lemma BackIsNotEarlier(a: seq<Uuid>, b: seq<Uuid>, v: Uuid, w: Uuid)
    requires w in a && v !in a
    ensures !Earlier(a + b, v, w)
  {
    var s := a + b;
    var k :| 0 <= k < |a| && a[k] == w;
    forall i | 0 <= i < |s| && s[i] == v ensures w in s[..i + 1] {
      assert s[..i + 1][k] == w;
    }
  }

  lemma FrontFirst(ids: set<Uuid>, x: seq<Edge>, y: seq<Edge>, u: Uuid, v: Uuid, w: Uuid)
    requires v in Targets(ids, x, u) && w !in Targets(ids, x, u)
    ensures Earlier(Targets(ids, x + y, u), v, w)
  {
    TargetsConcat(ids, x, y, u);
    FrontIsEarlier(Targets(ids, x, u), Targets(ids, y, u), v, w);
  }

  lemma BackLast(ids: set<Uuid>, x: seq<Edge>, y: seq<Edge>, u: Uuid, v: Uuid, w: Uuid)
    requires w in Targets(ids, x, u) && v !in Targets(ids, x, u)
    ensures !Earlier(Targets(ids, x + y, u), v, w)
  {
    TargetsConcat(ids, x, y, u);
    BackIsNotEarlier(Targets(ids, x, u), Targets(ids, y, u), v, w);
  }

  /** The edges with their link in a, then those with it in b. */
  function Front(edges: seq<Edge>, a: Relation, b: Relation): seq<Edge> {
    Those(edges, a, true) + Those(Those(edges, a, false), b, true)
  }

  lemma TargetsOfFront(ids: set<Uuid>, edges: seq<Edge>, a: Relation, b: Relation, u: Uuid, v: Uuid)
    ensures v in Targets(ids, Front(edges, a, b), u) <==> v in Targets(ids, edges, u) && ((u, v) in a || (u, v) in b)
  {
    var rest := Those(edges, a, false);
    TargetsOfThose(ids, edges, a, true, u, v);
    TargetsOfThose(ids, edges, a, false, u, v);
    TargetsOfThose(ids, rest, b, true, u, v);
    TargetsConcat(ids, Those(edges, a, true), Those(rest, b, true), u);
  }

  /** Among the choices of u, those with their link in a come first. */
  lemma ArrangedFirst(ids: set<Uuid>, edges: seq<Edge>, a: Relation, b: Relation, u: Uuid, v: Uuid, w: Uuid)
    requires v in Targets(ids, edges, u) && (u, v) in a && (u, w) !in a
    ensures Earlier(Targets(ids, Arranged(edges, a, b), u), v, w)
  {
    var rest := Those(edges, a, false);
    TargetsOfThose(ids, edges, a, true, u, v);
    TargetsOfThose(ids, edges, a, true, u, w);
    Associates(Those(edges, a, true), Those(rest, b, true), Those(rest, b, false));
    FrontFirst(ids, Those(edges, a, true), Those(rest, b, true) + Those(rest, b, false), u, v, w);
  }

  /** Those with their link in b come before those with it in neither. */
  lemma ArrangedLast(ids: set<Uuid>, edges: seq<Edge>, a: Relation, b: Relation, u: Uuid, v: Uuid, w: Uuid)
    requires w in Targets(ids, edges, u) && (u, w) in b && (u, v) !in a && (u, v) !in b
    ensures !Earlier(Targets(ids, Arranged(edges, a, b), u), v, w)
  {
    TargetsOfFront(ids, edges, a, b, u, v);
    TargetsOfFront(ids, edges, a, b, u, w);
    BackLast(ids, Front(edges, a, b), Those(Those(edges, a, false), b, false), u, v, w);
  }

  // ----- the order that misses the end of an evading path

  ghost predicate AlongPath(p: seq<Uuid>, u: Uuid, v: Uuid) {
    exists j :: 0 <= j < |p| - 1 && p[j] == u && p[j + 1] == v
  }

  ghost predicate IntoDeadEnd(r: Relation, p: seq<Uuid>, u: Uuid, v: Uuid) {
    exists j :: 0 <= j < |p| - 1 && p[j] == u && DeadEnd(r, p, j, v)
  }

  ghost function LinksAlong(r: Relation, p: seq<Uuid>): Relation {
    set l | l in r && AlongPath(p, l.0, l.1)
  }

  ghost function DeadLinks(r: Relation, p: seq<Uuid>): Relation {
    set l | l in r && IntoDeadEnd(r, p, l.0, l.1)
  }

  lemma LinksAt(r: Relation, p: seq<Uuid>, j: nat, c: Uuid)
    requires NoDuplicates(p) && j < |p| - 1 && (p[j], c) in r
    ensures (p[j], c) in LinksAlong(r, p) <==> c == p[j + 1]
    ensures (p[j], c) in DeadLinks(r, p) <==> DeadEnd(r, p, j, c)
  {
  }

  /** The next node of the path is not a dead end. */
  lemma NextIsNotDead(r: Relation, p: seq<Uuid>, j: nat)
    requires NoDuplicates(p) && j < |p| - 1
    ensures !DeadEnd(r, p, j, p[j + 1])
  {
    assert WalkAvoiding(r, [p[j + 1]], p[j + 1], p[j + 1], p[..j + 1]);
  }

  /** One node with this id first. */
  lemma NodeFirst(nodes: seq<Node>, id: Uuid) returns (arranged: seq<Node>)
    requires id in NodeIds(nodes)
    ensures multiset(arranged) == multiset(nodes) && arranged[0].id == id
  {
    var n :| n in nodes && n.id == id;
    var i :| 0 <= i < |nodes| && nodes[i] == n;
    arranged := [n] + nodes[..i] + nodes[i + 1..];
    assert nodes == nodes[..i] + [n] + nodes[i + 1..];
  }

  lemma SameMembers<T>(a: seq<T>, b: seq<T>)
    requires multiset(a) == multiset(b)
    ensures forall x :: x in a <==> x in b
  {
    forall x ensures x in a <==> x in b { assert x in multiset(a) <==> x in multiset(b); }
  }

  lemma SameGraphLinks(g: Graph, h: Graph)
    requires SameGraph(g, h)
    ensures NodeIds(g.nodes) == NodeIds(h.nodes) && Links(g) == Links(h)
  {
    SameMembers(g.nodes, h.nodes);
    SameMembers(g.edges, h.edges);
    assert NodeIds(g.nodes) == NodeIds(h.nodes);
  }

  lemma LinkIsTarget(g: Graph, u: Uuid, v: Uuid)
    requires (u, v) in Links(g)
    ensures v in Targets(NodeIds(g.nodes), g.edges, u)
  {
    TargetsAre(NodeIds(g.nodes), g.edges, u, v);
  }

  /** The rows of g, so ordered that the search follows p with its dead ends behind it. */
  lemma OrderFor(g: Graph, p: seq<Uuid>) returns (h: Graph)
    requires IsWalk(Links(g), p) && NoDuplicates(p) && p[0] in NodeIds(g.nodes)
    ensures SameGraph(g, h) && h.nodes[0].id == p[0] && DeadEndsFirst(AdjacencyMap(h), p)
  {
    var r := Links(g);
    var a, b := DeadLinks(r, p), LinksAlong(r, p);
    var nodes := NodeFirst(g.nodes, p[0]);
    ArrangedPermutes(g.edges, a, b);
    h := Graph(g.root, nodes, Arranged(g.edges, a, b));
    SameGraphLinks(g, h);
    GraphLinks(h);
    AdjacencyMapFits(h);
    forall j, c | 0 <= j < |p| - 1 && (p[j], c) in r
      ensures Earlier(At(AdjacencyMap(h), p[j]), c, p[j + 1]) <==> DeadEnd(r, p, j, c)
    {
      ChoiceArranged(g, p, j, c);
      assert At(AdjacencyMap(h), p[j]) == Targets(NodeIds(h.nodes), h.edges, p[j]);
    }
  }

  lemma ChoiceArranged(g: Graph, p: seq<Uuid>, j: nat, c: Uuid)
    requires IsWalk(Links(g), p) && NoDuplicates(p) && j < |p| - 1 && (p[j], c) in Links(g)
    ensures Earlier(Targets(NodeIds(g.nodes), Arranged(g.edges, DeadLinks(Links(g), p), LinksAlong(Links(g), p)), p[j]), c, p[j + 1])
      <==> DeadEnd(Links(g), p, j, c)
  {
    var r := Links(g);
    assert (p[j], p[j + 1]) in r;
    LinksAt(r, p, j, c);
    LinksAt(r, p, j, p[j + 1]);
    NextIsNotDead(r, p, j);
    LinkIsTarget(g, p[j], c);
    LinkIsTarget(g, p[j], p[j + 1]);
    if DeadEnd(r, p, j, c) {
      ArrangedFirst(NodeIds(g.nodes), g.edges, DeadLinks(r, p), LinksAlong(r, p), p[j], c, p[j + 1]);
    } else if c != p[j + 1] {
      ArrangedLast(NodeIds(g.nodes), g.edges, DeadLinks(r, p), LinksAlong(r, p), p[j], c, p[j + 1]);
    } else {
      NotEarlierThanItself(Targets(NodeIds(g.nodes), Arranged(g.edges, DeadLinks(r, p), LinksAlong(r, p)), p[j]), c);
    }
  }

  lemma NotEarlierThanItself(ns: seq<Uuid>, v: Uuid)
    ensures !Earlier(ns, v, v)
  {
    forall i | 0 <= i < |ns| && ns[i] == v ensures v in ns[..i + 1] { assert ns[..i + 1][i] == v; }
  }

  // ----- the exact condition

  /** An evading path ends at u. */
  ghost predicate EndsEvading(r: Relation, u: Uuid) {
    exists p :: Evading(r, p) && p[|p| - 1] == u
  }

  /** However its nodes and edges are listed, g's node u is reported. */
  ghost predicate ReportedInEveryOrder(g: Graph, u: Uuid) {
    forall h :: SameGraph(g, h) ==> OnReportedLoop(h, u)
  }

  lemma UnreportedIsEvading(g: Graph, h: Graph, u: Uuid)
    requires SameGraph(g, h) && u in NodeIds(g.nodes) && !OnReportedLoop(h, u)
    ensures EndsEvading(Links(g), u)
  {
    SameGraphLinks(g, h);
    GraphLinks(h);
    var n :| n in h.nodes && n.id == u;
    assert WalkBetween(Links(h), [u], u, u);
    var p := FirstPathExists(AdjacencyMap(h), h.nodes, n, u);
    UnloopedIsEvading(AdjacencyMap(h), h.nodes, p);
  }

  lemma EvadingIsMissed(g: Graph, p: seq<Uuid>) returns (h: Graph)
    requires Evading(Links(g), p) && p[0] in NodeIds(g.nodes)
    ensures SameGraph(g, h) && !OnReportedLoop(h, p[|p| - 1])
  {
    h := OrderFor(g, p);
    SameGraphLinks(g, h);
    GraphLinks(h);
    SameMembers(g.nodes, h.nodes);
    EvadingUnlooped(AdjacencyMap(h), h.nodes, p);
  }

  lemma WalkStartsInGraph(g: Graph, p: seq<Uuid>)
    requires IsWalk(Links(g), p) && p[|p| - 1] in NodeIds(g.nodes)
    ensures p[0] in NodeIds(g.nodes)
  {
    if |p| > 1 { assert (p[0], p[1]) in Links(g); }
  }

  /** A node is reported in every order of the rows exactly if no evading path ends at it. */
  lemma ReportedIffNotEvaded(g: Graph, u: Uuid)
    requires u in NodeIds(g.nodes)
    ensures ReportedInEveryOrder(g, u) <==> !EndsEvading(Links(g), u)
  {
    if EndsEvading(Links(g), u) {
      var p :| Evading(Links(g), p) && p[|p| - 1] == u;
      WalkStartsInGraph(g, p);
      var h := EvadingIsMissed(g, p);
    } else {
      forall h | SameGraph(g, h) ensures OnReportedLoop(h, u) {
        if !OnReportedLoop(h, u) { UnreportedIsEvading(g, h, u); }
      }
    }
  }

  /** Every node of every cycle is reported in every order exactly if no evading path ends on a cycle. */
  lemma CyclesReportedIff(g: Graph)
    ensures (forall h: Graph, u: Uuid :: SameGraph(g, h) && OnCycle(Links(g), u) ==> OnReportedLoop(h, u)) <==>
      forall u: Uuid :: OnCycle(Links(g), u) ==> !EndsEvading(Links(g), u)
  {
    forall u: Uuid | OnCycle(Links(g), u) ensures ReportedInEveryOrder(g, u) <==> !EndsEvading(Links(g), u) {
      CycleInGraph(g, u);
      ReportedIffNotEvaded(g, u);
    }
    if forall h: Graph, u: Uuid :: SameGraph(g, h) && OnCycle(Links(g), u) ==> OnReportedLoop(h, u) {
      forall u: Uuid | OnCycle(Links(g), u) ensures !EndsEvading(Links(g), u) { assert ReportedInEveryOrder(g, u); }
    }
  }
}
