/**
  The validator reports about a clone exactly what it reports about the source: each
  issue once, at the renamed node. For the cycle issues this is because the depth-first
  search of the clone runs in step with that of the source.
*/
module CloneReports {
  import opened Domain
  import opened Distinct
  import opened CycleSearch
  import opened PublishRules
  import opened GraphValidation
  import opened Cloning

  /** Under the renaming, the neighbours of u in adj are those of names[u] in adj', in order. */
  ghost predicate NeighboursAgree(names: map<Uuid, Uuid>, adj: Adjacency, adj': Adjacency) {
    forall u {:trigger At(adj, u)} :: u in names ==> ListsAgree(names, At(adj, u), At(adj', names[u]))
  }

  ghost predicate ListsAgree(names: map<Uuid, Uuid>, a: seq<Uuid>, b: seq<Uuid>) {
    |a| == |b| && forall i :: 0 <= i < |a| ==> a[i] in names && b[i] == names[a[i]]
  }

  ghost predicate ColorsAgree(names: map<Uuid, Uuid>, a: map<Uuid, Color>, b: map<Uuid, Color>) {
    forall u {:trigger ColorOf(a, u)} :: u in names ==> ColorOf(a, u) == ColorOf(b, names[u])
  }

  ghost predicate StacksAgree(names: map<Uuid, Uuid>, a: seq<Frame>, b: seq<Frame>) {
    |a| == |b| && forall k :: 0 <= k < |a| ==> a[k].node in names && b[k] == Frame(names[a[k].node], a[k].next)
  }

  ghost predicate FlagsAgree(names: map<Uuid, Uuid>, a: set<Uuid>, b: set<Uuid>) {
    forall u :: u in names ==> (u in a <==> names[u] in b)
  }

  /** State t of one search is state s of the other, renamed. */
  ghost predicate InStep(names: map<Uuid, Uuid>, s: Search, t: Search) {
    ColorsAgree(names, s.color, t.color) && StacksAgree(names, s.stack, t.stack) && FlagsAgree(names, s.inCycle, t.inCycle)
  }

  // ----- one pass

  lemma ColorInStep(names: map<Uuid, Uuid>, a: map<Uuid, Color>, b: map<Uuid, Color>, u: Uuid, c: Color)
    requires Injective(names) && u in names && ColorsAgree(names, a, b)
    ensures ColorsAgree(names, a[u := c], b[names[u] := c])
  {
    forall v | v in names ensures ColorOf(a[u := c], v) == ColorOf(b[names[u] := c], names[v]) {
      assert ColorOf(a, v) == ColorOf(b, names[v]);
    }
  }

  lemma {:induction false} FlagDownInStep(names: map<Uuid, Uuid>, a: seq<Frame>, b: seq<Frame>, next: Uuid)
    requires Injective(names) && next in names && StacksAgree(names, a, b)
    ensures FlagsAgree(names, FlagDown(a, next), FlagDown(b, names[next]))
  {
    if a != [] { FlagDownInStep(names, a[..|a| - 1], b[..|b| - 1], next); }
  }

  lemma SteppedInStep(names: map<Uuid, Uuid>, s: Search, t: Search)
    requires s.stack != [] && t.stack != [] && StacksAgree(names, s.stack, t.stack)
    ensures StacksAgree(names, Stepped(s), Stepped(t))
  {
  }

  lemma StepInStep(names: map<Uuid, Uuid>, adj: Adjacency, adj': Adjacency, s: Search, t: Search)
    requires Injective(names) && NeighboursAgree(names, adj, adj') && InStep(names, s, t)
    ensures InStep(names, Step(adj, s), Step(adj', t))
  {
    if s.stack != [] {
      var u := Top(s).node;
      assert u in names && Top(t) == Frame(names[u], Top(s).next);
      assert ListsAgree(names, At(adj, u), At(adj', names[u]));
      if Top(s).next >= |At(adj, u)| {
        ColorInStep(names, s.color, t.color, u, Black);
      } else {
        var next := At(adj, u)[Top(s).next];
        assert ColorOf(s.color, next) == ColorOf(t.color, names[next]);
        SteppedInStep(names, s, t);
        ColorInStep(names, s.color, t.color, next, Grey);
        FlagDownInStep(names, s.stack, t.stack, next);
      }
    }
  }

  // ----- whole searches

  /** What StepInStep gives for every pair of states, as one hypothesis. */
  ghost predicate StepsAgree(names: map<Uuid, Uuid>, adj: Adjacency, adj': Adjacency) {
    forall s, t {:trigger InStep(names, s, t), Step(adj, s), Step(adj', t)} ::
      InStep(names, s, t) ==> InStep(names, Step(adj, s), Step(adj', t))
  }

  lemma {:induction false} StepsInStep(names: map<Uuid, Uuid>, adj: Adjacency, adj': Adjacency, s: Search, t: Search, n: nat)
    requires StepsAgree(names, adj, adj') && InStep(names, s, t)
    ensures InStep(names, Steps(adj, s, n), Steps(adj', t, n))
  {
    if n > 0 { StepsInStep(names, adj, adj', s, t, n - 1); }
  }

  lemma FinishInStep(names: map<Uuid, Uuid>, adj: Adjacency, adj': Adjacency, s: Search, t: Search, s': Search, t': Search)
    requires Injective(names) && NeighboursAgree(names, adj, adj') && InStep(names, s, t)
    requires Finishes(adj, s, s') && Finishes(adj', t, t')
    ensures InStep(names, s', t')
  {
    var n: nat :| Steps(adj, s, n) == s';
    forall r, q | InStep(names, r, q) ensures InStep(names, Step(adj, r), Step(adj', q)) {
      StepInStep(names, adj, adj', r, q);
    }
    StepsInStep(names, adj, adj', s, t, n);
    assert LeadsTo(adj', t, Steps(adj', t, n));
    FinishesOnce(adj', t, t', Steps(adj', t, n));
  }

  lemma VisitInStep(names: map<Uuid, Uuid>, adj: Adjacency, adj': Adjacency, start: Uuid, s: Search, t: Search, s': Search, t': Search)
    requires Injective(names) && NeighboursAgree(names, adj, adj') && InStep(names, s, t) && start in names
    requires Visits(adj, start, s, s') && Visits(adj', names[start], t, t')
    ensures InStep(names, s', t')
  {
    assert ColorOf(s.color, start) == ColorOf(t.color, names[start]);
    if ColorOf(s.color, start) == White {
      ColorInStep(names, s.color, t.color, start, Grey);
      FinishInStep(names, adj, adj', Entered(s, start), Entered(t, names[start]), s', t');
    }
  }

  /** The nodes of b are those of a, renamed. */
  ghost predicate NodesAgree(names: map<Uuid, Uuid>, a: seq<Node>, b: seq<Node>) {
    |a| == |b| && forall i :: 0 <= i < |a| ==> a[i].id in names && b[i].id == names[a[i].id]
  }

  lemma {:induction false} SearchesInStep(names: map<Uuid, Uuid>, adj: Adjacency, adj': Adjacency, a: seq<Node>, b: seq<Node>, s: Search, t: Search)
    requires Injective(names) && NeighboursAgree(names, adj, adj') && NodesAgree(names, a, b)
    requires Searches(adj, a, s) && Searches(adj', b, t)
    ensures InStep(names, s, t)
    decreases |a|
  {
    if a != [] {
      var n := |a| - 1;
      assert SearchesThen(adj, a[..n], a[n].id, s) && SearchesThen(adj', b[..n], b[n].id, t);
      var r :| Searches(adj, a[..n], r) && Visits(adj, a[n].id, r, s);
      var q :| Searches(adj', b[..n], q) && Visits(adj', b[n].id, q, t);
      SearchesInStep(names, adj, adj', a[..n], b[..n], r, q);
      VisitInStep(names, adj, adj', a[n].id, r, q, s, t);
    }
  }

  // ----- copies of graphs

  ghost predicate EdgesAgree(names: map<Uuid, Uuid>, ids: set<Uuid>, ids': set<Uuid>, a: seq<Edge>, b: seq<Edge>) {
    |a| == |b| && forall i :: 0 <= i < |a| ==> EdgeCopied(a[i], b[i], names) && Resolves(ids, a[i]) && Resolves(ids', b[i])
  }

  lemma {:induction false} TargetsAgree(names: map<Uuid, Uuid>, ids: set<Uuid>, ids': set<Uuid>, a: seq<Edge>, b: seq<Edge>, u: Uuid)
    requires Injective(names) && u in names && EdgesAgree(names, ids, ids', a, b)
    ensures ListsAgree(names, Targets(ids, a, u), Targets(ids', b, names[u]))
    decreases |a|
  {
    if a != [] {
      var n := |a| - 1;
      TargetsAgree(names, ids, ids', a[..n], b[..n], u);
      assert EdgeCopied(a[n], b[n], names);
      assert ListsAgree(names, TargetOf(ids, a[n], u), TargetOf(ids', b[n], names[u]));
    }
  }

  lemma CopyNeighbours(src: Graph, dst: Graph, names: map<Uuid, Uuid>, adj: Adjacency, adj': Adjacency)
    requires IsCopy(src, dst, names) && AdjacencyFor(src, adj) && AdjacencyFor(dst, adj')
    ensures NeighboursAgree(names, adj, adj')
  {
    var ids, ids' := NodeIds(src.nodes), NodeIds(dst.nodes);
    forall i | 0 <= i < |src.edges|
      ensures EdgeCopied(src.edges[i], dst.edges[i], names) && Resolves(ids, src.edges[i]) && Resolves(ids', dst.edges[i])
    {
      assert src.edges[i] in src.edges && dst.edges[i] in dst.edges;
    }
    forall u | u in names ensures ListsAgree(names, At(adj, u), At(adj', names[u])) {
      TargetsAgree(names, ids, ids', src.edges, dst.edges, u);
    }
  }

  /** The searches of a graph and of its copy mark the same nodes. */
  lemma CopyMarks(src: Graph, dst: Graph, names: map<Uuid, Uuid>, flagged: set<Uuid>, flagged': set<Uuid>)
    requires IsCopy(src, dst, names) && CyclesMarked(src, flagged) && CyclesMarked(dst, flagged')
    ensures FlagsAgree(names, flagged, flagged')
  {
    var adj :| AdjacencyFor(src, adj) && Flagged(adj, src.nodes, flagged);
    var adj' :| AdjacencyFor(dst, adj') && Flagged(adj', dst.nodes, flagged');
    var s :| Searches(adj, src.nodes, s) && s.inCycle == flagged;
    var t :| Searches(adj', dst.nodes, t) && t.inCycle == flagged';
    CopyNeighbours(src, dst, names, adj, adj');
    SearchesInStep(names, adj, adj', src.nodes, dst.nodes, s, t);
  }

  // ----- reports

  /** What Validate promises about its report on a graph with unique ids. */
  ghost predicate IsReport(g: Graph, issues: seq<Issue>) {
    && ListsViolations(g, issues) && NoDuplicates(issues)
    && exists flagged :: CycleIssuesAre(g, issues, flagged)
  }

  /** What is wrong with a reference-closed graph names only its nodes. */
  lemma IssueNamed(g: Graph, issues: seq<Issue>, i: Issue)
    requires IsReport(g, issues) && ReferenceClosed(g) && i in issues
    ensures i.edgeId == None && (i.nodeId.Some? ==> i.nodeId.value in NodeIds(g.nodes))
  {
    if i.reason != CycleDetected { assert Violates(g, i); }
  }

  lemma IssueInCopy(src: Graph, dst: Graph, names: map<Uuid, Uuid>, issues: seq<Issue>, issues': seq<Issue>, i: Issue)
    requires IsCopy(src, dst, names) && IsReport(src, issues) && IsReport(dst, issues') && i in issues
    ensures RenameIssue(names, i) in issues' && (i.nodeId.Some? ==> i.nodeId.value in names)
  {
    IssueNamed(src, issues, i);
    if i.reason == CycleDetected {
      var flagged :| CycleIssuesAre(src, issues, flagged);
      var flagged' :| CycleIssuesAre(dst, issues', flagged');
      CopyMarks(src, dst, names, flagged, flagged');
      assert names[i.nodeId.value] in names.Values;
    } else {
      CopyViolates(src, dst, names, i);
    }
  }

  function RenameAll(names: map<Uuid, Uuid>, issues: seq<Issue>): seq<Issue> {
    seq(|issues|, k requires 0 <= k < |issues| => RenameIssue(names, issues[k]))
  }

  lemma RenamedDistinct(src: Graph, dst: Graph, names: map<Uuid, Uuid>, issues: seq<Issue>)
    requires IsCopy(src, dst, names) && IsReport(src, issues)
    ensures NoDuplicates(RenameAll(names, issues))
  {
    var r := RenameAll(names, issues);
    forall i, j | 0 <= i < j < |r| ensures r[i] != r[j] {
      IssueNamed(src, issues, issues[i]);
      IssueNamed(src, issues, issues[j]);
    }
  }

  /** The report on a clone is the report on its source, at the renamed nodes. */
  lemma CopyReport(src: Graph, dst: Graph, names: map<Uuid, Uuid>, issues: seq<Issue>, issues': seq<Issue>)
    requires IsCopy(src, dst, names) && IsReport(src, issues) && IsReport(dst, issues')
    ensures multiset(issues') == multiset(RenameAll(names, issues))
  {
    var r := RenameAll(names, issues);
    CopySymmetric(src, dst, names);
    InverseInverts(names);
    forall x ensures x in r <==> x in issues' {
      if x in r {
        var k :| 0 <= k < |r| && r[k] == x;
        IssueInCopy(src, dst, names, issues, issues', issues[k]);
      }
      if x in issues' {
        IssueInCopy(dst, src, Inverse(names), issues', issues, x);
        var y := RenameIssue(Inverse(names), x);
        var k :| 0 <= k < |issues| && issues[k] == y;
        assert r[k] == x;
      }
    }
    RenamedDistinct(src, dst, names, issues);
    SameElements(r, issues');
  }
}
