/**
  detectCycles (internal/domain/playbook/graph.go): an iterative depth-first search
  with an explicit stack and three colours.

  A node is flagged when a link from the top of the stack closes a loop over the stack
  while the node is on it. What that comes to, without the search: a node is flagged
  exactly when it is on a loop that a link closes over the first path to some node.
*/
module CycleDetection {
  import opened Domain
  import opened CycleSearch
  import opened Digraph
  import opened SearchHistory
  import opened SearchPaths

  ghost predicate ClosedIn(ids: set<Uuid>, adj: Adjacency) {
    forall u, i :: 0 <= i < |At(adj, u)| ==> At(adj, u)[i] in ids
  }

  // ----- the invariant of the search

  /** From k on, this path is flagged. */
  ghost predicate TailFlagged(flagged: set<Uuid>, p: seq<Uuid>, k: nat) {
    forall i :: k <= i < |p| ==> p[i] in flagged
  }

  /** Node v is on the path p to some node, flagged from there on. */
  ghost predicate BackInto(flagged: set<Uuid>, p: seq<Uuid>, v: Uuid) {
    exists k :: 0 <= k < |p| && p[k] == v && TailFlagged(flagged, p, k)
  }

  /** The edge u -> v needs no more attention: it closed a loop that is flagged, or v finished before u. */
  ghost predicate Settled(flagged: set<Uuid>, h: History, u: Uuid, v: Uuid) {
    || BackInto(flagged, PathTo(h, u), v)
    || (v in h.rank && (u in h.rank ==> h.rank[v] < h.rank[u]))
  }

  /** Colours and finishing ranks agree: black is ranked, and nothing is recorded as white. */
  ghost predicate ColorShape(ids: set<Uuid>, color: map<Uuid, Color>, rank: map<Uuid, nat>) {
    && color.Keys <= ids
    && (forall u :: u in color ==> color[u] != White)
    && (forall u :: ColorOf(color, u) == Black <==> u in rank)
    && (forall u :: u in rank ==> rank[u] < |rank|)
  }

  /** The stack holds each grey node once, and spells a walk. */
  ghost predicate StackShape(adj: Adjacency, color: map<Uuid, Color>, stack: seq<Frame>) {
    && (forall k :: 0 <= k < |stack| ==> ColorOf(color, stack[k].node) == Grey)
    && (forall u {:trigger OnStack(stack, u)} :: ColorOf(color, u) == Grey ==> OnStack(stack, u))
    && (forall i, j :: 0 <= i < j < |stack| ==> stack[i].node != stack[j].node)
    && (forall k :: 0 <= k < |stack| ==> stack[k].next <= |At(adj, stack[k].node)|)
    && (forall k :: 0 <= k < |stack| - 1 ==> EntersNext(adj, stack, k))
  }

  function StackNodes(stack: seq<Frame>): seq<Uuid> {
    seq(|stack|, k requires 0 <= k < |stack| => stack[k].node)
  }

  /** Each node of the stack was discovered along the stack below it. */
  ghost predicate PathsFit(color: map<Uuid, Color>, stack: seq<Frame>, h: History) {
    && h.path.Keys == color.Keys
    && forall k :: 0 <= k < |stack| ==> PathTo(h, stack[k].node) == StackNodes(stack)[..k + 1]
  }

  ghost predicate Shape(ids: set<Uuid>, adj: Adjacency, s: Search, h: History) {
    ColorShape(ids, s.color, h.rank) && StackShape(adj, s.color, s.stack) && PathsFit(s.color, s.stack, h)
  }

  ghost predicate OnStack(stack: seq<Frame>, u: Uuid) {
    exists k :: 0 <= k < |stack| && stack[k].node == u
  }

  ghost predicate EntersNext(adj: Adjacency, stack: seq<Frame>, k: nat)
    requires k + 1 < |stack|
  {
    var f := stack[k];
    1 <= f.next <= |At(adj, f.node)| && At(adj, f.node)[f.next - 1] == stack[k + 1].node
  }

  /** The first n edges out of u are settled. */
  ghost predicate EdgesSettled(adj: Adjacency, u: Uuid, n: int, flagged: set<Uuid>, h: History) {
    forall i :: 0 <= i < n && i < |At(adj, u)| ==> Settled(flagged, h, u, At(adj, u)[i])
  }

  /** How many edges of frame k are fully explored: a lower frame is still inside its last one. */
  ghost function Finished(stack: seq<Frame>, k: nat): int
    requires k < |stack|
  {
    if k == |stack| - 1 then stack[k].next else stack[k].next - 1
  }

  ghost predicate Explored(adj: Adjacency, stack: seq<Frame>, flagged: set<Uuid>, h: History) {
    && (forall u {:trigger EdgesSettled(adj, u, |At(adj, u)|, flagged, h)} ::
          u in h.rank ==> EdgesSettled(adj, u, |At(adj, u)|, flagged, h))
    && (forall k :: 0 <= k < |stack| ==> EdgesSettled(adj, stack[k].node, Finished(stack, k), flagged, h))
  }

  /** A link from the end of some discovered path closes a loop through u. */
  ghost predicate Looped(adj: Adjacency, h: History, u: Uuid) {
    exists w :: w in h.path && ClosesLoop(LinksOf(adj), PathTo(h, w), u)
  }

  /** Every flagged node is on such a loop. */
  ghost predicate FlagsLooped(adj: Adjacency, h: History, flagged: set<Uuid>) {
    forall u :: u in flagged ==> Looped(adj, h, u)
  }

  /** Every flagged node is on a cycle. */
  ghost predicate FlagsSound(r: Relation, flagged: set<Uuid>) {
    forall u {:trigger OnCycle(r, u)} :: u in flagged ==> OnCycle(r, u)
  }

  ghost predicate HasFlaggedEdge(p: seq<Uuid>, flagged: set<Uuid>) {
    exists k :: 0 <= k < |p| - 1 && p[k] in flagged && p[k + 1] in flagged
  }

  /** Every cycle has an edge with both ends flagged. */
  ghost predicate FlagsComplete(r: Relation, flagged: set<Uuid>) {
    forall p :: IsCycle(r, p) ==> HasFlaggedEdge(p, flagged)
  }

  /** Some repetition-free cycle through the link (w, v) is flagged all round. */
  ghost predicate FlaggedRound(r: Relation, flagged: set<Uuid>, w: Uuid, v: Uuid) {
    exists q :: SimpleCycle(r, q) && q[0] == w && q[1] == v && forall x :: x in q ==> x in flagged
  }

  /** Every cycle shares a link with a repetition-free cycle that is flagged all round. */
  ghost predicate FlagsRound(r: Relation, flagged: set<Uuid>) {
    forall p {:trigger HasRound(r, flagged, p)} :: IsCycle(r, p) ==> HasRound(r, flagged, p)
  }

  ghost predicate HasRound(r: Relation, flagged: set<Uuid>, p: seq<Uuid>) {
    exists k :: RoundAt(r, flagged, p, k)
  }

  ghost predicate RoundAt(r: Relation, flagged: set<Uuid>, p: seq<Uuid>, k: int) {
    0 <= k < |p| - 1 && FlaggedRound(r, flagged, p[k], p[k + 1])
  }

  /** What the search maintains. */
  ghost predicate OnCourse(ids: set<Uuid>, adj: Adjacency, nodes: seq<Node>, s: Search, h: History) {
    && Shape(ids, adj, s, h) && HistoryOk(adj, nodes, h)
    && Explored(adj, s.stack, s.inCycle, h) && FlagsLooped(adj, h, s.inCycle)
  }

  /** The top frame still has an edge to follow. */
  ghost predicate AtEdge(adj: Adjacency, s: Search) {
    s.stack != [] && Top(s).next < |At(adj, Top(s).node)|
  }

  /** Where that edge leads. */
  ghost function Ahead(adj: Adjacency, s: Search): Uuid
    requires AtEdge(adj, s)
  {
    At(adj, Top(s).node)[Top(s).next]
  }

  /** How much the search has left to do on the frame at the top of its stack. */
  function TopLeft(adj: Adjacency, stack: seq<Frame>): int {
    if |stack| > 0 then |At(adj, stack[|stack| - 1].node)| - stack[|stack| - 1].next else 0
  }

  /** One pass got on: a node was coloured, or a frame was popped, or an edge was passed. */
  ghost predicate Progress(ids: set<Uuid>, adj: Adjacency, s: Search, t: Search) {
    || (ids - t.color.Keys < ids - s.color.Keys)
    || (s.color.Keys == t.color.Keys && |t.stack| < |s.stack|)
    || (s.color.Keys == t.color.Keys && |t.stack| == |s.stack| && TopLeft(adj, t.stack) < TopLeft(adj, s.stack))
  }

  // ----- one lemma per branch of the loop body

  lemma NothingGrey(adj: Adjacency, color: map<Uuid, Color>)
    requires StackShape(adj, color, [])
    ensures forall u :: ColorOf(color, u) != Grey
  {
    forall u ensures ColorOf(color, u) != Grey { assert !OnStack([], u); }
  }

  /** Edges that were settled stay settled when another node is discovered. */
  lemma SettledAfterDiscovery(adj: Adjacency, u: Uuid, n: int, flagged: set<Uuid>, h: History, p: seq<Uuid>, v: Uuid)
    requires EdgesSettled(adj, u, n, flagged, h) && u != v
    ensures EdgesSettled(adj, u, n, flagged, Discover(h, p, v))
  {
    assert PathTo(Discover(h, p, v), u) == PathTo(h, u);
  }

  lemma LoopedAfterDiscovery(adj: Adjacency, flagged: set<Uuid>, h: History, p: seq<Uuid>, v: Uuid)
    requires FlagsLooped(adj, h, flagged) && v !in h.path
    ensures FlagsLooped(adj, Discover(h, p, v), flagged)
  {
    var h' := Discover(h, p, v);
    forall u | u in flagged ensures Looped(adj, h', u) {
      assert Looped(adj, h, u);
      var w :| w in h.path && ClosesLoop(LinksOf(adj), PathTo(h, w), u);
      assert PathTo(h', w) == PathTo(h, w);
    }
  }

  /** What had finished stays explored when v is discovered; frames are dealt with one by one. */
  lemma RankedAfterDiscovery(adj: Adjacency, stack: seq<Frame>, flagged: set<Uuid>, h: History, p: seq<Uuid>, v: Uuid)
    requires Explored(adj, stack, flagged, h) && v !in h.rank
    ensures forall u :: u in h.rank ==> EdgesSettled(adj, u, |At(adj, u)|, flagged, Discover(h, p, v))
  {
    forall u | u in h.rank ensures EdgesSettled(adj, u, |At(adj, u)|, flagged, Discover(h, p, v)) {
      assert EdgesSettled(adj, u, |At(adj, u)|, flagged, h);
      SettledAfterDiscovery(adj, u, |At(adj, u)|, flagged, h, p, v);
    }
  }

  lemma BeginShape(ids: set<Uuid>, adj: Adjacency, s: Search, h: History, start: Uuid)
    requires Shape(ids, adj, s, h) && s.stack == [] && start in ids && ColorOf(s.color, start) == White
    ensures Shape(ids, adj, Entered(s, start), Discover(h, [], start))
  {
    var t := Entered(s, start);
    NothingGrey(adj, s.color);
    forall u | ColorOf(t.color, u) == Grey ensures OnStack(t.stack, u) {
      assert ColorOf(s.color, u) != Grey;
      assert t.stack[0].node == start;
    }
  }

  lemma BeginAt(ids: set<Uuid>, adj: Adjacency, nodes: seq<Node>, s: Search, h: History, start: Uuid)
    requires OnCourse(ids, adj, nodes, s, h) && s.stack == [] && start in ids && ColorOf(s.color, start) == White
    requires Starts(nodes, h, [], start)
    ensures OnCourse(ids, adj, nodes, Entered(s, start), Discover(h, [], start))
  {
    BeginShape(ids, adj, s, h, start);
    NothingGrey(adj, s.color);
    DiscoverOk(adj, nodes, h, [], start);
    RankedAfterDiscovery(adj, [], s.inCycle, h, [], start);
    LoopedAfterDiscovery(adj, s.inCycle, h, [], start);
  }

  lemma StaysOnStack(stack: seq<Frame>, stack': seq<Frame>, u: Uuid)
    requires |stack| <= |stack'| && forall k :: 0 <= k < |stack| ==> stack'[k].node == stack[k].node
    requires OnStack(stack, u)
    ensures OnStack(stack', u)
  {
    var k :| 0 <= k < |stack| && stack[k].node == u;
    assert stack'[k].node == u;
  }

  // finishing the top of the stack

  lemma PopColors(ids: set<Uuid>, adj: Adjacency, s: Search, h: History)
    requires ColorShape(ids, s.color, h.rank) && StackShape(adj, s.color, s.stack) && s.stack != []
    ensures Top(s).node !in h.rank && Top(s).node in s.color && Popped(s).color.Keys == s.color.Keys
    ensures ColorShape(ids, Popped(s).color, Finish(h, Top(s).node).rank)
  {
    assert ColorOf(s.color, s.stack[|s.stack| - 1].node) == Grey;
  }

  lemma PopStack(adj: Adjacency, s: Search)
    requires StackShape(adj, s.color, s.stack) && s.stack != []
    ensures StackShape(adj, Popped(s).color, Popped(s).stack)
  {
    var t := Popped(s);
    forall u | ColorOf(t.color, u) == Grey ensures OnStack(t.stack, u) {
      assert ColorOf(s.color, u) == Grey;
      assert OnStack(s.stack, u);
      var k :| 0 <= k < |s.stack| && s.stack[k].node == u;
      assert t.stack[k].node == u;
    }
    forall k | 0 <= k < |t.stack| - 1 ensures EntersNext(adj, t.stack, k) {
      assert EntersNext(adj, s.stack, k);
    }
  }

  lemma PopPaths(s: Search, h: History)
    requires PathsFit(s.color, s.stack, h) && s.stack != [] && Top(s).node in s.color
    ensures PathsFit(Popped(s).color, Popped(s).stack, Finish(h, Top(s).node))
  {
    var t := Popped(s);
    forall k | 0 <= k < |t.stack| ensures PathTo(h, t.stack[k].node) == StackNodes(t.stack)[..k + 1] {
      assert StackNodes(s.stack)[..k + 1] == StackNodes(t.stack)[..k + 1];
    }
  }

  /** Nothing on the path to the top of the stack has finished. */
  lemma TopPath(ids: set<Uuid>, adj: Adjacency, s: Search, h: History)
    requires Shape(ids, adj, s, h) && s.stack != []
    ensures PathTo(h, Top(s).node) == StackNodes(s.stack)
    ensures Top(s).node in h.path
    ensures forall c :: c in StackNodes(s.stack) ==> c !in h.rank && c in h.path
  {
    var n := |s.stack|;
    assert StackNodes(s.stack)[n - 1] == Top(s).node;
    assert PathTo(h, s.stack[n - 1].node) == StackNodes(s.stack)[..n] == StackNodes(s.stack);
    forall c | c in StackNodes(s.stack) ensures c !in h.rank && c in h.path {
      var k :| 0 <= k < n && s.stack[k].node == c;
      assert ColorOf(s.color, s.stack[k].node) == Grey;
    }
  }

  lemma TopSettled(adj: Adjacency, s: Search, h: History)
    requires Explored(adj, s.stack, s.inCycle, h) && s.stack != [] && Top(s).next >= |At(adj, Top(s).node)|
    ensures EdgesSettled(adj, Top(s).node, |At(adj, Top(s).node)|, s.inCycle, h)
  {
    assert EdgesSettled(adj, s.stack[|s.stack| - 1].node, Finished(s.stack, |s.stack| - 1), s.inCycle, h);
  }

  /** Finishing last settles no less. */
  lemma StaysSettled(adj: Adjacency, u: Uuid, n: int, flagged: set<Uuid>, h: History, v: Uuid)
    requires EdgesSettled(adj, u, n, flagged, h) && v !in h.rank && RanksBounded(h)
    ensures EdgesSettled(adj, u, n, flagged, Finish(h, v))
  {
    var h' := Finish(h, v);
    forall i | 0 <= i < n && i < |At(adj, u)| ensures Settled(flagged, h', u, At(adj, u)[i]) {
      assert Settled(flagged, h, u, At(adj, u)[i]) && PathTo(h', u) == PathTo(h, u);
    }
  }

  /** The edges of frame k, below the top, that were finished before the top was popped. */
  lemma LowerSettled(adj: Adjacency, s: Search, h: History, k: nat)
    requires StackShape(adj, s.color, s.stack) && Explored(adj, s.stack, s.inCycle, h) && k < |s.stack| - 1
    requires s.stack[k].node !in h.rank && Top(s).node !in h.rank && RanksBounded(h)
    ensures EdgesSettled(adj, s.stack[k].node, Finished(Popped(s).stack, k), s.inCycle, Finish(h, Top(s).node))
  {
    assert EdgesSettled(adj, s.stack[k].node, Finished(s.stack, k), s.inCycle, h);
    StaysSettled(adj, s.stack[k].node, Finished(s.stack, k), s.inCycle, h, Top(s).node);
    assert EntersNext(adj, s.stack, k);
    assert s.stack[k].node != Top(s).node;
  }

  lemma PopExplored(ids: set<Uuid>, adj: Adjacency, s: Search, h: History)
    requires ColorShape(ids, s.color, h.rank) && StackShape(adj, s.color, s.stack) && Explored(adj, s.stack, s.inCycle, h)
    requires s.stack != [] && Top(s).next >= |At(adj, Top(s).node)| && Top(s).node !in h.rank && RanksBounded(h)
    ensures Explored(adj, Popped(s).stack, s.inCycle, Finish(h, Top(s).node))
  {
    var stack', h' := Popped(s).stack, Finish(h, Top(s).node);
    TopSettled(adj, s, h);
    forall u | u in h'.rank ensures EdgesSettled(adj, u, |At(adj, u)|, s.inCycle, h') {
      StaysSettled(adj, u, |At(adj, u)|, s.inCycle, h, Top(s).node);
    }
    forall k | 0 <= k < |stack'| ensures EdgesSettled(adj, stack'[k].node, Finished(stack', k), s.inCycle, h') {
      assert ColorOf(s.color, s.stack[k].node) == Grey;
      LowerSettled(adj, s, h, k);
    }
  }

  lemma PopLooped(adj: Adjacency, flagged: set<Uuid>, h: History, v: Uuid)
    requires FlagsLooped(adj, h, flagged)
    ensures FlagsLooped(adj, Finish(h, v), flagged)
  {
    forall u | u in flagged ensures Looped(adj, Finish(h, v), u) {
      assert Looped(adj, h, u);
      var w :| w in h.path && ClosesLoop(LinksOf(adj), PathTo(h, w), u);
      assert PathTo(Finish(h, v), w) == PathTo(h, w);
    }
  }

  /** The top frame has no edge left. */
  lemma PopKeeps(ids: set<Uuid>, adj: Adjacency, nodes: seq<Node>, s: Search, h: History)
    requires OnCourse(ids, adj, nodes, s, h) && s.stack != [] && Top(s).next >= |At(adj, Top(s).node)|
    ensures OnCourse(ids, adj, nodes, Popped(s), Finish(h, Top(s).node)) && Progress(ids, adj, s, Popped(s))
  {
    PopColors(ids, adj, s, h);
    PopStack(adj, s);
    PopPaths(s, h);
    HistoryBounds(adj, nodes, h);
    PopExplored(ids, adj, s, h);
    PopLooped(adj, s.inCycle, h, Top(s).node);
    TopPath(ids, adj, s, h);
    FinishOk(adj, nodes, h, Top(s).node);
  }

  // following an edge of the top of the stack

  lemma SteppedNodes(s: Search)
    requires s.stack != []
    ensures StackNodes(Stepped(s)) == StackNodes(s.stack)
  {
  }

  lemma AdvanceShape(ids: set<Uuid>, adj: Adjacency, s: Search, h: History)
    requires Shape(ids, adj, s, h) && AtEdge(adj, s)
    ensures StackShape(adj, s.color, Stepped(s)) && PathsFit(s.color, Stepped(s), h)
  {
    var stack' := Stepped(s);
    SteppedNodes(s);
    forall u | ColorOf(s.color, u) == Grey ensures OnStack(stack', u) {
      assert OnStack(s.stack, u);
      StaysOnStack(s.stack, stack', u);
    }
    forall k | 0 <= k < |stack'| - 1 ensures EntersNext(adj, stack', k) {
      assert EntersNext(adj, s.stack, k);
    }
  }

  /** More flags settle no less. */
  lemma FlagsSettle(adj: Adjacency, u: Uuid, n: int, flagged: set<Uuid>, flagged': set<Uuid>, h: History)
    requires EdgesSettled(adj, u, n, flagged, h) && flagged <= flagged'
    ensures EdgesSettled(adj, u, n, flagged', h)
  {
    forall i | 0 <= i < n && i < |At(adj, u)| ensures Settled(flagged', h, u, At(adj, u)[i]) {
      var v := At(adj, u)[i];
      assert Settled(flagged, h, u, v);
      if BackInto(flagged, PathTo(h, u), v) {
        var k :| 0 <= k < |PathTo(h, u)| && PathTo(h, u)[k] == v && TailFlagged(flagged, PathTo(h, u), k);
        assert TailFlagged(flagged', PathTo(h, u), k);
      }
    }
  }

  /** The edge stepped over leads to a settled node. */
  lemma AdvanceExplored(adj: Adjacency, s: Search, h: History, flagged: set<Uuid>)
    requires Explored(adj, s.stack, s.inCycle, h) && s.inCycle <= flagged && AtEdge(adj, s)
    requires Settled(flagged, h, Top(s).node, Ahead(adj, s))
    ensures Explored(adj, Stepped(s), flagged, h)
  {
    var stack' := Stepped(s);
    forall u | u in h.rank ensures EdgesSettled(adj, u, |At(adj, u)|, flagged, h) {
      FlagsSettle(adj, u, |At(adj, u)|, s.inCycle, flagged, h);
    }
    forall k | 0 <= k < |stack'| ensures EdgesSettled(adj, stack'[k].node, Finished(stack', k), flagged, h) {
      assert EdgesSettled(adj, s.stack[k].node, Finished(s.stack, k), s.inCycle, h);
      FrameSettled(adj, s, h, flagged, k);
    }
  }

  /** One frame, when the top frame steps over its next edge. */
  lemma FrameSettled(adj: Adjacency, s: Search, h: History, flagged: set<Uuid>, k: nat)
    requires AtEdge(adj, s) && k < |s.stack| && s.inCycle <= flagged
    requires EdgesSettled(adj, s.stack[k].node, Finished(s.stack, k), s.inCycle, h)
    requires Settled(flagged, h, Top(s).node, Ahead(adj, s))
    ensures EdgesSettled(adj, Stepped(s)[k].node, Finished(Stepped(s), k), flagged, h)
  {
    FlagsSettle(adj, s.stack[k].node, Finished(s.stack, k), s.inCycle, flagged, h);
    if k == |s.stack| - 1 {
      OneMoreSettled(adj, Top(s).node, Top(s).next, flagged, h);
    } else {
      assert Stepped(s)[k] == s.stack[k] && Finished(Stepped(s), k) == Finished(s.stack, k);
    }
  }

  lemma OneMoreSettled(adj: Adjacency, u: Uuid, n: nat, flagged: set<Uuid>, h: History)
    requires n < |At(adj, u)| && EdgesSettled(adj, u, n, flagged, h) && Settled(flagged, h, u, At(adj, u)[n])
    ensures EdgesSettled(adj, u, n + 1, flagged, h)
  {
    forall i | 0 <= i < n + 1 && i < |At(adj, u)| ensures Settled(flagged, h, u, At(adj, u)[i]) {
      assert i != n ==> i < n;
    }
  }

  lemma PassProgress(ids: set<Uuid>, adj: Adjacency, s: Search, flagged: set<Uuid>)
    requires AtEdge(adj, s)
    ensures Progress(ids, adj, s, Passed(s, flagged))
  {
  }

  /** A link from the top back to frame k closes a loop through every frame from k up. */
  lemma TopCloses(ids: set<Uuid>, adj: Adjacency, s: Search, h: History, k: nat, i: nat)
    requires Shape(ids, adj, s, h) && AtEdge(adj, s) && k <= i < |s.stack| && s.stack[k].node == Ahead(adj, s)
    ensures Looped(adj, h, s.stack[i].node)
  {
    TopPath(ids, adj, s, h);
    PathCloses(adj, s, h, k, i);
  }

  lemma PathCloses(adj: Adjacency, s: Search, h: History, k: nat, i: nat)
    requires AtEdge(adj, s) && k <= i < |s.stack| && s.stack[k].node == Ahead(adj, s)
    requires Top(s).node in h.path && PathTo(h, Top(s).node) == StackNodes(s.stack)
    ensures Looped(adj, h, s.stack[i].node)
  {
    var p := StackNodes(s.stack);
    AheadIsLink(adj, s);
    assert p[k] == Ahead(adj, s) && p[|p| - 1] == Top(s).node;
    ClosesAt(LinksOf(adj), p, k, i);
  }

  lemma AheadIsLink(adj: Adjacency, s: Search)
    requires AtEdge(adj, s)
    ensures (Top(s).node, Ahead(adj, s)) in LinksOf(adj)
  {
    LinksAre(adj, Top(s).node, Ahead(adj, s));
  }

  lemma ClosesAt(r: Relation, p: seq<Uuid>, k: nat, i: nat)
    requires k <= i < |p| && (p[|p| - 1], p[k]) in r
    ensures ClosesLoop(r, p, p[i])
  {
  }

  lemma TopSettles(ids: set<Uuid>, adj: Adjacency, s: Search, h: History, k: nat, flagged: set<Uuid>)
    requires Shape(ids, adj, s, h) && AtEdge(adj, s) && k < |s.stack| && s.stack[k].node == Ahead(adj, s)
    requires NodesAbove(s.stack, k) <= flagged
    ensures Settled(flagged, h, Top(s).node, Ahead(adj, s))
  {
    TopPath(ids, adj, s, h);
    var p := StackNodes(s.stack);
    forall i | k <= i < |p| ensures p[i] in flagged { assert s.stack[i].node in NodesAbove(s.stack, k); }
    assert p[k] == Ahead(adj, s) && TailFlagged(flagged, p, k);
  }

  /** A link from the top back to a frame flags the loop that it closes, and nothing else. */
  lemma BackEdgeFlags(ids: set<Uuid>, adj: Adjacency, s: Search, h: History, flagged: set<Uuid>)
    requires Shape(ids, adj, s, h) && AtEdge(adj, s) && FlagsLooped(adj, h, s.inCycle)
    requires FlagsFrom(s.stack, Ahead(adj, s), s.inCycle, flagged)
    ensures s.inCycle <= flagged && FlagsLooped(adj, h, flagged) && Settled(flagged, h, Top(s).node, Ahead(adj, s))
  {
    var k :| 0 <= k < |s.stack| && s.stack[k].node == Ahead(adj, s) && flagged == s.inCycle + NodesAbove(s.stack, k);
    forall u | u in flagged ensures Looped(adj, h, u) {
      if u !in s.inCycle {
        var i :| k <= i < |s.stack| && s.stack[i].node == u;
        TopCloses(ids, adj, s, h, k, i);
      }
    }
    TopSettles(ids, adj, s, h, k, flagged);
  }

  lemma FollowGrey(ids: set<Uuid>, adj: Adjacency, nodes: seq<Node>, s: Search, h: History, flagged: set<Uuid>)
    requires OnCourse(ids, adj, nodes, s, h) && AtEdge(adj, s) && FlagsFrom(s.stack, Ahead(adj, s), s.inCycle, flagged)
    ensures OnCourse(ids, adj, nodes, Passed(s, flagged), h) && Progress(ids, adj, s, Passed(s, flagged))
  {
    AdvanceShape(ids, adj, s, h);
    BackEdgeFlags(ids, adj, s, h, flagged);
    AdvanceExplored(adj, s, h, flagged);
    PassProgress(ids, adj, s, flagged);
  }

  lemma FollowBlack(ids: set<Uuid>, adj: Adjacency, nodes: seq<Node>, s: Search, h: History)
    requires OnCourse(ids, adj, nodes, s, h) && AtEdge(adj, s) && ColorOf(s.color, Ahead(adj, s)) == Black
    ensures OnCourse(ids, adj, nodes, Passed(s, s.inCycle), h) && Progress(ids, adj, s, Passed(s, s.inCycle))
  {
    AdvanceShape(ids, adj, s, h);
    assert ColorOf(s.color, s.stack[|s.stack| - 1].node) == Grey;
    AdvanceExplored(adj, s, h, s.inCycle);
    PassProgress(ids, adj, s, s.inCycle);
  }

  /** Descending into a white node. */
  lemma PushColors(ids: set<Uuid>, adj: Adjacency, s: Search, h: History)
    requires ColorShape(ids, s.color, h.rank) && ClosedIn(ids, adj) && AtEdge(adj, s) && ColorOf(s.color, Ahead(adj, s)) == White
    ensures Ahead(adj, s) in ids && Ahead(adj, s) !in s.color && ColorShape(ids, s.color[Ahead(adj, s) := Grey], h.rank)
  {
  }

  lemma PushStack(adj: Adjacency, s: Search)
    requires StackShape(adj, s.color, s.stack) && AtEdge(adj, s) && ColorOf(s.color, Ahead(adj, s)) == White
    ensures StackShape(adj, Pushed(s, Ahead(adj, s)).color, Pushed(s, Ahead(adj, s)).stack)
  {
    var v, n := Ahead(adj, s), |s.stack|;
    var t := Pushed(s, v);
    forall u | ColorOf(t.color, u) == Grey ensures OnStack(t.stack, u) {
      if u == v {
        assert t.stack[n].node == u;
      } else {
        assert ColorOf(s.color, u) == Grey;
        assert OnStack(s.stack, u);
        StaysOnStack(s.stack, t.stack, u);
      }
    }
    forall k | 0 <= k < |t.stack| - 1 ensures EntersNext(adj, t.stack, k) {
      if k < n - 1 { assert EntersNext(adj, s.stack, k); }
    }
  }

  lemma PushedNodes(s: Search, v: Uuid)
    requires s.stack != []
    ensures StackNodes(Pushed(s, v).stack) == StackNodes(s.stack) + [v]
  {
  }

  lemma PushPaths(s: Search, h: History, v: Uuid)
    requires PathsFit(s.color, s.stack, h) && s.stack != [] && v !in s.color && forall k :: 0 <= k < |s.stack| ==> s.stack[k].node != v
    ensures PathsFit(Pushed(s, v).color, Pushed(s, v).stack, Discover(h, StackNodes(s.stack), v))
  {
    var t, p := Pushed(s, v), StackNodes(s.stack);
    var h' := Discover(h, p, v);
    PushedNodes(s, v);
    forall k | 0 <= k < |t.stack| ensures PathTo(h', t.stack[k].node) == StackNodes(t.stack)[..k + 1] {
      if k < |s.stack| {
        assert PathTo(h, s.stack[k].node) == p[..k + 1] == (p + [v])[..k + 1];
      } else {
        assert (p + [v])[..k + 1] == p + [v];
      }
    }
  }

  lemma PushExplored(adj: Adjacency, s: Search, h: History, v: Uuid)
    requires Explored(adj, s.stack, s.inCycle, h) && s.stack != [] && v !in h.rank
    requires forall k :: 0 <= k < |s.stack| ==> s.stack[k].node != v
    ensures Explored(adj, Pushed(s, v).stack, s.inCycle, Discover(h, StackNodes(s.stack), v))
  {
    var stack', p := Pushed(s, v).stack, StackNodes(s.stack);
    var h' := Discover(h, p, v);
    RankedAfterDiscovery(adj, s.stack, s.inCycle, h, p, v);
    forall k | 0 <= k < |stack'| ensures EdgesSettled(adj, stack'[k].node, Finished(stack', k), s.inCycle, h') {
      if k < |s.stack| {
        assert EdgesSettled(adj, s.stack[k].node, Finished(s.stack, k), s.inCycle, h);
        SettledAfterDiscovery(adj, s.stack[k].node, Finished(s.stack, k), s.inCycle, h, p, v);
      }
    }
  }

  /** The neighbours before the edge at the top have been discovered. */
  lemma MetBefore(ids: set<Uuid>, adj: Adjacency, s: Search, h: History)
    requires Shape(ids, adj, s, h) && Explored(adj, s.stack, s.inCycle, h) && AtEdge(adj, s)
    ensures Meets(h, At(adj, Top(s).node), Ahead(adj, s))
  {
    var n := |s.stack| - 1;
    TopPath(ids, adj, s, h);
    var ns := At(adj, Top(s).node);
    assert EdgesSettled(adj, s.stack[n].node, Finished(s.stack, n), s.inCycle, h);
    forall i | 0 <= i < Top(s).next ensures ns[i] in h.path {
      assert Settled(s.inCycle, h, Top(s).node, ns[i]);
    }
    assert MeetsAt(h, ns, Ahead(adj, s), Top(s).next);
  }

  lemma StackHolds(ids: set<Uuid>, adj: Adjacency, s: Search, h: History, u: Uuid)
    requires Shape(ids, adj, s, h) && u in h.path && u !in h.rank
    ensures u in StackNodes(s.stack)
  {
    assert ColorOf(s.color, u) == Grey;
    assert OnStack(s.stack, u);
    var k :| 0 <= k < |s.stack| && s.stack[k].node == u;
    assert StackNodes(s.stack)[k] == u;
  }

  /** The stack is what is under way. */
  lemma StackUnderway(ids: set<Uuid>, adj: Adjacency, s: Search, h: History)
    requires Shape(ids, adj, s, h) && s.stack != []
    ensures Underway(h, StackNodes(s.stack))
  {
    StackDistinct(adj, s);
    StackTop(ids, adj, s, h);
    forall u | u in h.path && u !in h.rank ensures u in StackNodes(s.stack) { StackHolds(ids, adj, s, h, u); }
  }

  lemma StackDistinct(adj: Adjacency, s: Search)
    requires StackShape(adj, s.color, s.stack)
    ensures NoDuplicates(StackNodes(s.stack))
  {
  }

  lemma StackTop(ids: set<Uuid>, adj: Adjacency, s: Search, h: History)
    requires Shape(ids, adj, s, h) && s.stack != []
    ensures var p := StackNodes(s.stack); p != [] && PathTo(h, p[|p| - 1]) == p
  {
    TopPath(ids, adj, s, h);
  }

  lemma NotOnStack(ids: set<Uuid>, adj: Adjacency, s: Search, h: History, v: Uuid)
    requires Shape(ids, adj, s, h) && s.stack != [] && v !in h.path
    ensures v !in StackNodes(s.stack)
  {
    TopPath(ids, adj, s, h);
  }

  lemma EntersTop(ids: set<Uuid>, adj: Adjacency, s: Search, h: History)
    requires Shape(ids, adj, s, h) && Explored(adj, s.stack, s.inCycle, h) && AtEdge(adj, s)
    ensures StackNodes(s.stack) != [] && Enters(adj, h, StackNodes(s.stack), Ahead(adj, s))
  {
    MetBefore(ids, adj, s, h);
    var p := StackNodes(s.stack);
    assert p[|p| - 1] == Top(s).node;
  }

  lemma PushHistory(ids: set<Uuid>, adj: Adjacency, nodes: seq<Node>, s: Search, h: History)
    requires OnCourse(ids, adj, nodes, s, h) && AtEdge(adj, s) && ColorOf(s.color, Ahead(adj, s)) == White
    ensures HistoryOk(adj, nodes, Discover(h, StackNodes(s.stack), Ahead(adj, s)))
    ensures FlagsLooped(adj, Discover(h, StackNodes(s.stack), Ahead(adj, s)), s.inCycle)
  {
    var p, v := StackNodes(s.stack), Ahead(adj, s);
    assert v !in h.path;
    NotOnStack(ids, adj, s, h, v);
    EntersTop(ids, adj, s, h);
    StackUnderway(ids, adj, s, h);
    DiscoverOk(adj, nodes, h, p, v);
    LoopedAfterDiscovery(adj, s.inCycle, h, p, v);
  }

  lemma FollowWhite(ids: set<Uuid>, adj: Adjacency, nodes: seq<Node>, s: Search, h: History)
    requires ClosedIn(ids, adj) && OnCourse(ids, adj, nodes, s, h) && AtEdge(adj, s) && ColorOf(s.color, Ahead(adj, s)) == White
    ensures OnCourse(ids, adj, nodes, Pushed(s, Ahead(adj, s)), Discover(h, StackNodes(s.stack), Ahead(adj, s)))
    ensures Progress(ids, adj, s, Pushed(s, Ahead(adj, s)))
  {
    var v := Ahead(adj, s);
    PushColors(ids, adj, s, h);
    forall k | 0 <= k < |s.stack| ensures s.stack[k].node != v { assert ColorOf(s.color, s.stack[k].node) == Grey; }
    PushStack(adj, s);
    PushPaths(s, h, v);
    PushExplored(adj, s, h, v);
    PushHistory(ids, adj, nodes, s, h);
    assert Pushed(s, v).color.Keys == s.color.Keys + {v};
  }

  // ----- when everything has finished

  ghost predicate AllFinished(adj: Adjacency, nodes: seq<Node>, flagged: set<Uuid>, h: History) {
    && HistoryOk(adj, nodes, h) && Explored(adj, [], flagged, h) && FlagsLooped(adj, h, flagged)
    && h.path.Keys == h.rank.Keys == NodeIds(nodes) && ClosedIn(NodeIds(nodes), adj) && adj.Keys <= NodeIds(nodes)
  }

  lemma LinkSettled(adj: Adjacency, nodes: seq<Node>, flagged: set<Uuid>, h: History, u: Uuid, v: Uuid)
    requires AllFinished(adj, nodes, flagged, h) && (u, v) in LinksOf(adj)
    ensures u in h.rank && v in h.rank && (h.rank[v] < h.rank[u] || BackInto(flagged, PathTo(h, u), v))
  {
    var i :| 0 <= i < |At(adj, u)| && At(adj, u)[i] == v;
    assert EdgesSettled(adj, u, |At(adj, u)|, flagged, h);
    assert Settled(flagged, h, u, At(adj, u)[i]);
  }

  lemma FinishedIsComplete(adj: Adjacency, nodes: seq<Node>, flagged: set<Uuid>, h: History)
    requires AllFinished(adj, nodes, flagged, h)
    ensures Complete(adj, nodes, h)
  {
    forall u, v | (u, v) in LinksOf(adj) ensures u in h.rank && v in h.rank && (h.rank[v] < h.rank[u] || v in PathTo(h, u)) {
      LinkSettled(adj, nodes, flagged, h, u, v);
    }
    forall n | n in nodes ensures n.id in h.rank { assert n.id in NodeIds(nodes); }
  }

  /** A link back into the path to its source lies on a cycle that is flagged all round. */
  lemma BackIsRound(adj: Adjacency, nodes: seq<Node>, flagged: set<Uuid>, h: History, w: Uuid, v: Uuid)
    requires HistoryOk(adj, nodes, h) && w in h.path && (w, v) in LinksOf(adj) && BackInto(flagged, PathTo(h, w), v)
    ensures FlaggedRound(LinksOf(adj), flagged, w, v)
  {
    PathIsWalk(adj, nodes, h, w);
    ClosedTailIsRound(LinksOf(adj), flagged, PathTo(h, w), v);
  }

  lemma ClosedTailIsRound(r: Relation, flagged: set<Uuid>, p: seq<Uuid>, v: Uuid)
    requires IsWalk(r, p) && NoDuplicates(p) && (p[|p| - 1], v) in r && BackInto(flagged, p, v)
    ensures FlaggedRound(r, flagged, p[|p| - 1], v)
  {
    var w := p[|p| - 1];
    var k :| 0 <= k < |p| && p[k] == v && TailFlagged(flagged, p, k);
    ClosingIsSimple(r, p, k);
    TailAllFlagged(flagged, p, k);
    var q := [w] + p[k..];
    assert q[0] == w && q[1] == v;
  }

  lemma TailAllFlagged(flagged: set<Uuid>, p: seq<Uuid>, k: nat)
    requires k < |p| && TailFlagged(flagged, p, k)
    ensures forall x :: x in [p[|p| - 1]] + p[k..] ==> x in flagged
  {
    forall x | x in p[k..] ensures x in flagged {
      var i :| 0 <= i < |p[k..]| && p[k..][i] == x;
      assert p[k + i] == x;
    }
  }

  /** Every cycle has such a link: finishing times cannot fall all the way round. */
  lemma CycleHasBackLink(adj: Adjacency, nodes: seq<Node>, p: seq<Uuid>, flagged: set<Uuid>, h: History)
    requires AllFinished(adj, nodes, flagged, h) && IsCycle(LinksOf(adj), p)
    ensures HasRound(LinksOf(adj), flagged, p)
  {
    if !HasRound(LinksOf(adj), flagged, p) {
      RanksDecrease(adj, nodes, p, flagged, h, |p| - 1);
    }
  }

  lemma {:induction false} RanksDecrease(adj: Adjacency, nodes: seq<Node>, p: seq<Uuid>, flagged: set<Uuid>, h: History, n: nat)
    requires AllFinished(adj, nodes, flagged, h) && IsWalk(LinksOf(adj), p)
    requires !HasRound(LinksOf(adj), flagged, p)
    requires 1 <= n < |p|
    ensures p[0] in h.rank && p[n] in h.rank && h.rank[p[n]] < h.rank[p[0]]
  {
    var u, v := p[n - 1], p[n];
    assert (p[n - 1], p[n]) in LinksOf(adj) && !RoundAt(LinksOf(adj), flagged, p, n - 1);
    LinkSettled(adj, nodes, flagged, h, u, v);
    if BackInto(flagged, PathTo(h, u), v) { BackIsRound(adj, nodes, flagged, h, u, v); }
    if n > 1 {
      RanksDecrease(adj, nodes, p, flagged, h, n - 1);
    }
  }

  lemma RoundEnds(r: Relation, flagged: set<Uuid>, w: Uuid, v: Uuid)
    requires FlaggedRound(r, flagged, w, v)
    ensures w in flagged && v in flagged
  {
    var q :| SimpleCycle(r, q) && q[0] == w && q[1] == v && forall x :: x in q ==> x in flagged;
    assert q[0] in q && q[1] in q;
  }

  lemma RoundIsComplete(r: Relation, flagged: set<Uuid>)
    requires FlagsRound(r, flagged)
    ensures FlagsComplete(r, flagged)
  {
    forall p | IsCycle(r, p) ensures HasFlaggedEdge(p, flagged) {
      assert HasRound(r, flagged, p);
      var k :| RoundAt(r, flagged, p, k);
      RoundEnds(r, flagged, p[k], p[k + 1]);
    }
  }

  /** The flagged nodes are those on the loops that links close over first paths. */
  lemma FlagsAreLoops(adj: Adjacency, nodes: seq<Node>, flagged: set<Uuid>, h: History, u: Uuid)
    requires AllFinished(adj, nodes, flagged, h)
    ensures u in flagged <==> OnSearchLoop(adj, nodes, u)
  {
    FinishedIsComplete(adj, nodes, flagged, h);
    if u in flagged {
      assert Looped(adj, h, u);
      var w :| w in h.path && ClosesLoop(LinksOf(adj), PathTo(h, w), u);
      PathIsFirst(adj, nodes, h, w);
    }
    if OnSearchLoop(adj, nodes, u) {
      var p :| FirstPath(adj, nodes, p) && ClosesLoop(LinksOf(adj), p, u);
      LoopIsFlagged(adj, nodes, flagged, h, p, u);
    }
  }

  lemma LoopIsFlagged(adj: Adjacency, nodes: seq<Node>, flagged: set<Uuid>, h: History, p: seq<Uuid>, u: Uuid)
    requires AllFinished(adj, nodes, flagged, h) && Complete(adj, nodes, h)
    requires FirstPath(adj, nodes, p) && ClosesLoop(LinksOf(adj), p, u)
    ensures u in flagged
  {
    var w := p[|p| - 1];
    var k, i :| 0 <= k <= i < |p| && p[i] == u && (w, p[k]) in LinksOf(adj);
    LinkSettled(adj, nodes, flagged, h, w, p[k]);
    PathIsFirst(adj, nodes, h, w);
    FirstPathUnique(adj, nodes, p, PathTo(h, w));
    assert FinishedInOrder(h, w);
    NoRankUp(h, w, p[k]);
    TailHolds(flagged, p, k, i);
  }

  /** A node on the path to w does not finish before it. */
  lemma NoRankUp(h: History, w: Uuid, v: Uuid)
    requires w in h.rank && v in h.rank && FinishedInOrder(h, w) && v in PathTo(h, w)
    ensures h.rank[w] <= h.rank[v]
  {
  }

  lemma TailHolds(flagged: set<Uuid>, p: seq<Uuid>, k: nat, i: nat)
    requires NoDuplicates(p) && k <= i < |p| && BackInto(flagged, p, p[k])
    ensures p[i] in flagged
  {
    var j :| 0 <= j < |p| && p[j] == p[k] && TailFlagged(flagged, p, j);
    assert j == k;
  }

  /** A loop closed over a walk is a cycle through each of its nodes. */
  lemma LoopIsCycle(r: Relation, p: seq<Uuid>, u: Uuid)
    requires IsWalk(r, p) && ClosesLoop(r, p, u)
    ensures OnCycle(r, u)
  {
    var k, i :| 0 <= k <= i < |p| && p[i] == u && (p[|p| - 1], p[k]) in r;
    var q := p[k..] + [p[k]];
    forall x | 0 <= x < |q| - 1 ensures (q[x], q[x + 1]) in r {
      if x < |q| - 2 { assert (p[k + x], p[k + x + 1]) in r; }
    }
    CycleRotates(r, q, i - k);
  }

  lemma LoopedIsSound(adj: Adjacency, nodes: seq<Node>, flagged: set<Uuid>, h: History)
    requires HistoryOk(adj, nodes, h) && FlagsLooped(adj, h, flagged)
    ensures FlagsSound(LinksOf(adj), flagged)
  {
    forall u | u in flagged ensures OnCycle(LinksOf(adj), u) {
      assert Looped(adj, h, u);
      var w :| w in h.path && ClosesLoop(LinksOf(adj), PathTo(h, w), u);
      PathIsWalk(adj, nodes, h, w);
      LoopIsCycle(LinksOf(adj), PathTo(h, w), u);
    }
  }

  // ----- the search

  /** The nodes of the frames from k up to the top. */
  ghost function NodesAbove(stack: seq<Frame>, k: nat): set<Uuid> {
    set i | k <= i < |stack| :: stack[i].node
  }

  ghost predicate FlagsFrom(stack: seq<Frame>, next: Uuid, inCycle: set<Uuid>, flagged: set<Uuid>) {
    exists k :: 0 <= k < |stack| && stack[k].node == next && flagged == inCycle + NodesAbove(stack, k)
  }

  lemma {:induction false} FlagDownIs(stack: seq<Frame>, next: Uuid, k: nat)
    requires k < |stack| && stack[k].node == next && forall i :: k < i < |stack| ==> stack[i].node != next
    ensures FlagDown(stack, next) == NodesAbove(stack, k)
  {
    var rest := stack[..|stack| - 1];
    if k < |rest| {
      FlagDownIs(rest, next, k);
      assert NodesAbove(stack, k) == NodesAbove(rest, k) + {stack[|rest|].node};
    }
  }

  /** Flag the stack from the top down to the frame of next. */
  method FlagLoop(adj: Adjacency, stack: seq<Frame>, next: Uuid, inCycle: set<Uuid>) returns (flagged: set<Uuid>)
    requires OnStack(stack, next)
    requires forall i, j :: 0 <= i < j < |stack| ==> stack[i].node != stack[j].node
    ensures FlagsFrom(stack, next, inCycle, flagged)
    ensures flagged == inCycle + {next} + FlagDown(stack, next)
  {
    ghost var k :| 0 <= k < |stack| && stack[k].node == next;
    flagged := inCycle + {next};
    var i := |stack| - 1;
    while i >= 0
      invariant k <= i < |stack|
      invariant flagged == inCycle + {next} + NodesAbove(stack, i + 1)
      decreases i
    {
      flagged := flagged + {stack[i].node};
      assert NodesAbove(stack, i) == NodesAbove(stack, i + 1) + {stack[i].node};
      if stack[i].node == next {
        break;
      }
      i := i - 1;
    }
    assert i == k && stack[k].node in NodesAbove(stack, k);
    FlagDownIs(stack, next, k);
  }

  /** The body of the inner loop when the top frame still has edges. */
  method FollowEdge(ghost ids: set<Uuid>, adj: Adjacency, ghost nodes: seq<Node>, s: Search, ghost h0: History)
    returns (t: Search, ghost h: History)
    requires ClosedIn(ids, adj) && OnCourse(ids, adj, nodes, s, h0) && AtEdge(adj, s)
    ensures OnCourse(ids, adj, nodes, t, h) && t == Step(adj, s) && Progress(ids, adj, s, t)
    ensures h.rank == h0.rank && s.color.Keys <= t.color.Keys
  {
    var top := Top(s);
    var next := At(adj, top.node)[top.next];
    h := h0;
    match ColorOf(s.color, next) {
      case White =>
        FollowWhite(ids, adj, nodes, s, h0);
        t, h := Pushed(s, next), Discover(h0, StackNodes(s.stack), next);
      case Grey =>
        assert OnStack(s.stack, next);
        var flagged := FlagLoop(adj, s.stack, next, s.inCycle);
        FollowGrey(ids, adj, nodes, s, h0, flagged);
        t := Passed(s, flagged);
      case Black =>
        FollowBlack(ids, adj, nodes, s, h0);
        t := Passed(s, s.inCycle);
    }
  }

  /** One pass of the inner loop, in a search that began at s0. */
  method Pass(ghost ids: set<Uuid>, adj: Adjacency, ghost nodes: seq<Node>, ghost s0: Search, s: Search, ghost h0: History)
    returns (t: Search, ghost h: History)
    requires ClosedIn(ids, adj) && OnCourse(ids, adj, nodes, s, h0) && LeadsTo(adj, s0, s) && s.stack != []
    ensures OnCourse(ids, adj, nodes, t, h) && LeadsTo(adj, s0, t) && Progress(ids, adj, s, t)
    ensures s.color.Keys <= t.color.Keys
  {
    LeadsOn(adj, s0, s);
    if Top(s).next >= |At(adj, Top(s).node)| {
      PopKeeps(ids, adj, nodes, s, h0);
      t, h := Popped(s), Finish(h0, Top(s).node);
    } else {
      t, h := FollowEdge(ids, adj, nodes, s, h0);
    }
  }

  /** The inner loop of detectCycles: everything reachable from a white start. */
  method SearchFrom(ghost ids: set<Uuid>, adj: Adjacency, ghost nodes: seq<Node>, start: Uuid, s: Search, ghost h0: History)
    returns (t: Search, ghost h: History)
    requires ClosedIn(ids, adj) && start in ids && ColorOf(s.color, start) == White
    requires OnCourse(ids, adj, nodes, s, h0) && s.stack == [] && Starts(nodes, h0, [], start)
    ensures OnCourse(ids, adj, nodes, t, h) && Finishes(adj, Entered(s, start), t)
    ensures s.color.Keys + {start} <= t.color.Keys
  {
    t, h := Entered(s, start), Discover(h0, [], start);
    BeginAt(ids, adj, nodes, s, h0, start);
    LeadsToItself(adj, t);
    while |t.stack| > 0
      invariant OnCourse(ids, adj, nodes, t, h) && LeadsTo(adj, Entered(s, start), t)
      invariant s.color.Keys + {start} <= t.color.Keys
      decreases ids - t.color.Keys, |t.stack|, TopLeft(adj, t.stack)
    {
      t, h := Pass(ids, adj, nodes, Entered(s, start), t, h);
    }
  }

  /** With an empty stack, what has been coloured has finished. */
  lemma ColoredIsRanked(ids: set<Uuid>, adj: Adjacency, s: Search, h: History)
    requires Shape(ids, adj, s, h) && s.stack == []
    ensures s.color.Keys == h.rank.Keys == h.path.Keys
  {
    NothingGrey(adj, s.color);
    forall u | u in s.color ensures u in h.rank { assert ColorOf(s.color, u) != Grey; }
    forall u | u in h.rank ensures u in s.color { assert ColorOf(s.color, u) == Black; }
  }

  lemma NodeIdsGrow(nodes: seq<Node>, i: nat)
    requires i < |nodes|
    ensures NodeIds(nodes[..i + 1]) == NodeIds(nodes[..i]) + {nodes[i].id} <= NodeIds(nodes)
  {
    assert nodes[..i + 1] == nodes[..i] + [nodes[i]];
  }

  lemma StartsHere(ids: set<Uuid>, adj: Adjacency, nodes: seq<Node>, s: Search, h: History, i: nat)
    requires Shape(ids, adj, s, h) && s.stack == [] && i < |nodes| && NodeIds(nodes[..i]) <= s.color.Keys
    ensures Starts(nodes, h, [], nodes[i].id)
  {
    ColoredIsRanked(ids, adj, s, h);
    forall n | n in nodes[..i] ensures n.id in h.rank { assert n.id in NodeIds(nodes[..i]); }
  }

  lemma BlankOnCourse(ids: set<Uuid>, adj: Adjacency, nodes: seq<Node>)
    ensures OnCourse(ids, adj, nodes, Search(map[], [], {}), NO_HISTORY)
  {
  }

  lemma SearchTheorem(nodes: seq<Node>, adj: Adjacency, s: Search, h: History)
    requires OnCourse(NodeIds(nodes), adj, nodes, s, h) && s.stack == [] && NodeIds(nodes) <= s.color.Keys
    requires ClosedIn(NodeIds(nodes), adj) && adj.Keys <= NodeIds(nodes)
    ensures FlagsSound(LinksOf(adj), s.inCycle) && FlagsRound(LinksOf(adj), s.inCycle) && FlagsComplete(LinksOf(adj), s.inCycle)
    ensures forall u :: u in s.inCycle <==> OnSearchLoop(adj, nodes, u)
  {
    ColoredIsRanked(NodeIds(nodes), adj, s, h);
    LoopedIsSound(adj, nodes, s.inCycle, h);
    forall p | IsCycle(LinksOf(adj), p) ensures HasRound(LinksOf(adj), s.inCycle, p) {
      CycleHasBackLink(adj, nodes, p, s.inCycle, h);
    }
    RoundIsComplete(LinksOf(adj), s.inCycle);
    forall u ensures u in s.inCycle <==> OnSearchLoop(adj, nodes, u) { FlagsAreLoops(adj, nodes, s.inCycle, h, u); }
  }

  /** The outer loop of detectCycles, up to the point where it lists the flagged nodes. */
  method FlagCycles(nodes: seq<Node>, adj: Adjacency) returns (inCycle: set<Uuid>)
    requires ClosedIn(NodeIds(nodes), adj) && adj.Keys <= NodeIds(nodes)
    ensures FlagsSound(LinksOf(adj), inCycle) && FlagsRound(LinksOf(adj), inCycle) && FlagsComplete(LinksOf(adj), inCycle)
    ensures forall u :: u in inCycle <==> OnSearchLoop(adj, nodes, u)
    ensures Flagged(adj, nodes, inCycle)
  {
    ghost var ids := NodeIds(nodes);
    var s := Search(map[], [], {});
    ghost var h := NO_HISTORY;
    BlankOnCourse(ids, adj, nodes);
    for i := 0 to |nodes|
      invariant OnCourse(ids, adj, nodes, s, h) && s.stack == []
      invariant NodeIds(nodes[..i]) <= s.color.Keys
      invariant Searches(adj, nodes[..i], s)
    {
      ghost var before := s;
      NodeIdsGrow(nodes, i);
      if ColorOf(s.color, nodes[i].id) == White {
        StartsHere(ids, adj, nodes, s, h, i);
        s, h := SearchFrom(ids, adj, nodes, nodes[i].id, s, h);
      }
      SearchesGrow(adj, nodes, i, before, s);
    }
    assert nodes[..|nodes|] == nodes;
    inCycle := s.inCycle;
    SearchTheorem(nodes, adj, s, h);
  }
}
