/**
  The search of detectCycles (internal/domain/playbook/graph.go) as a function of the
  nodes and the adjacency map: which nodes it flags is determined, step by step.
*/
module CycleSearch {
  import opened Domain

  datatype Color = White | Grey | Black
  datatype Frame = Frame(node: Uuid, next: nat)

  type Adjacency = map<Uuid, seq<Uuid>>

  /** Reading an absent key of a Go map yields the zero value. */
  function At(adj: Adjacency, u: Uuid): seq<Uuid> {
    if u in adj then adj[u] else []
  }

  function ColorOf(color: map<Uuid, Color>, u: Uuid): Color {
    if u in color then color[u] else White
  }

  /** The variables of the search. */
  datatype Search = Search(color: map<Uuid, Color>, stack: seq<Frame>, inCycle: set<Uuid>)

  /** The nodes of the stack from the top down to the frame of next. */
  function FlagDown(stack: seq<Frame>, next: Uuid): set<Uuid> {
    if stack == [] then {}
    else
      var top := stack[|stack| - 1];
      {top.node} + if top.node == next then {} else FlagDown(stack[..|stack| - 1], next)
  }

  function Top(s: Search): Frame
    requires s.stack != []
  {
    s.stack[|s.stack| - 1]
  }

  /** The top frame has no edge left. */
  function Popped(s: Search): Search
    requires s.stack != []
  {
    Search(s.color[Top(s).node := Black], s.stack[..|s.stack| - 1], s.inCycle)
  }

  /** The stack with the edge at the top frame's index behind it. */
  function Stepped(s: Search): seq<Frame>
    requires s.stack != []
  {
    s.stack[|s.stack| - 1 := Frame(Top(s).node, Top(s).next + 1)]
  }

  function Pushed(s: Search, next: Uuid): Search
    requires s.stack != []
  {
    Search(s.color[next := Grey], Stepped(s) + [Frame(next, 0)], s.inCycle)
  }

  function Passed(s: Search, inCycle: set<Uuid>): Search
    requires s.stack != []
  {
    Search(s.color, Stepped(s), inCycle)
  }

  /** One pass of the inner loop. */
  function Step(adj: Adjacency, s: Search): Search {
    if s.stack == [] then s
    else if Top(s).next >= |At(adj, Top(s).node)| then Popped(s)
    else
      var next := At(adj, Top(s).node)[Top(s).next];
      match ColorOf(s.color, next)
      case White => Pushed(s, next)
      case Grey => Passed(s, s.inCycle + {next} + FlagDown(s.stack, next))
      case Black => Passed(s, s.inCycle)
  }

  function Steps(adj: Adjacency, s: Search, n: nat): Search {
    if n == 0 then s else Step(adj, Steps(adj, s, n - 1))
  }

  /** The inner loop, started at s, can stand at t. */
  ghost predicate LeadsTo(adj: Adjacency, s: Search, t: Search) {
    exists n: nat :: Steps(adj, s, n) == t
  }

  /** The inner loop started at s ends in t. */
  ghost predicate Finishes(adj: Adjacency, s: Search, t: Search) {
    t.stack == [] && LeadsTo(adj, s, t)
  }

  function Entered(s: Search, start: Uuid): Search {
    Search(s.color[start := Grey], [Frame(start, 0)], s.inCycle)
  }

  /** One pass of the outer loop takes s to t. */
  ghost predicate Visits(adj: Adjacency, start: Uuid, s: Search, t: Search) {
    if ColorOf(s.color, start) != White then t == s else Finishes(adj, Entered(s, start), t)
  }

  /** The outer loop over these nodes ends in t. */
  ghost predicate Searches(adj: Adjacency, nodes: seq<Node>, t: Search)
    decreases |nodes|, 0
  {
    if nodes == [] then t == Search(map[], [], {}) else SearchesThen(adj, nodes[..|nodes| - 1], nodes[|nodes| - 1].id, t)
  }

  ghost predicate SearchesThen(adj: Adjacency, nodes: seq<Node>, start: Uuid, t: Search)
    decreases |nodes|, 1
  {
    exists s :: Searches(adj, nodes, s) && Visits(adj, start, s, t)
  }

  /** These are the nodes that detectCycles marks. */
  ghost predicate Flagged(adj: Adjacency, nodes: seq<Node>, flagged: set<Uuid>) {
    exists t :: Searches(adj, nodes, t) && t.inCycle == flagged
  }

  lemma SearchesGrow(adj: Adjacency, nodes: seq<Node>, i: nat, s: Search, t: Search)
    requires i < |nodes| && Searches(adj, nodes[..i], s) && Visits(adj, nodes[i].id, s, t)
    ensures Searches(adj, nodes[..i + 1], t)
  {
    assert nodes[..i + 1][..i] == nodes[..i];
    assert SearchesThen(adj, nodes[..i], nodes[i].id, t);
  }

  lemma LeadsOn(adj: Adjacency, s: Search, t: Search)
    requires LeadsTo(adj, s, t)
    ensures LeadsTo(adj, s, Step(adj, t))
  {
    var n: nat :| Steps(adj, s, n) == t;
    assert Steps(adj, s, n + 1) == Step(adj, t);
  }

  lemma LeadsToItself(adj: Adjacency, s: Search)
    ensures LeadsTo(adj, s, s)
  {
    assert Steps(adj, s, 0) == s;
  }

  // ----- the outcome is determined

  lemma {:induction false} StaysFinished(adj: Adjacency, s: Search, m: nat, n: nat)
    requires m <= n && Steps(adj, s, m).stack == []
    ensures Steps(adj, s, n) == Steps(adj, s, m)
  {
    if m < n { StaysFinished(adj, s, m, n - 1); }
  }

  lemma FinishesOnce(adj: Adjacency, s: Search, t: Search, u: Search)
    requires Finishes(adj, s, t) && Finishes(adj, s, u)
    ensures t == u
  {
    var m: nat :| Steps(adj, s, m) == t;
    var n: nat :| Steps(adj, s, n) == u;
    if m <= n { StaysFinished(adj, s, m, n); } else { StaysFinished(adj, s, n, m); }
  }

  lemma {:induction false} SearchesOnce(adj: Adjacency, nodes: seq<Node>, t: Search, u: Search)
    requires Searches(adj, nodes, t) && Searches(adj, nodes, u)
    ensures t == u
  {
    if nodes != [] {
      var rest, start := nodes[..|nodes| - 1], nodes[|nodes| - 1].id;
      var s :| Searches(adj, rest, s) && Visits(adj, start, s, t);
      var r :| Searches(adj, rest, r) && Visits(adj, start, r, u);
      SearchesOnce(adj, rest, s, r);
      if ColorOf(s.color, start) == White { FinishesOnce(adj, Entered(s, start), t, u); }
    }
  }

  /** detectCycles marks one definite set of nodes. */
  lemma FlaggedOnce(adj: Adjacency, nodes: seq<Node>, a: set<Uuid>, b: set<Uuid>)
    requires Flagged(adj, nodes, a) && Flagged(adj, nodes, b)
    ensures a == b
  {
    var t :| Searches(adj, nodes, t) && t.inCycle == a;
    var u :| Searches(adj, nodes, u) && u.inCycle == b;
    SearchesOnce(adj, nodes, t, u);
  }
}
