/**
  Which way a depth-first search comes to a node, said without the search: from the
  first node, in node order, that leads there, along the repetition-free path that at
  each fork takes the earliest choice it can.
*/
module SearchPaths {
  import opened Domain
  import opened CycleSearch
  import opened Digraph

  ghost function LinksOf(adj: Adjacency): Relation {
    set u, v | u in adj && v in adj[u] :: (u, v)
  }

  lemma LinksAre(adj: Adjacency, u: Uuid, v: Uuid)
    ensures (u, v) in LinksOf(adj) <==> v in At(adj, u)
  {
  }

  /** Of the nodes in order, s is the first that leads to w. */
  ghost predicate FirstToReach(adj: Adjacency, nodes: seq<Node>, s: Uuid, w: Uuid) {
    exists i :: 0 <= i < |nodes| && nodes[i].id == s && Reaches(LinksOf(adj), s, w) && NoneReaches(adj, nodes[..i], w)
  }

  ghost predicate NoneReaches(adj: Adjacency, nodes: seq<Node>, w: Uuid) {
    forall n :: n in nodes ==> !Reaches(LinksOf(adj), n.id, w)
  }

  /** Among these neighbours, v comes before the first w. */
  predicate Earlier(neighbours: seq<Uuid>, v: Uuid, w: Uuid) {
    exists i :: 0 <= i < |neighbours| && neighbours[i] == v && w !in neighbours[..i + 1]
  }

  /** q leaves p after d nodes, by an earlier choice. */
  ghost predicate LeavesAt(adj: Adjacency, q: seq<Uuid>, p: seq<Uuid>, d: nat) {
    1 <= d < |q| && d < |p| && q[..d] == p[..d] && Earlier(At(adj, p[d - 1]), q[d], p[d])
  }

  ghost predicate LeavesEarlier(adj: Adjacency, q: seq<Uuid>, p: seq<Uuid>) {
    exists d :: LeavesAt(adj, q, p, d)
  }

  ghost predicate SimplePath(adj: Adjacency, p: seq<Uuid>, s: Uuid, w: Uuid) {
    WalkBetween(LinksOf(adj), p, s, w) && NoDuplicates(p)
  }

  /** The search comes to the last node of p along p. */
  ghost predicate FirstPath(adj: Adjacency, nodes: seq<Node>, p: seq<Uuid>) {
    && |p| > 0
    && SimplePath(adj, p, p[0], p[|p| - 1])
    && FirstToReach(adj, nodes, p[0], p[|p| - 1])
    && forall q :: SimplePath(adj, q, p[0], p[|p| - 1]) ==> !LeavesEarlier(adj, q, p)
  }

  /** A link from the last node of p back into p closes a loop through u. */
  ghost predicate ClosesLoop(r: Relation, p: seq<Uuid>, u: Uuid) {
    exists k, i :: 0 <= k <= i < |p| && p[i] == u && (p[|p| - 1], p[k]) in r
  }

  /** Some first path is closed into a loop through u by a link from its end. */
  ghost predicate OnSearchLoop(adj: Adjacency, nodes: seq<Node>, u: Uuid) {
    exists p :: FirstPath(adj, nodes, p) && ClosesLoop(LinksOf(adj), p, u)
  }

  // ----- there is one first path to each node

  lemma FirstToReachUnique(adj: Adjacency, nodes: seq<Node>, s: Uuid, t: Uuid, w: Uuid)
    requires FirstToReach(adj, nodes, s, w) && FirstToReach(adj, nodes, t, w)
    ensures s == t
  {
    var i :| 0 <= i < |nodes| && nodes[i].id == s && NoneReaches(adj, nodes[..i], w);
    var j :| 0 <= j < |nodes| && nodes[j].id == t && NoneReaches(adj, nodes[..j], w);
  }

  lemma {:induction false} OneIsEarlier(neighbours: seq<Uuid>, v: Uuid, w: Uuid)
    requires v in neighbours && w in neighbours && v != w
    ensures Earlier(neighbours, v, w) || Earlier(neighbours, w, v)
  {
    var x, rest := neighbours[|neighbours| - 1], neighbours[..|neighbours| - 1];
    assert neighbours == rest + [x];
    if v in rest && w in rest {
      OneIsEarlier(rest, v, w);
      if Earlier(rest, v, w) { StaysEarlier(rest, x, v, w); } else { StaysEarlier(rest, x, w, v); }
    } else if v in rest {
      var i :| 0 <= i < |rest| && rest[i] == v;
      assert neighbours[i] == v && w !in neighbours[..i + 1];
    } else {
      var i :| 0 <= i < |rest| && rest[i] == w;
      assert neighbours[i] == w && v !in neighbours[..i + 1];
    }
  }

  lemma StaysEarlier(rest: seq<Uuid>, x: Uuid, v: Uuid, w: Uuid)
    requires Earlier(rest, v, w)
    ensures Earlier(rest + [x], v, w)
  {
    var i :| 0 <= i < |rest| && rest[i] == v && w !in rest[..i + 1];
    assert (rest + [x])[i] == v && (rest + [x])[..i + 1] == rest[..i + 1];
  }

  lemma NoProperPrefix(p: seq<Uuid>, q: seq<Uuid>)
    requires 0 < |p| <= |q| && p == q[..|p|] && p[|p| - 1] == q[|q| - 1] && NoDuplicates(q)
    ensures p == q
  {
    assert q[|p| - 1] == q[..|p|][|p| - 1];
  }

  lemma FirstDifference(p: seq<Uuid>, q: seq<Uuid>) returns (d: nat)
    requires |p| > 0 && |q| > 0 && p[0] == q[0] && p[|p| - 1] == q[|q| - 1] && p != q && NoDuplicates(p) && NoDuplicates(q)
    ensures 1 <= d < |p| && d < |q| && p[..d] == q[..d] && p[d] != q[d]
  {
    d := 1;
    while d < |p| && d < |q| && p[d] == q[d]
      invariant 1 <= d <= |p| && d <= |q| && p[..d] == q[..d]
      decreases |p| - d
    {
      d := d + 1;
    }
    if d == |p| {
      NoProperPrefix(p, q);
    } else if d == |q| {
      NoProperPrefix(q, p);
    }
  }

  lemma FirstPathNotLeft(adj: Adjacency, nodes: seq<Node>, p: seq<Uuid>, q: seq<Uuid>, d: nat)
    requires FirstPath(adj, nodes, p) && SimplePath(adj, q, p[0], p[|p| - 1])
    ensures !LeavesAt(adj, q, p, d)
  {
    assert !LeavesEarlier(adj, q, p);
  }

  lemma FirstPathUnique(adj: Adjacency, nodes: seq<Node>, p: seq<Uuid>, q: seq<Uuid>)
    requires FirstPath(adj, nodes, p) && FirstPath(adj, nodes, q) && p[|p| - 1] == q[|q| - 1]
    ensures p == q
  {
    FirstToReachUnique(adj, nodes, p[0], q[0], p[|p| - 1]);
    if p != q {
      var d := FirstDifference(p, q);
      var x := p[d - 1];
      assert x == p[..d][d - 1] == q[d - 1];
      assert (p[d - 1], p[d]) in LinksOf(adj) && (q[d - 1], q[d]) in LinksOf(adj);
      FirstPathNotLeft(adj, nodes, p, q, d);
      FirstPathNotLeft(adj, nodes, q, p, d);
      OneIsEarlier(At(adj, x), p[d], q[d]);
    }
  }

  // ----- only the order of the neighbours matters

  lemma SameLinks(adj: Adjacency, adj': Adjacency)
    requires forall u :: At(adj, u) == At(adj', u)
    ensures LinksOf(adj) == LinksOf(adj')
  {
    forall u: Uuid, v: Uuid ensures (u, v) in LinksOf(adj) <==> (u, v) in LinksOf(adj') {
      assert At(adj, u) == At(adj', u);
    }
  }

  lemma SameFirstPaths(adj: Adjacency, adj': Adjacency, nodes: seq<Node>, p: seq<Uuid>)
    requires (forall u :: At(adj, u) == At(adj', u)) && FirstPath(adj, nodes, p)
    ensures FirstPath(adj', nodes, p)
  {
    SameLinks(adj, adj');
    var s, w := p[0], p[|p| - 1];
    var i :| 0 <= i < |nodes| && nodes[i].id == s && Reaches(LinksOf(adj), s, w) && NoneReaches(adj, nodes[..i], w);
    assert NoneReaches(adj', nodes[..i], w);
    forall q | SimplePath(adj', q, s, w) ensures !LeavesEarlier(adj', q, p) {
      assert SimplePath(adj, q, s, w) && !LeavesEarlier(adj, q, p);
      if d :| LeavesAt(adj', q, p, d) { assert LeavesAt(adj, q, p, d); }
    }
  }

  lemma SameLoops(adj: Adjacency, adj': Adjacency, nodes: seq<Node>, u: Uuid)
    requires forall u :: At(adj, u) == At(adj', u)
    ensures OnSearchLoop(adj, nodes, u) <==> OnSearchLoop(adj', nodes, u)
  {
    SameLinks(adj, adj');
    if OnSearchLoop(adj, nodes, u) {
      var p :| FirstPath(adj, nodes, p) && ClosesLoop(LinksOf(adj), p, u);
      SameFirstPaths(adj, adj', nodes, p);
    }
    if OnSearchLoop(adj', nodes, u) {
      var p :| FirstPath(adj', nodes, p) && ClosesLoop(LinksOf(adj'), p, u);
      SameFirstPaths(adj', adj, nodes, p);
    }
  }
}
