/**
  What a depth-first search leaves behind: when each node finished, along which path it
  was discovered, and how many nodes had finished by then. Those paths are the first
  paths of SearchPaths.
*/
module SearchHistory {
  import opened Domain
  import opened CycleSearch
  import opened Digraph
  import opened SearchPaths

  datatype History = History(rank: map<Uuid, nat>, path: map<Uuid, seq<Uuid>>, seen: map<Uuid, nat>)

  const NO_HISTORY := History(map[], map[], map[])

  function PathTo(h: History, u: Uuid): seq<Uuid> {
    if u in h.path then h.path[u] else []
  }

  /** Node v is discovered with p on the stack. */
  function Discover(h: History, p: seq<Uuid>, v: Uuid): History {
    History(h.rank, h.path[v := p + [v]], h.seen[v := |h.rank|])
  }

  function Finish(h: History, u: Uuid): History {
    h.(rank := h.rank[u := |h.rank|])
  }

  /** Node y had finished when c was discovered. */
  ghost predicate DoneBefore(h: History, y: Uuid, c: Uuid) {
    y in h.rank && c in h.seen && h.rank[y] < h.seen[c]
  }

  /** The path to u continues the path to the node before it. */
  ghost predicate GoodPath(h: History, u: Uuid) {
    var p := PathTo(h, u);
    |p| > 0 && p[|p| - 1] == u && NoDuplicates(p) && (|p| > 1 ==> PathTo(h, p[|p| - 2]) == p[..|p| - 1])
  }

  /** Whatever was under way when w ran had finished before c, or still was under way when c was discovered. */
  ghost predicate Nested(h: History, c: Uuid) {
    forall w, z :: DoneBefore(h, w, c) && z in PathTo(h, w) ==> DoneBefore(h, z, c) || z in PathTo(h, c)
  }

  /** Node c was entered by the first edge to it, after every earlier neighbour had been met. */
  ghost predicate FirstReached(adj: Adjacency, h: History, c: Uuid) {
    EnteredAlong(adj, h, PathTo(h, c), c)
  }

  ghost predicate EnteredAlong(adj: Adjacency, h: History, p: seq<Uuid>, c: Uuid) {
    |p| >= 2 ==> EnteredFirst(h, At(adj, p[|p| - 2]), p, c)
  }

  ghost predicate EnteredFirst(h: History, neighbours: seq<Uuid>, p: seq<Uuid>, c: Uuid) {
    exists j :: EntersBy(h, neighbours, p, c, j)
  }

  ghost predicate EntersBy(h: History, neighbours: seq<Uuid>, p: seq<Uuid>, c: Uuid, j: int) {
    && 0 <= j < |neighbours| && neighbours[j] == c
    && forall i :: 0 <= i < j ==> neighbours[i] != c && (neighbours[i] in p || DoneBefore(h, neighbours[i], c))
  }

  /** A start is taken only after every earlier node has finished. */
  ghost predicate StartsInOrder(nodes: seq<Node>, h: History, c: Uuid) {
    |PathTo(h, c)| == 1 ==> exists i :: StartsBy(nodes, h, c, i)
  }

  ghost predicate StartsBy(nodes: seq<Node>, h: History, c: Uuid, i: int) {
    0 <= i < |nodes| && nodes[i].id == c && forall j :: 0 <= j < i ==> DoneBefore(h, nodes[j].id, c)
  }

  ghost predicate Discovered(adj: Adjacency, nodes: seq<Node>, h: History, u: Uuid) {
    && GoodPath(h, u) && u in h.seen && h.seen[u] <= |h.rank|
    && Nested(h, u) && FirstReached(adj, h, u) && StartsInOrder(nodes, h, u)
  }

  /** Node u finished after all its path was discovered, and before the rest of its path. */
  ghost predicate FinishedInOrder(h: History, u: Uuid)
    requires u in h.rank
  {
    && u in h.path && h.rank[u] < |h.rank|
    && (forall c :: c in PathTo(h, u) ==> c in h.seen && h.seen[c] <= h.rank[u])
    && (forall c :: c in PathTo(h, u) && c != u && c in h.rank ==> h.rank[u] < h.rank[c])
  }

  ghost predicate HistoryOk(adj: Adjacency, nodes: seq<Node>, h: History) {
    && (forall u {:trigger Discovered(adj, nodes, h, u)} :: u in h.path ==> Discovered(adj, nodes, h, u))
    && (forall u {:trigger FinishedInOrder(h, u)} :: u in h.rank ==> FinishedInOrder(h, u))
  }

  // ----- what keeps it

  /** All that was discovered has finished or is on p. */
  ghost predicate Underway(h: History, p: seq<Uuid>) {
    && NoDuplicates(p) && (p != [] ==> PathTo(h, p[|p| - 1]) == p)
    && forall u :: u in h.path ==> u in h.rank || u in p
  }

  /** Neighbour j of the last node of p is v, and the earlier ones have been discovered. */
  ghost predicate Enters(adj: Adjacency, h: History, p: seq<Uuid>, v: Uuid) {
    p != [] ==> Meets(h, At(adj, p[|p| - 1]), v)
  }

  ghost predicate Meets(h: History, neighbours: seq<Uuid>, v: Uuid) {
    exists j :: MeetsAt(h, neighbours, v, j)
  }

  ghost predicate MeetsAt(h: History, neighbours: seq<Uuid>, v: Uuid, j: int) {
    0 <= j < |neighbours| && neighbours[j] == v && forall i :: 0 <= i < j ==> neighbours[i] in h.path
  }

  ghost predicate Starts(nodes: seq<Node>, h: History, p: seq<Uuid>, v: Uuid) {
    p == [] ==> exists i :: 0 <= i < |nodes| && nodes[i].id == v && forall n :: n in nodes[..i] ==> n.id in h.rank
  }

  lemma NestedSelf(adj: Adjacency, nodes: seq<Node>, h: History, p: seq<Uuid>, v: Uuid)
    requires HistoryOk(adj, nodes, h) && v !in h.path && Underway(h, p)
    ensures Nested(Discover(h, p, v), v)
  {
    var h' := Discover(h, p, v);
    forall w, z | DoneBefore(h', w, v) && z in PathTo(h', w) ensures DoneBefore(h', z, v) || z in PathTo(h', v) {
      assert FinishedInOrder(h, w);
      PathsAreDiscovered(adj, nodes, h, w, z);
      assert z in h.rank ==> FinishedInOrder(h, z);
    }
  }

  ghost predicate RanksBounded(h: History) {
    forall u :: u in h.rank ==> h.rank[u] < |h.rank|
  }

  lemma HistoryBounds(adj: Adjacency, nodes: seq<Node>, h: History)
    requires HistoryOk(adj, nodes, h)
    ensures RanksBounded(h)
  {
    forall u | u in h.rank ensures h.rank[u] < |h.rank| { assert FinishedInOrder(h, u); }
  }

  lemma EnteredSelf(h: History, p: seq<Uuid>, v: Uuid, ns: seq<Uuid>)
    requires RanksBounded(h) && v !in h.path && Underway(h, p) && Meets(h, ns, v)
    ensures EnteredFirst(Discover(h, p, v), ns, p + [v], v)
  {
    var h' := Discover(h, p, v);
    var j :| MeetsAt(h, ns, v, j);
    assert EntersBy(h', ns, p + [v], v, j);
  }

  lemma StartsSelf(adj: Adjacency, nodes: seq<Node>, h: History, p: seq<Uuid>, v: Uuid)
    requires HistoryOk(adj, nodes, h) && v !in h.path && Starts(nodes, h, p, v)
    ensures StartsInOrder(nodes, Discover(h, p, v), v)
  {
    var h' := Discover(h, p, v);
    if p == [] {
      var i :| 0 <= i < |nodes| && nodes[i].id == v && forall n :: n in nodes[..i] ==> n.id in h.rank;
      forall j | 0 <= j < i ensures DoneBefore(h', nodes[j].id, v) {
        assert nodes[j] in nodes[..i];
        assert FinishedInOrder(h, nodes[j].id);
      }
      assert StartsBy(nodes, h', v, i);
    }
  }

  lemma FirstReachedSelf(adj: Adjacency, h: History, p: seq<Uuid>, v: Uuid)
    requires p != [] ==> EnteredFirst(Discover(h, p, v), At(adj, p[|p| - 1]), p + [v], v)
    ensures FirstReached(adj, Discover(h, p, v), v)
  {
    LastButOne(p, v);
    assert EnteredAlong(adj, Discover(h, p, v), p + [v], v);
  }

  lemma LastButOne(p: seq<Uuid>, v: Uuid)
    ensures p != [] ==> (p + [v])[|p + [v]| - 2] == p[|p| - 1]
  {
  }

  lemma GoodPathSelf(h: History, p: seq<Uuid>, v: Uuid)
    requires v !in h.path && v !in p && Underway(h, p)
    ensures GoodPath(Discover(h, p, v), v)
  {
    var q := p + [v];
    assert q[..|q| - 1] == p;
  }

  lemma DiscoveredSelf(adj: Adjacency, nodes: seq<Node>, h: History, p: seq<Uuid>, v: Uuid)
    requires HistoryOk(adj, nodes, h) && v !in h.path && v !in p && Underway(h, p)
    requires Enters(adj, h, p, v) && Starts(nodes, h, p, v)
    ensures Discovered(adj, nodes, Discover(h, p, v), v)
  {
    NestedSelf(adj, nodes, h, p, v);
    StartsSelf(adj, nodes, h, p, v);
    HistoryBounds(adj, nodes, h);
    if p != [] { EnteredSelf(h, p, v, At(adj, p[|p| - 1])); }
    FirstReachedSelf(adj, h, p, v);
    GoodPathSelf(h, p, v);
  }

  /** Every node of a path has been discovered. */
  lemma PathsAreDiscovered(adj: Adjacency, nodes: seq<Node>, h: History, u: Uuid, z: Uuid)
    requires HistoryOk(adj, nodes, h) && u in h.path && z in PathTo(h, u)
    ensures z in h.path
  {
    forall v | v in h.path ensures GoodPath(h, v) { assert Discovered(adj, nodes, h, v); }
    GoodPathsDiscovered(h, u, z);
  }

  lemma {:induction false} GoodPathsDiscovered(h: History, u: Uuid, z: Uuid)
    requires (forall v {:trigger GoodPath(h, v)} :: v in h.path ==> GoodPath(h, v)) && u in h.path && z in PathTo(h, u)
    ensures z in h.path
    decreases |PathTo(h, u)|
  {
    assert GoodPath(h, u);
    var p := PathTo(h, u);
    if z != u { GoodPathsDiscovered(h, p[|p| - 2], z); }
  }

  lemma DiscoveredOther(adj: Adjacency, nodes: seq<Node>, h: History, p: seq<Uuid>, v: Uuid, u: Uuid)
    requires HistoryOk(adj, nodes, h) && v !in h.path && u in h.path
    ensures Discovered(adj, nodes, Discover(h, p, v), u)
  {
    var h', q := Discover(h, p, v), PathTo(h, u);
    assert Discovered(adj, nodes, h, u) && u != v;
    assert v in h.rank ==> FinishedInOrder(h, v);
    forall w, z | DoneBefore(h', w, u) && z in PathTo(h', w) ensures DoneBefore(h', z, u) || z in PathTo(h', u) {
      assert DoneBefore(h, w, u);
    }
    if |q| >= 2 {
      var j :| EntersBy(h, At(adj, q[|q| - 2]), q, u, j);
      assert EntersBy(h', At(adj, q[|q| - 2]), q, u, j);
    }
    if |q| == 1 {
      var i :| StartsBy(nodes, h, u, i);
      assert StartsBy(nodes, h', u, i);
    }
  }

  lemma DiscoverOk(adj: Adjacency, nodes: seq<Node>, h: History, p: seq<Uuid>, v: Uuid)
    requires HistoryOk(adj, nodes, h) && v !in h.path && v !in p && Underway(h, p)
    requires Enters(adj, h, p, v) && Starts(nodes, h, p, v)
    ensures HistoryOk(adj, nodes, Discover(h, p, v))
  {
    var h' := Discover(h, p, v);
    DiscoveredSelf(adj, nodes, h, p, v);
    forall u | u in h'.path ensures Discovered(adj, nodes, h', u) {
      if u != v { DiscoveredOther(adj, nodes, h, p, v, u); }
    }
    forall u | u in h'.rank ensures FinishedInOrder(h', u) {
      assert FinishedInOrder(h, u);
      forall c | c in PathTo(h', u) ensures c != v && c in h'.seen { PathsAreDiscovered(adj, nodes, h, u, c); }
    }
  }

  lemma StillNested(h: History, v: Uuid, u: Uuid)
    requires Nested(h, u) && v !in h.rank && u in h.seen && h.seen[u] <= |h.rank|
    ensures Nested(Finish(h, v), u)
  {
    var h' := Finish(h, v);
    forall w, z | DoneBefore(h', w, u) && z in PathTo(h', w) ensures DoneBefore(h', z, u) || z in PathTo(h', u) {
      assert DoneBefore(h, w, u) && z in PathTo(h, w);
      assert DoneBefore(h, z, u) ==> DoneBefore(h', z, u);
    }
  }

  lemma StillEntered(h: History, v: Uuid, ns: seq<Uuid>, p: seq<Uuid>, u: Uuid)
    requires EnteredFirst(h, ns, p, u) && v !in h.rank
    ensures EnteredFirst(Finish(h, v), ns, p, u)
  {
    var j :| EntersBy(h, ns, p, u, j);
    assert EntersBy(Finish(h, v), ns, p, u, j);
  }

  lemma StillStarts(nodes: seq<Node>, h: History, v: Uuid, u: Uuid)
    requires StartsInOrder(nodes, h, u) && v !in h.rank
    ensures StartsInOrder(nodes, Finish(h, v), u)
  {
    if |PathTo(h, u)| == 1 {
      var i :| StartsBy(nodes, h, u, i);
      assert StartsBy(nodes, Finish(h, v), u, i);
    }
  }

  lemma StillDiscovered(adj: Adjacency, nodes: seq<Node>, h: History, v: Uuid, u: Uuid)
    requires HistoryOk(adj, nodes, h) && v !in h.rank && u in h.path
    ensures Discovered(adj, nodes, Finish(h, v), u)
  {
    var h', q := Finish(h, v), PathTo(h, u);
    assert Discovered(adj, nodes, h, u);
    StillNested(h, v, u);
    StillStarts(nodes, h, v, u);
    if |q| >= 2 { StillEntered(h, v, At(adj, q[|q| - 2]), q, u); }
    assert PathTo(h', u) == q && GoodPath(h', u);
  }

  /** The last node under way finishes. */
  lemma FinishOk(adj: Adjacency, nodes: seq<Node>, h: History, v: Uuid)
    requires HistoryOk(adj, nodes, h) && v in h.path && v !in h.rank
    requires forall c :: c in PathTo(h, v) ==> c !in h.rank
    ensures HistoryOk(adj, nodes, Finish(h, v))
  {
    var h' := Finish(h, v);
    forall u | u in h'.path ensures Discovered(adj, nodes, h', u) { StillDiscovered(adj, nodes, h, v, u); }
    forall u | u in h'.rank ensures FinishedInOrder(h', u) {
      if u != v {
        assert FinishedInOrder(h, u);
      } else {
        forall c | c in PathTo(h', v) ensures c in h'.seen && h'.seen[c] <= h'.rank[v] {
          PathsAreDiscovered(adj, nodes, h, v, c);
          assert Discovered(adj, nodes, h, c);
        }
      }
    }
  }

  // ----- what it says in the end

  /** Everything has finished, and each link was passed downward or led back into the path. */
  ghost predicate Complete(adj: Adjacency, nodes: seq<Node>, h: History) {
    && HistoryOk(adj, nodes, h)
    && (forall n :: n in nodes ==> n.id in h.rank)
    && (forall u, v :: (u, v) in LinksOf(adj) ==> u in h.rank && v in h.rank && (h.rank[v] < h.rank[u] || v in PathTo(h, u)))
  }

  /** What had finished before c was discovered leads only to such nodes, except through the path to c. */
  lemma {:induction false} ClosedBefore(adj: Adjacency, nodes: seq<Node>, h: History, c: Uuid, q: seq<Uuid>)
    requires Complete(adj, nodes, h) && c in h.path && IsWalk(LinksOf(adj), q) && DoneBefore(h, q[0], c)
    requires forall m :: 1 <= m < |q| ==> q[m] == c || q[m] !in PathTo(h, c)
    ensures DoneBefore(h, q[|q| - 1], c)
    decreases |q|
  {
    var n := |q| - 1;
    if n > 0 {
      ClosedBefore(adj, nodes, h, c, q[..n]);
      var w, z := q[n - 1], q[n];
      assert (w, z) in LinksOf(adj);
      assert Discovered(adj, nodes, h, c) && FinishedInOrder(h, w);
    }
  }

  lemma PathShape(adj: Adjacency, nodes: seq<Node>, h: History, u: Uuid)
    requires HistoryOk(adj, nodes, h) && u in h.path
    ensures GoodPath(h, u)
  {
    assert Discovered(adj, nodes, h, u);
  }

  lemma PathEntered(adj: Adjacency, nodes: seq<Node>, h: History, u: Uuid)
    requires HistoryOk(adj, nodes, h) && u in h.path
    ensures FirstReached(adj, h, u)
  {
    assert Discovered(adj, nodes, h, u);
  }

  lemma {:induction false} Prefixes(adj: Adjacency, nodes: seq<Node>, h: History, u: Uuid, d: nat)
    requires HistoryOk(adj, nodes, h) && u in h.path && 1 <= d <= |PathTo(h, u)|
    ensures PathTo(h, u)[d - 1] in h.path && PathTo(h, PathTo(h, u)[d - 1]) == PathTo(h, u)[..d]
    decreases |PathTo(h, u)|
  {
    PathShape(adj, nodes, h, u);
    var p := PathTo(h, u);
    if d < |p| {
      Prefixes(adj, nodes, h, p[|p| - 2], d);
      assert p[..|p| - 1][..d] == p[..d] && p[..|p| - 1][d - 1] == p[d - 1];
    } else {
      assert p[..d] == p;
    }
  }

  lemma EnteredByLink(adj: Adjacency, nodes: seq<Node>, h: History, u: Uuid, d: nat)
    requires HistoryOk(adj, nodes, h) && u in h.path && 1 <= d < |PathTo(h, u)|
    ensures var p := PathTo(h, u); EnteredFirst(h, At(adj, p[d - 1]), p[..d + 1], p[d])
  {
    var p := PathTo(h, u);
    var q := p[..d + 1];
    assert |q| == d + 1 && q[d - 1] == p[d - 1];
    Prefixes(adj, nodes, h, u, d + 1);
    PathEntered(adj, nodes, h, p[d]);
  }

  lemma LinkOnPath(adj: Adjacency, nodes: seq<Node>, h: History, u: Uuid, i: nat)
    requires HistoryOk(adj, nodes, h) && u in h.path && i < |PathTo(h, u)| - 1
    ensures (PathTo(h, u)[i], PathTo(h, u)[i + 1]) in LinksOf(adj)
  {
    var p := PathTo(h, u);
    EnteredByLink(adj, nodes, h, u, i + 1);
    EntryIsLink(adj, h, p[i], p[..i + 2], p[i + 1]);
  }

  lemma EntryIsLink(adj: Adjacency, h: History, u: Uuid, p: seq<Uuid>, v: Uuid)
    requires EnteredFirst(h, At(adj, u), p, v)
    ensures (u, v) in LinksOf(adj)
  {
    var j :| EntersBy(h, At(adj, u), p, v, j);
    assert At(adj, u)[j] in At(adj, u);
  }

  lemma PathWalks(adj: Adjacency, nodes: seq<Node>, h: History, u: Uuid)
    requires HistoryOk(adj, nodes, h) && u in h.path && PathTo(h, u) != []
    ensures IsWalk(LinksOf(adj), PathTo(h, u))
  {
    forall i | 0 <= i < |PathTo(h, u)| - 1 ensures (PathTo(h, u)[i], PathTo(h, u)[i + 1]) in LinksOf(adj) {
      LinkOnPath(adj, nodes, h, u, i);
    }
  }

  lemma PathIsWalk(adj: Adjacency, nodes: seq<Node>, h: History, u: Uuid)
    requires HistoryOk(adj, nodes, h) && u in h.path
    ensures PathTo(h, u) != [] && SimplePath(adj, PathTo(h, u), PathTo(h, u)[0], u)
  {
    PathShape(adj, nodes, h, u);
    PathWalks(adj, nodes, h, u);
  }

  lemma StartIsFirst(adj: Adjacency, nodes: seq<Node>, h: History, u: Uuid)
    requires Complete(adj, nodes, h) && u in h.rank
    ensures u in h.path && PathTo(h, u) != [] && FirstToReach(adj, nodes, PathTo(h, u)[0], u)
  {
    assert FinishedInOrder(h, u);
    PathIsWalk(adj, nodes, h, u);
    var s := PathTo(h, u)[0];
    Prefixes(adj, nodes, h, u, 1);
    assert PathTo(h, s) == [s] && Discovered(adj, nodes, h, s);
    var i :| StartsBy(nodes, h, s, i);
    forall n | n in nodes[..i] ensures !Reaches(LinksOf(adj), n.id, u) {
      var j :| 0 <= j < i && nodes[j] == n;
      assert DoneBefore(h, nodes[j].id, s);
      if q :| WalkBetween(LinksOf(adj), q, n.id, u) { ClosedBefore(adj, nodes, h, s, q); }
    }
    assert NoneReaches(adj, nodes[..i], u);
  }

  lemma NotOnPrefix(p: seq<Uuid>, q: seq<Uuid>, d: nat, m: nat)
    requires d < |p| && d <= m < |q| && NoDuplicates(q) && q[..d] == p[..d]
    ensures q[m] == p[d] || q[m] !in p[..d + 1]
  {
    forall k | 0 <= k < d ensures p[k] != q[m] {
      assert p[k] == p[..d][k] == q[..d][k] == q[k];
    }
  }

  /** An earlier choice that the search did not take led to a node that had finished. */
  lemma EarlierIsDone(adj: Adjacency, nodes: seq<Node>, h: History, u: Uuid, q: seq<Uuid>, d: nat)
    requires HistoryOk(adj, nodes, h) && u in h.path && NoDuplicates(q) && LeavesAt(adj, q, PathTo(h, u), d)
    ensures DoneBefore(h, q[d], PathTo(h, u)[d])
  {
    var p := PathTo(h, u);
    var c, ns := p[d], At(adj, p[d - 1]);
    EnteredByLink(adj, nodes, h, u, d);
    var j :| EntersBy(h, ns, p[..d + 1], c, j);
    var i :| 0 <= i < |ns| && ns[i] == q[d] && c !in ns[..i + 1];
    forall x | 0 <= x <= i ensures ns[x] != c { assert ns[x] in ns[..i + 1]; }
    NotOnPrefix(p, q, d, d);
  }

  /** From there on the walk stays among nodes that had finished before p[d]. */
  lemma StaysDone(adj: Adjacency, nodes: seq<Node>, h: History, u: Uuid, q: seq<Uuid>, d: nat)
    requires Complete(adj, nodes, h) && u in h.path && IsWalk(LinksOf(adj), q) && NoDuplicates(q)
    requires 1 <= d < |PathTo(h, u)| && d < |q| && q[..d] == PathTo(h, u)[..d] && DoneBefore(h, q[d], PathTo(h, u)[d])
    ensures DoneBefore(h, q[|q| - 1], PathTo(h, u)[d])
  {
    var p, r := PathTo(h, u), q[d..];
    var c := p[d];
    Prefixes(adj, nodes, h, u, d + 1);
    forall m | 1 <= m < |r| ensures r[m] == c || r[m] !in PathTo(h, c) { NotOnPrefix(p, q, d, d + m); }
    SuffixIsWalk(LinksOf(adj), q, d);
    ClosedBefore(adj, nodes, h, c, r);
  }

  lemma NotLeftEarlier(adj: Adjacency, nodes: seq<Node>, h: History, u: Uuid, q: seq<Uuid>, d: nat)
    requires Complete(adj, nodes, h) && u in h.rank && u in h.path && PathTo(h, u) != []
    requires SimplePath(adj, q, PathTo(h, u)[0], u)
    ensures !LeavesAt(adj, q, PathTo(h, u), d)
  {
    assert FinishedInOrder(h, u);
    if LeavesAt(adj, q, PathTo(h, u), d) {
      EarlierIsDone(adj, nodes, h, u, q, d);
      StaysDone(adj, nodes, h, u, q, d);
    }
  }

  /** The search came to every node along its first path. */
  lemma PathIsFirst(adj: Adjacency, nodes: seq<Node>, h: History, u: Uuid)
    requires Complete(adj, nodes, h) && u in h.rank
    ensures u in h.path && FirstPath(adj, nodes, PathTo(h, u)) && PathTo(h, u)[|PathTo(h, u)| - 1] == u
  {
    assert FinishedInOrder(h, u);
    PathIsWalk(adj, nodes, h, u);
    StartIsFirst(adj, nodes, h, u);
    var p := PathTo(h, u);
    forall q | SimplePath(adj, q, p[0], u) ensures !LeavesEarlier(adj, q, p) {
      if d: nat :| LeavesAt(adj, q, p, d) { NotLeftEarlier(adj, nodes, h, u, q, d); }
    }
  }
}
