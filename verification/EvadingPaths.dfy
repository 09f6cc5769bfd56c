/**
  When a depth-first search can come to a node of a cycle and close no loop over it: all
  that leads from the node back into the path to it has been seen before, down choices
  that lead nowhere on that path.
*/
module EvadingPaths {
  import opened Domain
  import opened CycleSearch
  import opened Digraph
  import opened SearchPaths

  ghost predicate Avoids(q: seq<Uuid>, p: seq<Uuid>) {
    forall x :: x in q ==> x !in p
  }

  ghost predicate WalkAvoiding(r: Relation, q: seq<Uuid>, x: Uuid, y: Uuid, p: seq<Uuid>) {
    WalkBetween(r, q, x, y) && Avoids(q, p)
  }

  /** y can be reached from x without touching p. */
  ghost predicate ReachesAvoiding(r: Relation, x: Uuid, y: Uuid, p: seq<Uuid>) {
    exists q :: WalkAvoiding(r, q, x, y, p)
  }

  /** Choosing c at p[j] leads to nothing further along p, except by going back. */
  ghost predicate DeadEnd(r: Relation, p: seq<Uuid>, j: int, c: Uuid) {
    && 0 <= j < |p| - 1 && (p[j], c) in r
    && forall m :: j < m < |p| ==> !ReachesAvoiding(r, c, p[m], p[..j + 1])
  }

  /** w lies beyond a dead end at p[j]. */
  ghost predicate BeyondDeadEnd(r: Relation, p: seq<Uuid>, w: Uuid) {
    exists j, c :: DeadEnd(r, p, j, c) && ReachesAvoiding(r, c, w, p[..j + 1])
  }

  /** w can be reached from the last node of p without touching p again. */
  ghost predicate LeadsOut(r: Relation, p: seq<Uuid>, w: Uuid) {
    exists q :: LeadsOutBy(r, p, q, w)
  }

  ghost predicate LeadsOutBy(r: Relation, p: seq<Uuid>, q: seq<Uuid>, w: Uuid) {
    p != [] && WalkBetween(r, q, p[|p| - 1], w) && Avoids(q[1..], p)
  }

  /** Every way back into p from its last node passes, before it comes back, beyond a dead end of p. */
  ghost predicate Evading(r: Relation, p: seq<Uuid>) {
    && IsWalk(r, p) && NoDuplicates(p)
    && forall w: Uuid, v: Uuid :: LeadsOut(r, p, w) && (w, v) in r && v in p ==> BeyondDeadEnd(r, p, w)
  }

  // ----- walks and simple paths

  ghost predicate SimplePathIn(q: seq<Uuid>, r: Relation, x: Uuid, y: Uuid) {
    WalkBetween(r, q, x, y) && NoDuplicates(q)
  }

  lemma JoinWalks(r: Relation, p: seq<Uuid>, q: seq<Uuid>)
    requires IsWalk(r, p) && IsWalk(r, q) && (p[|p| - 1], q[0]) in r
    ensures IsWalk(r, p + q)
  {
    var w := p + q;
    forall i | 0 <= i < |w| - 1 ensures (w[i], w[i + 1]) in r {
      if i < |p| - 1 {
        assert (p[i], p[i + 1]) in r;
      } else if i >= |p| {
        assert (q[i - |p|], q[i - |p| + 1]) in r;
      }
    }
  }

  lemma PrefixIsWalk(r: Relation, p: seq<Uuid>, d: nat)
    requires IsWalk(r, p) && 1 <= d <= |p|
    ensures IsWalk(r, p[..d])
  {
    forall i | 0 <= i < d - 1 ensures (p[..d][i], p[..d][i + 1]) in r { assert (p[i], p[i + 1]) in r; }
  }

  /** Cutting out what lies between two visits of a node. */
  lemma CutIsWalk(r: Relation, q: seq<Uuid>, i: nat, j: nat)
    requires IsWalk(r, q) && i < j < |q| && q[i] == q[j]
    ensures WalkBetween(r, q[..i] + q[j..], q[0], q[|q| - 1])
  {
    var w := q[..i] + q[j..];
    assert i == 0 ==> w == q[j..];
    if i == 0 {
      SuffixIsWalk(r, q, j);
    } else {
      PrefixIsWalk(r, q, i);
      SuffixIsWalk(r, q, j);
      assert (q[i - 1], q[i]) in r;
      JoinWalks(r, q[..i], q[j..]);
    }
  }

  /** A walk contains a repetition-free one between the same ends. */
  lemma {:induction false} Shorten(r: Relation, q: seq<Uuid>, x: Uuid, y: Uuid, p: seq<Uuid>) returns (s: seq<Uuid>)
    requires WalkAvoiding(r, q, x, y, p)
    ensures WalkAvoiding(r, s, x, y, p) && NoDuplicates(s)
    decreases |q|
  {
    s := q;
    if !NoDuplicates(q) {
      var i, j :| 0 <= i < j < |q| && q[i] == q[j];
      CutIsWalk(r, q, i, j);
      s := Shorten(r, q[..i] + q[j..], x, y, p);
    }
  }

  lemma DistinctJoin(p: seq<Uuid>, q: seq<Uuid>)
    requires NoDuplicates(p) && NoDuplicates(q) && Avoids(q, p)
    ensures NoDuplicates(p + q)
  {
    forall i, j | 0 <= i < j < |p + q| ensures (p + q)[i] != (p + q)[j] {
      if i < |p| <= j { assert q[j - |p|] in q && p[i] in p; }
    }
  }

  /** Following p for d nodes and then leaving it for c, which leads to w past those d nodes. */
  lemma Detour(adj: Adjacency, p: seq<Uuid>, d: nat, c: Uuid, w: Uuid) returns (q: seq<Uuid>)
    requires IsWalk(LinksOf(adj), p) && NoDuplicates(p) && 1 <= d < |p| && (p[d - 1], c) in LinksOf(adj)
    requires ReachesAvoiding(LinksOf(adj), c, w, p[..d])
    ensures SimplePath(adj, q, p[0], w) && d < |q| && q[..d] == p[..d] && q[d] == c
    ensures Earlier(At(adj, p[d - 1]), c, p[d]) ==> LeavesAt(adj, q, p, d)
  {
    var r := LinksOf(adj);
    var t :| WalkAvoiding(r, t, c, w, p[..d]);
    var s := Shorten(r, t, c, w, p[..d]);
    PrefixIsWalk(r, p, d);
    JoinWalks(r, p[..d], s);
    DistinctJoin(p[..d], s);
    q := p[..d] + s;
  }

  // ----- first paths exist

  lemma FirstToReachExists(adj: Adjacency, nodes: seq<Node>, n: Node, w: Uuid) returns (s: Uuid)
    requires n in nodes && Reaches(LinksOf(adj), n.id, w)
    ensures FirstToReach(adj, nodes, s, w)
  {
    var k :| 0 <= k < |nodes| && nodes[k] == n;
    var i := 0;
    while !Reaches(LinksOf(adj), nodes[i].id, w)
      invariant 0 <= i <= k && NoneReaches(adj, nodes[..i], w)
      decreases k - i
    {
      assert nodes[..i + 1] == nodes[..i] + [nodes[i]];
      i := i + 1;
    }
    s := nodes[i].id;
  }

  /** Some repetition-free path from s to w begins with p. */
  ghost predicate Begins(adj: Adjacency, p: seq<Uuid>, s: Uuid, w: Uuid) {
    exists q :: SimplePath(adj, q, s, w) && |p| <= |q| && q[..|p|] == p
  }

  ghost predicate NeverLeft(adj: Adjacency, p: seq<Uuid>, s: Uuid, w: Uuid) {
    forall q :: SimplePath(adj, q, s, w) ==> !LeavesEarlier(adj, q, p)
  }

  lemma SomeChoice(adj: Adjacency, p: seq<Uuid>, s: Uuid, w: Uuid) returns (k: nat)
    requires p != [] && Begins(adj, p, s, w) && p[|p| - 1] != w
    ensures k < |At(adj, p[|p| - 1])| && Begins(adj, p + [At(adj, p[|p| - 1])[k]], s, w)
  {
    var q :| SimplePath(adj, q, s, w) && |p| <= |q| && q[..|p|] == p;
    var n := |p|;
    assert q[n - 1] == q[..n][n - 1] == p[n - 1];
    assert (q[n - 1], q[n]) in LinksOf(adj);
    k :| 0 <= k < |At(adj, p[n - 1])| && At(adj, p[n - 1])[k] == q[n];
    assert q[..n + 1] == p + [q[n]];
  }

  /** None of the first i choices after p leads to w. */
  ghost predicate NoneBegins(adj: Adjacency, p: seq<Uuid>, ns: seq<Uuid>, i: int, s: Uuid, w: Uuid) {
    forall x :: 0 <= x < i && x < |ns| ==> !Begins(adj, p + [ns[x]], s, w)
  }

  lemma NoneBeginsGrows(adj: Adjacency, p: seq<Uuid>, ns: seq<Uuid>, i: nat, s: Uuid, w: Uuid)
    requires i < |ns| && NoneBegins(adj, p, ns, i, s, w) && !Begins(adj, p + [ns[i]], s, w)
    ensures NoneBegins(adj, p, ns, i + 1, s, w)
  {
  }

  lemma {:induction false} SmallestChoice(adj: Adjacency, p: seq<Uuid>, ns: seq<Uuid>, i: nat, s: Uuid, w: Uuid, k: nat) returns (c: nat)
    requires i <= k < |ns| && Begins(adj, p + [ns[k]], s, w) && NoneBegins(adj, p, ns, i, s, w)
    ensures c < |ns| && Begins(adj, p + [ns[c]], s, w) && NoneBegins(adj, p, ns, c, s, w)
    decreases k - i
  {
    c := i;
    if !Begins(adj, p + [ns[i]], s, w) {
      NoneBeginsGrows(adj, p, ns, i, s, w);
      c := SmallestChoice(adj, p, ns, i + 1, s, w, k);
    }
  }

  /** The earliest choice after p that still leads to w. */
  lemma EarliestChoice(adj: Adjacency, p: seq<Uuid>, s: Uuid, w: Uuid) returns (c: Uuid)
    requires p != [] && Begins(adj, p, s, w) && NeverLeft(adj, p, s, w) && p[|p| - 1] != w
    ensures Begins(adj, p + [c], s, w) && NeverLeft(adj, p + [c], s, w)
  {
    var ns := At(adj, p[|p| - 1]);
    var k := SomeChoice(adj, p, s, w);
    var i := SmallestChoice(adj, p, ns, 0, s, w, k);
    NeverLeftHere(adj, p, s, w, ns, i);
    c := ns[i];
  }

  lemma NeverLeftHere(adj: Adjacency, p: seq<Uuid>, s: Uuid, w: Uuid, ns: seq<Uuid>, i: nat)
    requires p != [] && NeverLeft(adj, p, s, w) && ns == At(adj, p[|p| - 1]) && i < |ns| && NoneBegins(adj, p, ns, i, s, w)
    ensures NeverLeft(adj, p + [ns[i]], s, w)
  {
    forall t | SimplePath(adj, t, s, w) ensures !LeavesEarlier(adj, t, p + [ns[i]]) {
      if d: nat :| LeavesAt(adj, t, p + [ns[i]], d) { NotLeftHere(adj, p, s, w, ns, i, t, d); }
    }
  }

  lemma LeavesBefore(adj: Adjacency, p: seq<Uuid>, c: Uuid, t: seq<Uuid>, d: nat)
    requires LeavesAt(adj, t, p + [c], d) && d < |p|
    ensures LeavesAt(adj, t, p, d)
  {
    assert (p + [c])[..d] == p[..d] && (p + [c])[d] == p[d] && (p + [c])[d - 1] == p[d - 1];
  }

  lemma LeavesForEarlier(adj: Adjacency, p: seq<Uuid>, s: Uuid, w: Uuid, ns: seq<Uuid>, i: nat, t: seq<Uuid>) returns (x: nat)
    requires p != [] && ns == At(adj, p[|p| - 1]) && i < |ns| && SimplePath(adj, t, s, w)
    requires LeavesAt(adj, t, p + [ns[i]], |p|)
    ensures x < i && Begins(adj, p + [ns[x]], s, w)
  {
    var p', d := p + [ns[i]], |p|;
    assert p'[d - 1] == p[d - 1] && p'[d] == ns[i] && p'[..d] == p;
    x :| 0 <= x < |ns| && ns[x] == t[d] && ns[i] !in ns[..x + 1];
    forall y | 0 <= y <= x ensures ns[y] != ns[i] { assert ns[y] in ns[..x + 1]; }
    assert t[..d + 1] == p + [ns[x]];
  }

  lemma NotLeftHere(adj: Adjacency, p: seq<Uuid>, s: Uuid, w: Uuid, ns: seq<Uuid>, i: nat, t: seq<Uuid>, d: nat)
    requires p != [] && NeverLeft(adj, p, s, w) && ns == At(adj, p[|p| - 1]) && i < |ns|
    requires NoneBegins(adj, p, ns, i, s, w) && SimplePath(adj, t, s, w)
    ensures !LeavesAt(adj, t, p + [ns[i]], d)
  {
    if LeavesAt(adj, t, p + [ns[i]], d) {
      if d < |p| {
        LeavesBefore(adj, p, ns[i], t, d);
      } else {
        var x := LeavesForEarlier(adj, p, s, w, ns, i, t);
      }
    }
  }

  ghost function Ends(r: Relation, s: Uuid): set<Uuid> {
    {s} + set l | l in r :: l.1
  }

  lemma SimplePathFits(adj: Adjacency, p: seq<Uuid>, s: Uuid, w: Uuid)
    requires p != [] && Begins(adj, p, s, w)
    ensures p[0] == s && NoDuplicates(p) && IsWalk(LinksOf(adj), p) && |p| <= |Ends(LinksOf(adj), s)|
  {
    var q :| SimplePath(adj, q, s, w) && |p| <= |q| && q[..|p|] == p;
    PrefixIsWalk(LinksOf(adj), q, |p|);
    assert forall i, j :: 0 <= i < j < |p| ==> p[i] == q[i] && p[j] == q[j];
    forall x | x in p ensures x in Ends(LinksOf(adj), s) {
      var i :| 0 <= i < |p| && p[i] == x;
      if i > 0 { assert (p[i - 1], p[i]) in LinksOf(adj); }
    }
    DistinctFits(p, Ends(LinksOf(adj), s));
  }

  lemma {:induction false} FirstFrom(adj: Adjacency, p: seq<Uuid>, s: Uuid, w: Uuid) returns (f: seq<Uuid>)
    requires p != [] && Begins(adj, p, s, w) && NeverLeft(adj, p, s, w)
    ensures SimplePath(adj, f, s, w) && NeverLeft(adj, f, s, w)
    decreases |Ends(LinksOf(adj), s)| - |p|
  {
    SimplePathFits(adj, p, s, w);
    if p[|p| - 1] == w {
      f := p;
    } else {
      var c := EarliestChoice(adj, p, s, w);
      SimplePathFits(adj, p + [c], s, w);
      f := FirstFrom(adj, p + [c], s, w);
    }
  }

  /** Every node that the nodes lead to has a first path. */
  lemma FirstPathExists(adj: Adjacency, nodes: seq<Node>, n: Node, w: Uuid) returns (f: seq<Uuid>)
    requires n in nodes && Reaches(LinksOf(adj), n.id, w)
    ensures FirstPath(adj, nodes, f) && f[|f| - 1] == w
  {
    var s := FirstToReachExists(adj, nodes, n, w);
    var t :| WalkBetween(LinksOf(adj), t, s, w);
    assert WalkAvoiding(LinksOf(adj), t, s, w, []);
    var q := Shorten(LinksOf(adj), t, s, w, []);
    assert SimplePath(adj, q, s, w) && q[..1] == [s];
    assert Begins(adj, [s], s, w);
    f := FirstFrom(adj, [s], s, w);
  }

  // ----- reaching past a path

  lemma JoinAvoiding(r: Relation, x: Uuid, y: Uuid, z: Uuid, p: seq<Uuid>)
    requires ReachesAvoiding(r, x, y, p) && ReachesAvoiding(r, y, z, p)
    ensures ReachesAvoiding(r, x, z, p)
  {
    var a :| WalkAvoiding(r, a, x, y, p);
    var b :| WalkAvoiding(r, b, y, z, p);
    JoinAtNode(r, a, b);
    assert WalkAvoiding(r, a + b[1..], x, z, p);
  }

  /** Two walks, the second starting where the first ends. */
  lemma JoinAtNode(r: Relation, a: seq<Uuid>, b: seq<Uuid>)
    requires IsWalk(r, a) && IsWalk(r, b) && a[|a| - 1] == b[0]
    ensures WalkBetween(r, a + b[1..], a[0], b[|b| - 1])
  {
    if |b| == 1 {
      assert a + b[1..] == a;
    } else {
      SuffixIsWalk(r, b, 1);
      assert (b[0], b[1]) in r;
      JoinWalks(r, a, b[1..]);
    }
  }

  lemma ReachesOn(r: Relation, x: Uuid, y: Uuid, z: Uuid)
    requires Reaches(r, x, y) && Reaches(r, y, z)
    ensures Reaches(r, x, z)
  {
    var a :| WalkBetween(r, a, x, y);
    var b :| WalkBetween(r, b, y, z);
    JoinAtNode(r, a, b);
  }

  /** The rest of a repetition-free walk avoids its beginning. */
  lemma RestAvoids(r: Relation, p: seq<Uuid>, d: nat, m: nat)
    requires IsWalk(r, p) && NoDuplicates(p) && d <= m < |p|
    ensures ReachesAvoiding(r, p[m], p[|p| - 1], p[..d])
  {
    SuffixIsWalk(r, p, m);
    forall x | x in p[m..] ensures x !in p[..d] {
      var i :| 0 <= i < |p[m..]| && p[m..][i] == x;
      assert p[m + i] == x;
    }
    assert WalkAvoiding(r, p[m..], p[m], p[|p| - 1], p[..d]);
  }

  lemma PartReaches(r: Relation, p: seq<Uuid>, i: nat, j: nat)
    requires IsWalk(r, p) && i <= j < |p|
    ensures Reaches(r, p[i], p[j])
  {
    PrefixIsWalk(r, p, j + 1);
    SuffixIsWalk(r, p[..j + 1], i);
    assert WalkBetween(r, p[..j + 1][i..], p[i], p[j]);
  }

  /** No choice before p[d] leads to the end of a first path past its first d nodes. */
  lemma NoEarlierWay(adj: Adjacency, nodes: seq<Node>, p: seq<Uuid>, d: nat, c: Uuid)
    requires FirstPath(adj, nodes, p) && 1 <= d < |p| && Earlier(At(adj, p[d - 1]), c, p[d])
    ensures !ReachesAvoiding(LinksOf(adj), c, p[|p| - 1], p[..d])
  {
    if ReachesAvoiding(LinksOf(adj), c, p[|p| - 1], p[..d]) {
      EarlierIsLink(adj, p[d - 1], c, p[d]);
      var q := Detour(adj, p, d, c, p[|p| - 1]);
      FirstPathNotLeft(adj, nodes, p, q, d);
    }
  }

  lemma EarlierIsLink(adj: Adjacency, x: Uuid, c: Uuid, y: Uuid)
    requires Earlier(At(adj, x), c, y)
    ensures (x, c) in LinksOf(adj) && c != y
  {
    var i :| 0 <= i < |At(adj, x)| && At(adj, x)[i] == c && y !in At(adj, x)[..i + 1];
    assert At(adj, x)[i] in At(adj, x)[..i + 1];
  }

  /** The choices before those of a first path are dead ends of it. */
  lemma EarlierIsDeadEnd(adj: Adjacency, nodes: seq<Node>, p: seq<Uuid>, d: nat, c: Uuid)
    requires FirstPath(adj, nodes, p) && 1 <= d < |p| && Earlier(At(adj, p[d - 1]), c, p[d])
    ensures DeadEnd(LinksOf(adj), p, d - 1, c)
  {
    var r := LinksOf(adj);
    EarlierIsLink(adj, p[d - 1], c, p[d]);
    NoEarlierWay(adj, nodes, p, d, c);
    forall m | d - 1 < m < |p| ensures !ReachesAvoiding(r, c, p[m], p[..d]) {
      RestAvoids(r, p, d, m);
      if ReachesAvoiding(r, c, p[m], p[..d]) { JoinAvoiding(r, c, p[m], p[|p| - 1], p[..d]); }
    }
  }

  lemma PrefixIsFirst(adj: Adjacency, nodes: seq<Node>, f: seq<Uuid>, i: nat)
    requires FirstPath(adj, nodes, f) && i < |f|
    ensures FirstPath(adj, nodes, f[..i + 1])
  {
    var r, p := LinksOf(adj), f[..i + 1];
    PrefixIsWalk(r, f, i + 1);
    assert forall a, b :: 0 <= a < b < |p| ==> p[a] == f[a] && p[b] == f[b];
    StartServes(adj, nodes, f, i);
    forall q | SimplePath(adj, q, f[0], f[i]) ensures !LeavesEarlier(adj, q, p) {
      if d: nat :| LeavesAt(adj, q, p, d) {
        assert q[..d] == p[..d] == f[..d] && p[d] == f[d] && p[d - 1] == f[d - 1];
        RestAvoids(r, q, d, d);
        RestAvoids(r, f, d, i);
        JoinAvoiding(r, q[d], f[i], f[|f| - 1], f[..d]);
        NoEarlierWay(adj, nodes, f, d, q[d]);
      }
    }
  }

  lemma StartServes(adj: Adjacency, nodes: seq<Node>, f: seq<Uuid>, i: nat)
    requires FirstPath(adj, nodes, f) && i < |f|
    ensures FirstToReach(adj, nodes, f[0], f[i])
  {
    var r, w := LinksOf(adj), f[|f| - 1];
    PartReaches(r, f, 0, i);
    PartReaches(r, f, i, |f| - 1);
    SameStart(adj, nodes, f[0], w, f[i]);
  }

  /** The first node that leads to w is the first that leads to u, when it leads to u and u leads to w. */
  lemma SameStart(adj: Adjacency, nodes: seq<Node>, s: Uuid, w: Uuid, u: Uuid)
    requires FirstToReach(adj, nodes, s, w) && Reaches(LinksOf(adj), s, u) && Reaches(LinksOf(adj), u, w)
    ensures FirstToReach(adj, nodes, s, u)
  {
    var a :| 0 <= a < |nodes| && nodes[a].id == s && NoneReaches(adj, nodes[..a], w);
    forall n | n in nodes[..a] ensures !Reaches(LinksOf(adj), n.id, u) {
      if Reaches(LinksOf(adj), n.id, u) { ReachesOn(LinksOf(adj), n.id, u, w); }
    }
    assert NoneReaches(adj, nodes[..a], u);
  }

  // ----- a node that no loop closes over has an evading path

  /** The first path to w, which lies past p and beyond no dead end of it, goes along p. */
  lemma ExtendsFirst(adj: Adjacency, nodes: seq<Node>, p: seq<Uuid>, f: seq<Uuid>)
    requires FirstPath(adj, nodes, p) && FirstPath(adj, nodes, f) && f[0] == p[0]
    requires LeadsOut(LinksOf(adj), p, f[|f| - 1]) && f[|f| - 1] !in p && !BeyondDeadEnd(LinksOf(adj), p, f[|f| - 1])
    ensures |p| <= |f| && f[..|p|] == p
  {
    var d := 1;
    while d < |p| && d < |f| && p[d] == f[d]
      invariant 1 <= d <= |p| && d <= |f| && f[..d] == p[..d]
      decreases |p| - d
    {
      d := d + 1;
    }
    if d < |p| {
      if d < |f| {
        NoFork(adj, nodes, p, f, d);
      } else {
        PrefixEnds(p, f);
      }
    }
  }

  lemma PrefixEnds(p: seq<Uuid>, f: seq<Uuid>)
    requires 0 < |f| <= |p| && f[..|f|] == p[..|f|]
    ensures f[|f| - 1] in p
  {
    assert f[|f| - 1] == f[..|f|][|f| - 1] == p[|f| - 1];
  }

  lemma NoFork(adj: Adjacency, nodes: seq<Node>, p: seq<Uuid>, f: seq<Uuid>, d: nat)
    requires FirstPath(adj, nodes, p) && FirstPath(adj, nodes, f)
    requires LeadsOut(LinksOf(adj), p, f[|f| - 1]) && !BeyondDeadEnd(LinksOf(adj), p, f[|f| - 1])
    requires 1 <= d < |p| && d < |f| && f[..d] == p[..d]
    ensures p[d] == f[d]
  {
    if p[d] != f[d] {
      var r, w := LinksOf(adj), f[|f| - 1];
      assert p[d - 1] == p[..d][d - 1] == f[d - 1];
      assert (p[d - 1], p[d]) in r && (f[d - 1], f[d]) in r;
      OneIsEarlier(At(adj, p[d - 1]), p[d], f[d]);
      if Earlier(At(adj, p[d - 1]), f[d], p[d]) {
        EarlierIsDeadEnd(adj, nodes, p, d, f[d]);
        RestAvoids(r, f, d, d);
      } else {
        NoEarlierWay(adj, nodes, f, d, p[d]);
        WayOut(r, p, w, d);
      }
    }
  }

  lemma WayOut(r: Relation, p: seq<Uuid>, w: Uuid, d: nat)
    requires IsWalk(r, p) && NoDuplicates(p) && LeadsOut(r, p, w) && d < |p|
    ensures ReachesAvoiding(r, p[d], w, p[..d])
  {
    RestAvoids(r, p, d, d);
    var q :| LeadsOutBy(r, p, q, w);
    assert q == [q[0]] + q[1..];
    forall x | x in q ensures x !in p[..d] {
      if x in q[1..] { assert x !in p; } else { assert x == p[|p| - 1]; }
    }
    assert WalkAvoiding(r, q, p[|p| - 1], w, p[..d]);
    JoinAvoiding(r, p[d], p[|p| - 1], w, p[..d]);
  }

  lemma UnloopedIsEvading(adj: Adjacency, nodes: seq<Node>, p: seq<Uuid>)
    requires FirstPath(adj, nodes, p) && !OnSearchLoop(adj, nodes, p[|p| - 1])
    ensures Evading(LinksOf(adj), p)
  {
    var r := LinksOf(adj);
    forall w: Uuid, v: Uuid | LeadsOut(r, p, w) && (w, v) in r && v in p ensures BeyondDeadEnd(r, p, w) {
      if !BeyondDeadEnd(r, p, w) {
        WayBackLoops(adj, nodes, p, w, v);
      }
    }
  }

  lemma WayBackLoops(adj: Adjacency, nodes: seq<Node>, p: seq<Uuid>, w: Uuid, v: Uuid)
    requires FirstPath(adj, nodes, p) && LeadsOut(LinksOf(adj), p, w) && (w, v) in LinksOf(adj) && v in p
    requires !BeyondDeadEnd(LinksOf(adj), p, w)
    ensures OnSearchLoop(adj, nodes, p[|p| - 1])
  {
    var r, u := LinksOf(adj), p[|p| - 1];
    var k :| 0 <= k < |p| && p[k] == v;
    if w == u {
      assert ClosesLoop(r, p, u);
    } else {
      var q :| LeadsOutBy(r, p, q, w);
      assert w == q[1..][|q| - 2] && w in q[1..];
      StartLeadsOut(adj, nodes, p, w, k);
      var n := StartNode(adj, nodes, p[0], w);
      var f := FirstPathExists(adj, nodes, n, w);
      FirstToReachUnique(adj, nodes, f[0], p[0], w);
      ExtendsFirst(adj, nodes, p, f);
      assert f[|p| - 1] == f[..|p|][|p| - 1] && f[k] == f[..|p|][k];
      assert ClosesLoop(r, f, u);
    }
  }

  lemma StartNode(adj: Adjacency, nodes: seq<Node>, s: Uuid, w: Uuid) returns (n: Node)
    requires FirstToReach(adj, nodes, s, w)
    ensures n in nodes && n.id == s && Reaches(LinksOf(adj), n.id, w)
  {
    var i :| 0 <= i < |nodes| && nodes[i].id == s && Reaches(LinksOf(adj), s, w);
    n := nodes[i];
  }

  lemma StartLeadsOut(adj: Adjacency, nodes: seq<Node>, p: seq<Uuid>, w: Uuid, k: nat)
    requires FirstPath(adj, nodes, p) && LeadsOut(LinksOf(adj), p, w) && k < |p| && (w, p[k]) in LinksOf(adj)
    ensures FirstToReach(adj, nodes, p[0], w)
  {
    var r, u := LinksOf(adj), p[|p| - 1];
    var q :| LeadsOutBy(r, p, q, w);
    assert Reaches(r, u, w);
    PartReaches(r, p, 0, |p| - 1);
    ReachesOn(r, p[0], u, w);
    assert WalkBetween(r, [w, p[k]], w, p[k]);
    PartReaches(r, p, k, |p| - 1);
    ReachesOn(r, w, p[k], u);
    SameStart(adj, nodes, p[0], u, w);
  }

  // ----- an evading path makes such a node, in the right order

  /** At each node of p but the last, the choices before the next one of p are its dead ends. */
  ghost predicate DeadEndsFirst(adj: Adjacency, p: seq<Uuid>) {
    forall j, c :: 0 <= j < |p| - 1 && (p[j], c) in LinksOf(adj) ==>
      (Earlier(At(adj, p[j]), c, p[j + 1]) <==> DeadEnd(LinksOf(adj), p, j, c))
  }

  lemma DeadEndIsEarlier(adj: Adjacency, p: seq<Uuid>, j: nat, c: Uuid)
    requires DeadEndsFirst(adj, p) && j < |p| - 1 && (p[j], c) in LinksOf(adj)
    ensures Earlier(At(adj, p[j]), c, p[j + 1]) <==> DeadEnd(LinksOf(adj), p, j, c)
  {
  }

  lemma FirstOfAll(adj: Adjacency, nodes: seq<Node>, s: Uuid, u: Uuid, p: seq<Uuid>)
    requires WalkBetween(LinksOf(adj), p, s, u) && nodes != [] && nodes[0].id == s
    ensures FirstToReach(adj, nodes, s, u)
  {
    assert NoneReaches(adj, nodes[..0], u);
  }

  lemma EvadingIsFirst(adj: Adjacency, nodes: seq<Node>, p: seq<Uuid>)
    requires IsWalk(LinksOf(adj), p) && NoDuplicates(p) && DeadEndsFirst(adj, p) && nodes != [] && nodes[0].id == p[0]
    ensures FirstPath(adj, nodes, p)
  {
    var r, u := LinksOf(adj), p[|p| - 1];
    FirstOfAll(adj, nodes, p[0], u, p);
    forall q | SimplePath(adj, q, p[0], u) ensures !LeavesEarlier(adj, q, p) {
      if d: nat :| LeavesAt(adj, q, p, d) {
        EarlierIsLink(adj, p[d - 1], q[d], p[d]);
        DeadEndIsEarlier(adj, p, d - 1, q[d]);
        RestAvoids(r, q, d, d);
      }
    }
  }

  /** A first path that comes to the last node of p goes along p. */
  lemma GoesAlong(adj: Adjacency, nodes: seq<Node>, p: seq<Uuid>, f: seq<Uuid>, i: nat)
    requires FirstPath(adj, nodes, p) && FirstPath(adj, nodes, f) && i < |f| && f[i] == p[|p| - 1]
    ensures |p| == i + 1 && f[..|p|] == p && forall k :: 0 <= k <= i ==> f[k] == p[k]
  {
    PrefixIsFirst(adj, nodes, f, i);
    FirstPathUnique(adj, nodes, f[..i + 1], p);
    forall k | 0 <= k <= i ensures f[k] == p[k] { assert f[k] == f[..i + 1][k]; }
  }

  lemma NoLoopAlong(adj: Adjacency, nodes: seq<Node>, p: seq<Uuid>, f: seq<Uuid>, k: nat)
    requires Evading(LinksOf(adj), p) && DeadEndsFirst(adj, p)
    requires FirstPath(adj, nodes, f) && 0 < |p| <= |f| && f[..|p|] == p && k < |p|
    ensures (f[|f| - 1], p[k]) !in LinksOf(adj)
  {
    RestLeadsOut(LinksOf(adj), p, f);
    NotBeyond(adj, nodes, p, f);
    assert p[k] in p;
  }

  lemma EvadingUnlooped(adj: Adjacency, nodes: seq<Node>, p: seq<Uuid>)
    requires Evading(LinksOf(adj), p) && DeadEndsFirst(adj, p) && nodes != [] && nodes[0].id == p[0]
    ensures !OnSearchLoop(adj, nodes, p[|p| - 1])
  {
    EvadingIsFirst(adj, nodes, p);
    forall f | FirstPath(adj, nodes, f) ensures !ClosesLoop(LinksOf(adj), f, p[|p| - 1]) {
      forall k, i | 0 <= k <= i < |f| && f[i] == p[|p| - 1] ensures (f[|f| - 1], f[k]) !in LinksOf(adj) {
        GoesAlong(adj, nodes, p, f, i);
        NoLoopAlong(adj, nodes, p, f, k);
      }
    }
  }

  lemma RestLeadsOut(r: Relation, p: seq<Uuid>, f: seq<Uuid>)
    requires IsWalk(r, f) && NoDuplicates(f) && 0 < |p| <= |f| && f[..|p|] == p
    ensures LeadsOut(r, p, f[|f| - 1])
  {
    var n := |p|;
    SuffixIsWalk(r, f, n - 1);
    var q := f[n - 1..];
    assert q[0] == f[..n][n - 1] == p[n - 1];
    forall x | x in q[1..] ensures x !in p {
      var i :| 0 <= i < |q[1..]| && q[1..][i] == x;
      assert x == f[n + i];
      assert forall j :: 0 <= j < n ==> p[j] == f[j];
    }
    assert LeadsOutBy(r, p, q, f[|f| - 1]);
  }

  lemma AgreeAt(p: seq<Uuid>, f: seq<Uuid>, j: nat)
    requires j + 1 < |p| <= |f| && f[..|p|] == p
    ensures f[..j + 1] == p[..j + 1] && f[j] == p[j] && f[j + 1] == p[j + 1]
  {
    assert f[..j + 1] == f[..|p|][..j + 1] && f[j] == f[..|p|][j] && f[j + 1] == f[..|p|][j + 1];
  }

  /** What a first path along p reaches does not lie beyond a dead end of p. */
  lemma NotBeyond(adj: Adjacency, nodes: seq<Node>, p: seq<Uuid>, f: seq<Uuid>)
    requires FirstPath(adj, nodes, f) && DeadEndsFirst(adj, p) && 0 < |p| <= |f| && f[..|p|] == p
    ensures !BeyondDeadEnd(LinksOf(adj), p, f[|f| - 1])
  {
    var r, w := LinksOf(adj), f[|f| - 1];
    if BeyondDeadEnd(r, p, w) {
      var j, c :| DeadEnd(r, p, j, c) && ReachesAvoiding(r, c, w, p[..j + 1]);
      DeadEndIsEarlier(adj, p, j, c);
      AgreeAt(p, f, j);
      NoEarlierWay(adj, nodes, f, j + 1, c);
    }
  }
}
