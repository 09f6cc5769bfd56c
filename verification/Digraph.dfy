/**
  Walks, reachability and cycles of a finite directed graph given by its links.
*/
module Digraph {
  import opened Domain

  type Relation = set<(Uuid, Uuid)>

  ghost predicate IsWalk(r: Relation, p: seq<Uuid>) {
    |p| > 0 && forall i :: 0 <= i < |p| - 1 ==> (p[i], p[i + 1]) in r
  }

  ghost predicate WalkBetween(r: Relation, p: seq<Uuid>, u: Uuid, v: Uuid) {
    IsWalk(r, p) && p[0] == u && p[|p| - 1] == v
  }

  ghost predicate Reaches(r: Relation, u: Uuid, v: Uuid) {
    exists p :: WalkBetween(r, p, u, v)
  }

  ghost predicate IsCycle(r: Relation, p: seq<Uuid>) {
    |p| >= 2 && IsWalk(r, p) && p[0] == p[|p| - 1]
  }

  ghost predicate OnCycle(r: Relation, u: Uuid) {
    exists p :: IsCycle(r, p) && p[0] == u
  }

  /** A cycle that repeats no node. */
  ghost predicate SimpleCycle(r: Relation, p: seq<Uuid>) {
    IsCycle(r, p) && NoDuplicates(p[1..])
  }

  ghost predicate Acyclic(r: Relation) {
    forall p :: !IsCycle(r, p)
  }

  /** The cycle p, started at its node k. */
  function Rotated(p: seq<Uuid>, k: nat): seq<Uuid>
    requires k < |p|
  {
    p[k..] + p[1..k + 1]
  }

  lemma RotatedIsCycle(r: Relation, p: seq<Uuid>, k: nat)
    requires IsCycle(r, p) && k < |p|
    ensures IsCycle(r, Rotated(p, k)) && Rotated(p, k)[0] == p[k]
  {
    var q := Rotated(p, k);
    forall i | 0 <= i < |q| - 1 ensures (q[i], q[i + 1]) in r {
      if i < |p| - k - 1 {
        assert q[i] == p[k + i] && q[i + 1] == p[k + i + 1];
      } else {
        var j := i - (|p| - k - 1);
        assert q[i] == p[j] && q[i + 1] == p[j + 1];
      }
    }
  }

  lemma RotatedIsSimple(r: Relation, p: seq<Uuid>, k: nat)
    requires SimpleCycle(r, p) && k < |p| - 1
    ensures SimpleCycle(r, Rotated(p, k)) && Rotated(p, k)[0] == p[k] && Rotated(p, k)[1] == p[k + 1]
    ensures p[0] in Rotated(p, k)
  {
    RotatedIsCycle(r, p, k);
    var q, rest, n := Rotated(p, k), p[1..], |p| - k - 1;
    assert q[n] == p[|p| - 1];
    forall i, j | 0 <= i < j < |q[1..]| ensures q[1..][i] != q[1..][j] {
      assert q[1..][i] == if i < n then rest[k + i] else rest[i - n];
      assert q[1..][j] == if j < n then rest[k + j] else rest[j - n];
    }
  }

  /** Every node of a cycle is on a cycle: start the cycle there. */
  lemma CycleRotates(r: Relation, p: seq<Uuid>, k: nat)
    requires IsCycle(r, p) && k < |p|
    ensures OnCycle(r, p[k])
  {
    RotatedIsCycle(r, p, k);
  }

  /** A link from the end of a repetition-free walk back to its node k closes a simple cycle. */
  lemma ClosingIsSimple(r: Relation, p: seq<Uuid>, k: nat)
    requires IsWalk(r, p) && NoDuplicates(p) && k < |p| && (p[|p| - 1], p[k]) in r
    ensures SimpleCycle(r, [p[|p| - 1]] + p[k..])
  {
    var q := [p[|p| - 1]] + p[k..];
    forall x | 0 <= x < |q| - 1 ensures (q[x], q[x + 1]) in r {
      if x > 0 { assert (p[k + x - 1], p[k + x]) in r; }
    }
    assert q[1..] == p[k..];
  }

  /** A stretch of a walk between two visits of one node is a cycle. */
  lemma RepeatIsCycle(r: Relation, p: seq<Uuid>, i: nat, j: nat)
    requires IsWalk(r, p) && i < j < |p| && p[i] == p[j]
    ensures IsCycle(r, p[i..j + 1])
  {
    var q := p[i..j + 1];
    forall k | 0 <= k < |q| - 1 ensures (q[k], q[k + 1]) in r {
      assert q[k] == p[i + k] && q[k + 1] == p[i + k + 1];
    }
  }

  lemma SuffixIsWalk(r: Relation, p: seq<Uuid>, d: nat)
    requires IsWalk(r, p) && d < |p|
    ensures IsWalk(r, p[d..])
  {
    forall m | 0 <= m < |p[d..]| - 1 ensures (p[d..][m], p[d..][m + 1]) in r { assert (p[d + m], p[d + m + 1]) in r; }
  }

  /** In an acyclic graph no walk visits a node twice. */
  lemma AcyclicWalkDistinct(r: Relation, p: seq<Uuid>)
    requires Acyclic(r) && IsWalk(r, p)
    ensures NoDuplicates(p)
  {
    forall i, j | 0 <= i < j < |p| ensures p[i] != p[j] {
      if p[i] == p[j] {
        RepeatIsCycle(r, p, i, j);
      }
    }
  }

  /** A duplicate-free sequence over a finite set is no longer than the set. */
  lemma {:induction false} DistinctFits(p: seq<Uuid>, ids: set<Uuid>)
    requires NoDuplicates(p) && forall x :: x in p ==> x in ids
    ensures |p| <= |ids|
  {
    if p != [] {
      DistinctFits(p[1..], ids - {p[0]});
    }
  }

  lemma WalkExtends(r: Relation, p: seq<Uuid>, u: Uuid, v: Uuid, w: Uuid)
    requires WalkBetween(r, p, u, v) && (v, w) in r
    ensures WalkBetween(r, p + [w], u, w)
  {
    var q := p + [w];
    forall i | 0 <= i < |q| - 1 ensures (q[i], q[i + 1]) in r {
      if i < |p| - 1 { assert q[i] == p[i] && q[i + 1] == p[i + 1]; }
    }
  }

  /** A set that contains u and is closed under links contains all that u reaches. */
  lemma {:induction false} ClosedUnderWalks(r: Relation, s: set<Uuid>, p: seq<Uuid>)
    requires IsWalk(r, p) && p[0] in s
    requires forall l :: l in r && l.0 in s ==> l.1 in s
    ensures p[|p| - 1] in s
  {
    if |p| > 1 {
      assert (p[0], p[1]) in r;
      assert IsWalk(r, p[1..]) by {
        forall i | 0 <= i < |p| - 2 ensures (p[1..][i], p[1..][i + 1]) in r {
          assert (p[i + 1], p[i + 2]) in r;
        }
      }
      ClosedUnderWalks(r, s, p[1..]);
    }
  }
}
