/**
  What can be chosen now: sortEdges and OutgoingEdges (internal/domain/playbook/playbook.go)
  and choicesFor (internal/service/investigationservice/service.go).
*/
module Choices {
  import opened Domain
  import opened StableSort
  import opened Engine

  /** "a may stand before b": by sort_order, then label. */
  predicate EdgeLe(a: Edge, b: Edge) {
    a.sortOrder < b.sortOrder || (a.sortOrder == b.sortOrder && StringLe(a.caption, b.caption))
  }

  lemma EdgeOrder()
    ensures TotalPreorder(EdgeLe)
  {
    forall x, y ensures EdgeLe(x, y) || EdgeLe(y, x) { StringLeTotal(x.caption, y.caption); }
    forall x, y, z | EdgeLe(x, y) && EdgeLe(y, z) ensures EdgeLe(x, z) {
      if x.sortOrder == y.sortOrder == z.sortOrder { StringLeTransitive(x.caption, y.caption, z.caption); }
    }
  }

  lemma {:induction false} InsertPastTail(pre: seq<Edge>, x: Edge, j: nat)
    requires j < |pre| && forall k :: j < k < |pre| ==> !EdgeLe(pre[k], x)
    requires !EdgeLe(pre[j], x)
    ensures Insert(EdgeLe, pre, x) == Insert(EdgeLe, pre[..j], x) + pre[j..]
  {
    var init := pre[..|pre| - 1];
    if j < |pre| - 1 {
      InsertPastTail(init, x, j);
      assert init[..j] == pre[..j] && init[j..] + [pre[|pre| - 1]] == pre[j..];
    } else {
      assert init == pre[..j] && pre[j..] == [pre[|pre| - 1]];
    }
  }

  /** Inserting an element that belongs right after the first j. */
  lemma InsertAt(pre: seq<Edge>, x: Edge, j: nat)
    requires j <= |pre| && forall k :: j <= k < |pre| ==> !EdgeLe(pre[k], x)
    requires j > 0 ==> EdgeLe(pre[j - 1], x)
    ensures Insert(EdgeLe, pre, x) == pre[..j] + [x] + pre[j..]
  {
    if j < |pre| {
      InsertPastTail(pre, x, j);
      assert j > 0 ==> pre[..j][j - 1] == pre[j - 1];
    } else {
      assert pre[..j] == pre && pre[j..] == [];
    }
  }

  /** x has sunk from place i to place j of t, past larger elements; pre is what was below it. */
  ghost predicate SunkTo(t: seq<Edge>, pre: seq<Edge>, x: Edge, j: nat) {
    && j <= |pre| < |t| && t[j] == x && t[..j] == pre[..j] && t[j + 1..|pre| + 1] == pre[j..]
    && forall k :: j <= k < |pre| ==> !EdgeLe(pre[k], x)
  }

  lemma SinksOn(t: seq<Edge>, t': seq<Edge>, pre: seq<Edge>, x: Edge, j: nat)
    requires SunkTo(t, pre, x, j) && j > 0 && !EdgeLe(t[j - 1], x) && t' == t[j - 1 := x][j := t[j - 1]]
    ensures SunkTo(t', pre, x, j - 1) && t'[|pre| + 1..] == t[|pre| + 1..]
  {
    var n := |pre| + 1;
    var lower := t[j - 1];
    assert lower == t[..j][j - 1] == pre[j - 1];
    assert t'[..j - 1] == t[..j][..j - 1] == pre[..j - 1];
    assert t'[j..n] == [lower] + t[j + 1..n] == [pre[j - 1]] + pre[j..] == pre[j - 1..];
  }

  lemma SunkIsInserted(t: seq<Edge>, pre: seq<Edge>, x: Edge, j: nat)
    requires SunkTo(t, pre, x, j) && (j > 0 ==> EdgeLe(t[j - 1], x))
    ensures t[..|pre| + 1] == Insert(EdgeLe, pre, x)
  {
    assert j > 0 ==> t[..j][j - 1] == pre[j - 1];
    InsertAt(pre, x, j);
    assert t[..|pre| + 1] == t[..j] + [t[j]] + t[j + 1..|pre| + 1];
  }

  /** Sink a[i] into the sorted prefix below it. */
  method SinkEdge(a: array<Edge>, i: nat)
    requires 0 < i < a.Length
    modifies a
    ensures a[..i + 1] == Insert(EdgeLe, old(a[..i]), old(a[i]))
    ensures a[i + 1..] == old(a[i + 1..])
  {
    ghost var pre, x, rest := a[..i], a[i], a[i + 1..];
    var j := i;
    while j > 0
      invariant 0 <= j <= i && SunkTo(a[..], pre, x, j) && a[i + 1..] == rest
      decreases j
    {
      ghost var t := a[..];
      var lower, upper := a[j - 1], a[j];
      if EdgeLe(lower, upper) {
        break;
      }
      a[j - 1], a[j] := upper, lower;
      SinksOn(t, a[..], pre, x, j);
      j := j - 1;
    }
    SunkIsInserted(a[..], pre, x, j);
  }

  /** The first i elements of s, sorted, and then the rest. */
  ghost predicate SortedTo(t: seq<Edge>, s: seq<Edge>, i: nat) {
    i <= |t| == |s| && t[..i] == Sort(EdgeLe, s[..i]) && t[i..] == s[i..]
  }

  lemma SinkSorts(t: seq<Edge>, t': seq<Edge>, s: seq<Edge>, i: nat)
    requires i < |t| == |t'| && SortedTo(t, s, i)
    requires t'[..i + 1] == Insert(EdgeLe, t[..i], t[i]) && t'[i + 1..] == t[i + 1..]
    ensures SortedTo(t', s, i + 1)
  {
    assert t[i] == t[i..][0] == s[i..][0] == s[i];
    assert t[i + 1..] == t[i..][1..] == s[i..][1..] == s[i + 1..];
    assert s[..i + 1][..i] == s[..i];
  }

  lemma SortedToOne(s: seq<Edge>)
    requires |s| > 0
    ensures SortedTo(s, s, 1)
  {
    assert s[..1] == [s[0]] && Sort(EdgeLe, []) == [];
  }

  lemma SortedToEnd(t: seq<Edge>, s: seq<Edge>)
    requires SortedTo(t, s, |t|)
    ensures t == Sort(EdgeLe, s)
  {
    assert t[..|t|] == t && s[..|t|] == s;
  }

  /** sortEdges: the in-place insertion sort is a stable sort. */
  method SortEdges(a: array<Edge>)
    modifies a
    ensures a[..] == Sort(EdgeLe, old(a[..]))
  {
    ghost var s := a[..];
    if a.Length > 0 {
      SortedToOne(s);
      var i := 1;
      while i < a.Length
        invariant 1 <= i <= a.Length && SortedTo(a[..], s, i)
      {
        ghost var t := a[..];
        SinkEdge(a, i);
        SinkSorts(t, a[..], s, i);
        i := i + 1;
      }
      SortedToEnd(a[..], s);
    }
  }

  function Leaving(edges: seq<Edge>, node: Uuid): seq<Edge> {
    if edges == [] then []
    else
      var e := edges[|edges| - 1];
      Leaving(edges[..|edges| - 1], node) + if e.from == node then [e] else []
  }

  /** What OutgoingEdges returns. */
  function SortedChoices(g: Graph, node: Uuid): seq<Edge> {
    Sort(EdgeLe, Leaving(g.edges, node))
  }

  /** Graph.OutgoingEdges: collect, then sort in place. */
  method OutgoingEdges(g: Graph, node: Uuid) returns (choices: seq<Edge>)
    ensures choices == SortedChoices(g, node)
  {
    var out := [];
    for i := 0 to |g.edges|
      invariant out == Leaving(g.edges[..i], node)
    {
      assert g.edges[..i + 1][..i] == g.edges[..i];
      if g.edges[i].from == node {
        out := out + [g.edges[i]];
      }
    }
    assert g.edges[..|g.edges|] == g.edges;
    var a := new Edge[|out|](i requires 0 <= i < |out| => out[i]);
    assert a[..] == out;
    SortEdges(a);
    return a[..];
  }

  /** choicesFor: a completed investigation offers nothing. */
  function ChoicesFor(g: Graph, inv: Investigation): seq<Edge> {
    if inv.status == Done then [] else SortedChoices(g, inv.current)
  }

  // ----- canonical order

  lemma {:induction false} LeavingAre(edges: seq<Edge>, node: Uuid)
    ensures forall e :: multiset(Leaving(edges, node))[e] == if e.from == node then multiset(edges)[e] else 0
  {
    if edges != [] {
      LeavingAre(edges[..|edges| - 1], node);
      assert edges == edges[..|edges| - 1] + [edges[|edges| - 1]];
    }
  }

  lemma ChoicesAre(g: Graph, node: Uuid)
    ensures forall e :: multiset(SortedChoices(g, node))[e] == if e.from == node then multiset(g.edges)[e] else 0
    ensures forall e :: e in SortedChoices(g, node) <==> e in g.edges && e.from == node
    ensures Sorted(EdgeLe, SortedChoices(g, node))
  {
    EdgeOrder();
    SortSorts(EdgeLe, Leaving(g.edges, node));
    SortPermutes(EdgeLe, Leaving(g.edges, node));
    LeavingAre(g.edges, node);
    forall e ensures e in SortedChoices(g, node) <==> e in g.edges && e.from == node {
      assert e in SortedChoices(g, node) <==> e in multiset(SortedChoices(g, node));
      assert e in g.edges <==> e in multiset(g.edges);
    }
  }

  /** Along the list sort orders never fall, and labels never fall among equal ones. */
  lemma ChoicesInOrder(g: Graph, node: Uuid, i: nat, j: nat)
    requires i < j < |SortedChoices(g, node)|
    ensures var a, b := SortedChoices(g, node)[i], SortedChoices(g, node)[j];
      a.sortOrder < b.sortOrder ||
        (a.sortOrder == b.sortOrder && (a.caption == b.caption || exists k: nat :: TextBefore(a.caption, b.caption, k)))
  {
    ChoicesAre(g, node);
    StringLeIs(SortedChoices(g, node)[i].caption, SortedChoices(g, node)[j].caption);
  }

  lemma {:induction false} TiesAreEqual(g: Graph, node: Uuid)
    requires UniqueLabels(g.edges)
    ensures TiesEqual(EdgeLe, SortedChoices(g, node))
  {
    ChoicesAre(g, node);
    var s := SortedChoices(g, node);
    forall i, j | 0 <= i < |s| && 0 <= j < |s| && EdgeLe(s[i], s[j]) && EdgeLe(s[j], s[i]) ensures s[i] == s[j] {
      StringLeTotal(s[i].caption, s[j].caption);
      assert s[i] in s && s[j] in s;
      var k :| 0 <= k < |g.edges| && g.edges[k] == s[i];
      var l :| 0 <= l < |g.edges| && g.edges[l] == s[j];
    }
  }

  lemma SameChoices(g: Graph, h: Graph, node: Uuid)
    requires multiset(g.edges) == multiset(h.edges)
    ensures multiset(SortedChoices(g, node)) == multiset(SortedChoices(h, node))
  {
    ChoicesAre(g, node);
    ChoicesAre(h, node);
  }

  /** Whatever order the edges are stored in, the choices come in the same order. */
  lemma ChoicesCanonical(g: Graph, h: Graph, node: Uuid)
    requires UniqueLabels(g.edges) && multiset(g.edges) == multiset(h.edges)
    ensures SortedChoices(g, node) == SortedChoices(h, node)
  {
    ChoicesAre(g, node);
    ChoicesAre(h, node);
    TiesAreEqual(g, node);
    SameChoices(g, h, node);
    SortedUnique(EdgeLe, SortedChoices(g, node), SortedChoices(h, node));
  }

  /** An edge is offered exactly when choosing it would be accepted. */
  lemma OfferedIffAccepted(g: Graph, inv: Investigation, e: Edge, t: Time)
    requires Playable(g) && Standing(g, inv)
    ensures e in ChoicesFor(g, inv) <==> e in g.edges && Submit(g, inv, Choice(e.id, t)).Ok?
  {
    ChoicesAre(g, inv.current);
    if e in g.edges {
      AcceptedIffLeaves(g, inv, e, t);
    }
  }

  /** Something is offered exactly while the investigation is in progress. */
  lemma OfferedWhileInProgress(g: Graph, inv: Investigation)
    requires Playable(g) && Standing(g, inv)
    ensures ChoicesFor(g, inv) != [] <==> inv.status == InProgress
  {
    if inv.status == InProgress {
      NeverStuck(g, inv);
      var e :| e in g.edges && e.from == inv.current && forall t :: Submit(g, inv, Choice(e.id, t)).Ok?;
      ChoicesAre(g, inv.current);
      assert e in SortedChoices(g, inv.current);
    }
  }
}
