/**
  PlaybookRepository (internal/repository/postgres/playbook.go): create, clone, replace
  and publish versions, each as one transaction that is rolled back on any error.
*/
module VersionStore {
  import opened Domain
  import opened PublishRules
  import opened StableSort
  import opened GraphValidation
  import opened Engine
  import opened Cloning
  import opened VersionTables
  import opened VersionScripts
  import opened VersionContent

  lemma RunUnfolds(t: Tables, v: Uuid, s: Stmt, rest: seq<Stmt>)
    requires v in t.versions
    ensures RunAll(t, v, [s] + rest) == if Exec(t, v, s).Ran? then RunAll(Exec(t, v, s).tables, v, rest) else Exec(t, v, s)
  {
    assert ([s] + rest)[1..] == rest;
  }

  lemma NodeStmtsUnfold(ns: seq<Node>, i: nat, later: seq<Stmt>)
    requires i < |ns|
    ensures NodeStmts(ns[i..]) + later == [AddNode(ns[i])] + (NodeStmts(ns[i + 1..]) + later)
  {
    assert ns[i..][1..] == ns[i + 1..];
  }

  lemma EdgeStmtsUnfold(es: seq<Edge>, i: nat, later: seq<Stmt>)
    requires i < |es|
    ensures EdgeStmts(es[i..]) + later == [AddEdge(es[i])] + (EdgeStmts(es[i + 1..]) + later)
  {
    assert es[i..][1..] == es[i + 1..];
  }

  // ----- the repository

  /** Read the rows of a query result one by one. */
  method ListRows<T(==)>(rows: set<T>) returns (list: seq<T>)
    ensures NoDuplicates(list) && forall x :: x in list <==> x in rows
  {
    var rest := rows;
    list := [];
    while rest != {}
      invariant rest <= rows && NoDuplicates(list)
      invariant forall x :: x in list <==> x in rows && x !in rest
      decreases rest
    {
      var x :| x in rest;
      rest := rest - {x};
      list := list + [x];
    }
  }

  class PlaybookRepository {
    var tables: Tables
    const collation: Collation

    constructor (collation: Collation)
      ensures tables == Tables(map[], map[], {}, {}) && this.collation == collation
    {
      tables := Tables(map[], map[], {}, {});
      this.collation := collation;
    }

    /** A definition as loadDefinition reads it. */
    ghost predicate IsLoaded(d: Definition, v: Uuid)
      reads this
    {
      v in tables.versions && d.version == tables.versions[v] && Loads(collation, d.graph, ContentOf(tables, v))
    }

    /** The stored graph has these issues. */
    ghost predicate Rejected(v: Uuid, issues: seq<Issue>)
      requires v in tables.versions
      reads this
    {
      exists g :: Loads(collation, g, ContentOf(tables, v)) && issues != [] && IsReportOf(g, issues)
    }

    method ExecStmt(v: Uuid, s: Stmt) returns (ok: bool)
      requires v in tables.versions
      modifies this
      ensures ok == Exec(old(tables), v, s).Ran?
      ensures tables == if ok then Exec(old(tables), v, s).tables else old(tables)
    {
      var o := Exec(tables, v, s);
      ok := o.Ran?;
      if ok { tables := o.tables; }
    }

    method ClearGraph(v: Uuid)
      requires Consistent(tables) && v in tables.versions
      modifies this
      ensures tables == Cleared(old(tables), v)
    {
      ClearRuns(tables, v);
      ghost var t0 := tables;
      var ok := ExecStmt(v, ClearRoot);
      RunStep(t0, v, ClearRoot, [DropEdges, DropNodes]);
      ghost var t1 := tables;
      ok := ExecStmt(v, DropEdges);
      ok := ExecStmt(v, DropNodes);
    }

    /** The node batch, then the edge batch, then the root. */
    method WriteGraph(v: Uuid, g: Graph) returns (ok: bool)
      requires v in tables.versions
      modifies this
      ensures ok == RunAll(old(tables), v, WriteScript(g)).Ran?
      ensures ok ==> tables == RunAll(old(tables), v, WriteScript(g)).tables
    {
      ghost var whole := RunAll(tables, v, WriteScript(g));
      ghost var later := EdgeStmts(g.edges) + RootStmts(g.root);
      for i := 0 to |g.nodes|
        invariant v in tables.versions && RunAll(tables, v, NodeStmts(g.nodes[i..]) + later) == whole
      {
        NodeStmtsUnfold(g.nodes, i, later);
        RunUnfolds(tables, v, AddNode(g.nodes[i]), NodeStmts(g.nodes[i + 1..]) + later);
        ok := ExecStmt(v, AddNode(g.nodes[i]));
        if !ok { return; }
      }
      assert NodeStmts(g.nodes[|g.nodes|..]) + later == EdgeStmts(g.edges[0..]) + RootStmts(g.root);
      for i := 0 to |g.edges|
        invariant v in tables.versions && RunAll(tables, v, EdgeStmts(g.edges[i..]) + RootStmts(g.root)) == whole
      {
        EdgeStmtsUnfold(g.edges, i, RootStmts(g.root));
        RunUnfolds(tables, v, AddEdge(g.edges[i]), EdgeStmts(g.edges[i + 1..]) + RootStmts(g.root));
        ok := ExecStmt(v, AddEdge(g.edges[i]));
        if !ok { return; }
      }
      assert EdgeStmts(g.edges[|g.edges|..]) + RootStmts(g.root) == RootStmts(g.root);
      ok := true;
      if g.root != None {
        RunUnfolds(tables, v, PutRoot(g.root.value), []);
        assert RootStmts(g.root) == [PutRoot(g.root.value)] + [];
        ok := ExecStmt(v, PutRoot(g.root.value));
      }
    }

    /** The rows of a version, each once, in the order that the queries ask for. */
    method LoadGraph(v: Uuid) returns (g: Graph)
      requires v in tables.versions
      ensures Loads(collation, g, ContentOf(tables, v))
    {
      var nodes := ListRows(NodesOf(tables, v));
      var edges := ListRows(EdgesOf(tables, v));
      OrdersTotal(collation);
      SortLists(NodeOrderBy(collation), nodes);
      SortLists(EdgeOrderBy(collation), edges);
      g := Graph(tables.versions[v].root, Sort(NodeOrderBy(collation), nodes), Sort(EdgeOrderBy(collation), edges));
    }

    /** ReplaceGraph succeeds exactly on a draft, for a storable graph. */
    method ReplaceGraph(v: Uuid, g: Graph) returns (r: Result<Definition>)
      requires Consistent(tables)
      modifies this
      ensures Consistent(tables)
      ensures r.Ok? <==> IsDraft(old(tables), v) && Storable(old(tables), v, g)
      ensures r.Ok? ==> tables == Stored(old(tables), v, g) && OnlyVersion(old(tables), tables, v)
      ensures r.Ok? ==> r.value.version == old(tables).versions[v].(root := g.root) && SameGraph(r.value.graph, g)
      ensures r.Ok? ==> IsLoaded(r.value, v)
      ensures r.Err? ==> tables == old(tables)
      ensures r.Err? ==> r.error == if v !in tables.versions then NotFound
        else if tables.versions[v].status != Draft then Conflict else Invalid
    {
      var saved := tables;
      if v !in tables.versions {
        return Err(NotFound);
      }
      if tables.versions[v].status != Draft {
        return Err(Conflict);
      }
      ReplaceExact(tables, v, g);
      ClearExact(tables, v);
      RunConcat(tables, v, CLEAR_SCRIPT, WriteScript(g));
      ClearGraph(v);
      var ok := WriteGraph(v, g);
      if !ok {
        tables := saved;
        return Err(Invalid);
      }
      var h := LoadGraph(v);
      ReloadsSame(saved, v, g, h);
      return Ok(Definition(tables.versions[v], h));
    }

    /** Publish succeeds exactly on a draft whose stored graph is publishable, and changes only its status. */
    method Publish(v: Uuid, now: Time) returns (r: Result<Definition>, issues: seq<Issue>)
      requires Consistent(tables)
      modifies this
      ensures Consistent(tables)
      ensures r.Ok? <==> IsDraft(old(tables), v) && PublishableContent(ContentOf(old(tables), v))
      ensures r.Ok? ==> tables == PutRow(old(tables), v, old(tables).versions[v].(status := Published, publishedAt := Some(now)))
      ensures r.Ok? ==> Publishable(r.value.graph) && IsLoaded(r.value, v)
      ensures r.Err? ==> tables == old(tables)
      ensures r.Err? ==> r.error == if v !in tables.versions then NotFound
        else if tables.versions[v].status != Draft then Conflict else Invalid
      ensures r.Err? && IsDraft(old(tables), v) ==> Rejected(v, issues)
    {
      issues := [];
      if v !in tables.versions {
        return Err(NotFound), [];
      }
      if tables.versions[v].status != Draft {
        return Err(Conflict), [];
      }
      var g := LoadGraph(v);
      issues := Validate(g);
      forall h | Lists(h, ContentOf(tables, v)) ensures Publishable(h) <==> Publishable(g) {
        ListingsAgree(g, h, ContentOf(tables, v));
        ListingsAgree(h, g, ContentOf(tables, v));
      }
      if issues != [] {
        return Err(Invalid), issues;
      }
      ExecKeeps(tables, v, MarkPublished(now));
      ghost var before := tables;
      var ok := ExecStmt(v, MarkPublished(now));
      var h := LoadGraph(v);
      assert NodesOf(tables, v) == NodesOf(before, v) && EdgesOf(tables, v) == EdgesOf(before, v);
      assert Lists(h, ContentOf(before, v));
      return Ok(Definition(tables.versions[v], h)), [];
    }

    /** SELECT COALESCE(MAX(version), 0) + 1. */
    method NextNumber(pb: Uuid) returns (n: int)
      ensures IsNextNumber(NumbersOf(tables, pb), n)
    {
      var rest := NumbersOf(tables, pb);
      ghost var all := rest;
      n := 1;
      if rest == {} { return; }
      var k :| k in rest;
      n, rest := k + 1, rest - {k};
      while rest != {}
        invariant rest <= all && n - 1 in all && forall x :: x in all && x !in rest ==> x < n
        decreases rest
      {
        k :| k in rest;
        rest := rest - {k};
        if k >= n { n := k + 1; }
      }
    }

    /**
      CreateVersion: the next number, and when cloning, a copy of the source that shares
      no id with anything stored. newId and minted are what the id generators return.
    */
    method CreateVersion(pb: Uuid, cloneFrom: Option<Uuid>, newId: Uuid, minted: seq<Uuid>)
      returns (r: Result<Definition>, ghost source: Graph, ghost names: map<Uuid, Uuid>)
      requires Consistent(tables) && newId !in tables.versions
      requires NoDuplicates(minted) && Unused(tables, minted)
      requires cloneFrom.Some? && cloneFrom.value in tables.versions ==>
        |minted| == |NodesOf(tables, cloneFrom.value)| + |EdgesOf(tables, cloneFrom.value)|
      modifies this
      ensures Consistent(tables)
      ensures r.Ok? <==> pb in old(tables).playbooks && (cloneFrom.Some? ==> BelongsTo(old(tables), cloneFrom.value, pb))
      ensures r.Ok? ==> IsDraft(tables, newId)
      ensures r.Ok? ==> IsNextNumber(NumbersOf(old(tables), pb), tables.versions[newId].number)
      ensures r.Ok? ==> NumbersOf(tables, pb) == NumbersOf(old(tables), pb) + {tables.versions[newId].number}
      ensures r.Ok? ==> forall v :: v in old(tables).versions ==> v in tables.versions && ContentOf(tables, v) == ContentOf(old(tables), v)
      ensures r.Ok? ==> IsLoaded(r.value, newId)
      ensures r.Ok? && cloneFrom == None ==> HoldsNoGraph(tables, newId)
      ensures r.Ok? && cloneFrom.Some? ==> Lists(source, ContentOf(old(tables), cloneFrom.value))
      ensures r.Ok? && cloneFrom.Some? ==> exists copy :: IsCopy(source, copy, names) && Lists(copy, ContentOf(tables, newId))
      ensures r.Err? ==> tables == old(tables)
      ensures r.Err? ==> r.error == if pb !in tables.playbooks || (cloneFrom.Some? && cloneFrom.value !in tables.versions)
        then NotFound else Invalid
    {
      var saved := tables;
      names, source := map[], Graph(None, [], []);
      var loaded := Graph(None, [], []);
      if cloneFrom != None {
        if cloneFrom.value !in tables.versions {
          return Err(NotFound), source, names;
        }
        loaded := LoadGraph(cloneFrom.value);
        source := loaded;
      }
      if pb !in tables.playbooks {
        return Err(NotFound), source, names;
      }
      if cloneFrom != None && tables.versions[cloneFrom.value].playbookId != pb {
        return Err(Invalid), source, names;
      }
      InsertVersion(pb, newId);
      if cloneFrom != None {
        ListingLengths(loaded, ContentOf(saved, cloneFrom.value));
        ghost var before := tables;
        names := CloneInto(cloneFrom.value, loaded, newId, minted);
        SameNumbers(before, tables, newId, pb);
      }
      var g := LoadGraph(newId);
      return Ok(Definition(tables.versions[newId], g)), source, names;
    }

    /** The next number, and the row that takes it. */
    method InsertVersion(pb: Uuid, newId: Uuid)
      requires Consistent(tables) && newId !in tables.versions && pb in tables.playbooks
      modifies this
      ensures Consistent(tables) && HoldsNoGraph(tables, newId) && IsDraft(tables, newId)
      ensures tables.versions[newId].playbookId == pb
      ensures IsNextNumber(NumbersOf(old(tables), pb), tables.versions[newId].number)
      ensures NumbersOf(tables, pb) == NumbersOf(old(tables), pb) + {tables.versions[newId].number}
      ensures tables == WithVersion(old(tables), tables.versions[newId])
      ensures forall v :: v in old(tables).versions ==> v in tables.versions && ContentOf(tables, v) == ContentOf(old(tables), v)
    {
      var n := NextNumber(pb);
      assert n !in NumbersOf(tables, pb);
      WithVersionKeeps(tables, NewVersion(newId, pb, n));
      tables := WithVersion(tables, NewVersion(newId, pb, n));
    }

    /** Write a clone of a loaded graph into a version that has no rows yet. */
    method CloneInto(ghost v: Uuid, loaded: Graph, newId: Uuid, minted: seq<Uuid>)
      returns (ghost names: map<Uuid, Uuid>)
      requires Consistent(tables) && HoldsNoGraph(tables, newId) && v in tables.versions && v != newId
      requires Lists(loaded, ContentOf(tables, v)) && NoDuplicates(minted) && Unused(tables, minted)
      requires |minted| == |loaded.nodes| + |loaded.edges|
      modifies this
      ensures Consistent(tables) && tables.playbooks == old(tables).playbooks
      ensures OnlyVersion(old(tables), tables, newId)
      ensures tables.versions[newId].(root := None) == old(tables).versions[newId]
      ensures exists copy :: IsCopy(loaded, copy, names) && Lists(copy, ContentOf(tables, newId))
    {
      ghost var before := tables;
      var copy;
      copy, names := CloneGraph(loaded, minted);
      CloneStorable(before, v, loaded, minted, copy, names, newId);
      WriteExact(before, newId, copy);
      RunKeeps(before, newId, WriteScript(copy));
      StoredLists(before, newId, copy);
      var ok := WriteGraph(newId, copy);
    }

    /** Create: a playbook, its version 1 and the initial graph, or nothing. */
    method Create(alertType: string, g: Graph, pbId: Uuid, newId: Uuid) returns (r: Result<Definition>)
      requires Consistent(tables) && pbId !in tables.playbooks && newId !in tables.versions
      modifies this
      ensures Consistent(tables)
      ensures r.Ok? <==> Storable(old(tables), newId, g)
      ensures r.Ok? ==> tables.playbooks == old(tables).playbooks[pbId := alertType]
      ensures r.Ok? ==> newId in tables.versions && tables.versions[newId] == NewVersion(newId, pbId, 1).(root := g.root)
      ensures r.Ok? ==> Contiguous(tables, pbId, 1) && SameGraph(r.value.graph, g) && IsLoaded(r.value, newId)
      ensures r.Ok? ==> forall v :: v in old(tables).versions ==> v in tables.versions && ContentOf(tables, v) == ContentOf(old(tables), v)
      ensures r.Err? ==> tables == old(tables) && r.error == Invalid
    {
      var saved := tables;
      NewPlaybookKeeps(tables, pbId, alertType);
      tables := tables.(playbooks := tables.playbooks[pbId := alertType]);
      WithVersionKeeps(tables, NewVersion(newId, pbId, 1));
      tables := WithVersion(tables, NewVersion(newId, pbId, 1));
      ghost var before := tables;
      WriteExact(before, newId, g);
      var ok := WriteGraph(newId, g);
      if !ok {
        tables := saved;
        return Err(Invalid);
      }
      RunKeeps(before, newId, WriteScript(g));
      StoredLists(before, newId, g);
      var h := LoadGraph(newId);
      ReloadsSame(before, newId, g, h);
      assert NumbersOf(tables, pbId) == NumbersOf(before, pbId) == {1};
      return Ok(Definition(tables.versions[newId], h));
    }
  }
}
