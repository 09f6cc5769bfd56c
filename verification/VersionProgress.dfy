/**
  Calls on the version store that nothing interferes with: each runs to its end, and
  leaves the tables that the repository's method leaves.
*/
module VersionProgress {
  import opened Domain
  import opened PublishRules
  import opened Cloning
  import opened VersionTables
  import opened VersionScripts
  import opened VersionContent
  import opened VersionOverlay
  import opened VersionConcurrency
  import opened VersionInvariant
  import opened VersionTheorems

  /** No other call is under way. */
  ghost predicate Alone(s: State, x: Tid) {
    x in s.txns && forall y :: y in s.txns && y != x ==> s.txns[y].phase.Begun? || s.txns[y].phase.Ended?
  }

  lemma AloneIsGranted(s: State, x: Tid, l: Lock)
    requires Alone(s, x)
    ensures Grantable(s, x, l)
  {
  }

  /** The actions are those of call x, none of them an abort. */
  predicate Own(run: seq<Action>, x: Tid) {
    forall a :: a in run ==> a.tid == x && !a.Begin? && !a.Abort?
  }

  /** Call x, run from s on its own, is over and leaves these tables. */
  ghost predicate LeavesTables(s: State, run: seq<Action>, x: Tid, t: Tables) {
    Own(run, x) && CanRun(s, run) && After(s, run).t == t && x in After(s, run).txns && After(s, run).txns[x].phase.Ended?
  }

  lemma FirstThen(s: State, a: Action, rest: seq<Action>, x: Tid, t: Tables)
    requires Enabled(s, a) && a.tid == x && !a.Begin? && !a.Abort? && LeavesTables(Do(s, a), rest, x, t)
    ensures LeavesTables(s, [a] + rest, x, t)
  {
    assert ([a] + rest)[1..] == rest;
  }

  /** One action of its own, and the call is over. */
  lemma OverAfter(s: State, a: Action, x: Tid)
    requires Enabled(s, a) && a.tid == x && !a.Begin? && !a.Abort? && x in Do(s, a).txns && Do(s, a).txns[x].phase.Ended?
    ensures LeavesTables(s, [a], x, Do(s, a).t)
  {
    assert LeavesTables(Do(s, a), [], x, Do(s, a).t);
    FirstThen(s, a, [], x, Do(s, a).t);
    assert [a] + [] == [a];
  }

  lemma StaysAlone(s: State, a: Action)
    requires Inv(s) && Alone(s, a.tid) && Enabled(s, a)
    ensures Inv(Do(s, a)) && Alone(Do(s, a), a.tid)
    ensures Do(s, a).txns[a.tid].op == s.txns[a.tid].op
  {
    DoKeeps(s, a);
  }

  /** What the remaining statements of a writing call come to. */
  ghost function StatementsLeave(s: State, x: Tid): Tables
    requires x in s.txns && s.txns[x].phase.Writing?
  {
    var op, p := s.txns[x].op, s.txns[x].phase;
    var o := RunAll(View(s.t, op, p.own), Written(op), p.todo);
    if o.Ran? then o.tables else s.t
  }

  lemma StatementLeads(s: State, x: Tid)
    requires Inv(s) && Alone(s, x) && s.txns[x].phase.Writing? && s.txns[x].phase.todo != []
    ensures Enabled(s, Statement(x))
    ensures var s' := Do(s, Statement(x));
      && s'.t == s.t && x in s'.txns && (s'.txns[x].phase.Writing? || s'.txns[x].phase.Ended?)
      && (s'.txns[x].phase.Writing? ==> |s'.txns[x].phase.todo| < |s.txns[x].phase.todo| && StatementsLeave(s', x) == StatementsLeave(s, x))
      && (s'.txns[x].phase.Ended? ==> StatementsLeave(s, x) == s.t)
  {
    if Do(s, Statement(x)).txns[x].phase.Writing? { StatementResult(s, x); }
  }

  /** A writing call executes its statements and commits, or stops at the first that is refused. */
  lemma {:induction false} WritesOut(s: State, x: Tid) returns (run: seq<Action>)
    requires Inv(s) && Alone(s, x) && s.txns[x].phase.Writing?
    ensures LeavesTables(s, run, x, StatementsLeave(s, x))
    decreases |s.txns[x].phase.todo|
  {
    if s.txns[x].phase.todo == [] {
      run := [Commit(x)];
      OverAfter(s, Commit(x), x);
    } else {
      StatementLeads(s, x);
      StaysAlone(s, Statement(x));
      var s' := Do(s, Statement(x));
      if s'.txns[x].phase.Writing? {
        var rest := WritesOut(s', x);
        FirstThen(s, Statement(x), rest, x, StatementsLeave(s, x));
        run := [Statement(x)] + rest;
      } else {
        run := [Statement(x)];
        OverAfter(s, Statement(x), x);
      }
    }
  }

  /** Replacing: the graph is stored, on a draft that can hold it; else nothing happens. */
  lemma ReplaceAlone(s: State, x: Tid) returns (run: seq<Action>)
    requires Inv(s) && Alone(s, x) && s.txns[x].op.Replace? && s.txns[x].phase.Begun?
    ensures var v, g := s.txns[x].op.v, s.txns[x].op.g;
      LeavesTables(s, run, x, if IsDraft(s.t, v) && Storable(s.t, v, g) then Stored(s.t, v, g) else s.t)
  {
    var op := s.txns[x].op;
    var a := LockVersion(x);
    AloneIsGranted(s, x, VersionUpdate(op.v));
    StaysAlone(s, a);
    var s1 := Do(s, a);
    if !IsDraft(s.t, op.v) {
      run := [a];
      OverAfter(s, a, x);
    } else {
      var b := StartWrite(x, op.g, [], op.g, map[]);
      StaysAlone(s1, b);
      ViewOfStored(s.t, op);
      ReplaceExact(s.t, op.v, op.g);
      var rest := WritesOut(Do(s1, b), x);
      FirstThen(s1, b, rest, x, StatementsLeave(Do(s1, b), x));
      FirstThen(s, a, [b] + rest, x, StatementsLeave(Do(s1, b), x));
      run := [a] + ([b] + rest);
    }
  }

  function ReadsThen(x: Tid, rest: seq<Action>): seq<Action> {
    [ReadNodes(x)] + ([ReadEdges(x)] + rest)
  }

  function SourceThen(x: Tid, rest: seq<Action>): seq<Action> {
    [ShareVersion(x)] + ([ReadRow(x)] + ReadsThen(x, rest))
  }

  /** The reads of a call that has the row it is about. */
  lemma ReadsAll(s: State, x: Tid) returns (s': State)
    requires Inv(s) && Alone(s, x) && s.txns[x].phase.HasRow? && (s.txns[x].op.Publish? || s.txns[x].op.NewVersionOf? || s.txns[x].op.GetVersion?)
    ensures Inv(s') && Alone(s', x) && s'.t == s.t && s'.txns[x].op == s.txns[x].op
    ensures s'.txns[x].phase == HasAll(s.txns[x].phase.row, NodesOf(s.t, Read(s.txns[x].op)), EdgesOf(s.t, Read(s.txns[x].op)))
    ensures forall rest, t :: LeavesTables(s', rest, x, t) ==> LeavesTables(s, ReadsThen(x, rest), x, t)
  {
    var s1 := Do(s, ReadNodes(x));
    StaysAlone(s, ReadNodes(x));
    s' := Do(s1, ReadEdges(x));
    StaysAlone(s1, ReadEdges(x));
    forall rest, t | LeavesTables(s', rest, x, t) ensures LeavesTables(s, ReadsThen(x, rest), x, t) {
      FirstThen(s1, ReadEdges(x), rest, x, t);
      FirstThen(s, ReadNodes(x), [ReadEdges(x)] + rest, x, t);
    }
  }

  function PublishedRow(row: Version, now: Time): Version {
    row.(status := Published, publishedAt := Some(now))
  }

  lemma StartPublish(s: State, x: Tid) returns (run: seq<Action>)
    requires Inv(s) && Alone(s, x) && s.txns[x].op.Publish? && IsDraft(s.t, s.txns[x].op.v)
    requires var v := s.txns[x].op.v; s.txns[x].phase == HasAll(s.t.versions[v], NodesOf(s.t, v), EdgesOf(s.t, v))
    ensures var v := s.txns[x].op.v;
      LeavesTables(s, run, x,
        if PublishableContent(ContentOf(s.t, v)) then PutRow(s.t, v, PublishedRow(s.t.versions[v], s.txns[x].op.now)) else s.t)
  {
    var op := s.txns[x].op;
    var a := StartWrite(x, Graph(None, [], []), [], Graph(None, [], []), map[]);
    StaysAlone(s, a);
    if PublishableContent(ContentOf(s.t, op.v)) {
      ViewOfStored(s.t, op);
      var rest := WritesOut(Do(s, a), x);
      PublishRuns(s.t, op.v, op.now);
      FirstThen(s, a, rest, x, StatementsLeave(Do(s, a), x));
      run := [a] + rest;
    } else {
      run := [a];
      OverAfter(s, a, x);
    }
  }

  lemma PublishRuns(t: Tables, v: Uuid, now: Time)
    requires v in t.versions
    ensures RunAll(t, v, [MarkPublished(now)]) == Ran(PutRow(t, v, PublishedRow(t.versions[v], now)))
  {
    assert [MarkPublished(now)][1..] == [];
  }

  /** Publishing: a draft with a publishable graph is published; else nothing happens. */
  lemma PublishAlone(s: State, x: Tid) returns (run: seq<Action>)
    requires Inv(s) && Alone(s, x) && s.txns[x].op.Publish? && s.txns[x].phase.Begun?
    ensures var v := s.txns[x].op.v;
      LeavesTables(s, run, x,
        if IsDraft(s.t, v) && PublishableContent(ContentOf(s.t, v))
        then PutRow(s.t, v, PublishedRow(s.t.versions[v], s.txns[x].op.now)) else s.t)
  {
    var op := s.txns[x].op;
    var a := LockVersion(x);
    AloneIsGranted(s, x, VersionUpdate(op.v));
    StaysAlone(s, a);
    if !IsDraft(s.t, op.v) {
      run := [a];
      OverAfter(s, a, x);
    } else {
      var s1 := Do(s, a);
      var s2 := ReadsAll(s1, x);
      var rest := StartPublish(s2, x);
      run := ReadsThen(x, rest);
      FirstThen(s, a, run, x, After(s2, rest).t);
      run := [a] + run;
    }
  }

  /** Creating: the playbook, its draft version 1 and the graph; or nothing, if the graph cannot be stored. */
  lemma CreateAlone(s: State, x: Tid) returns (run: seq<Action>)
    requires Inv(s) && Alone(s, x) && s.txns[x].op.Create? && s.txns[x].phase.Begun?
    ensures var op := s.txns[x].op;
      var t1 := WithVersion(s.t.(playbooks := s.t.playbooks[op.pb := op.alertType]), NewVersion(op.newId, op.pb, 1));
      LeavesTables(s, run, x, if Storable(s.t, op.newId, op.g) then Stored(t1, op.newId, op.g) else s.t)
  {
    var op := s.txns[x].op;
    var t1 := WithVersion(s.t.(playbooks := s.t.playbooks[op.pb := op.alertType]), NewVersion(op.newId, op.pb, 1));
    var a := StartWrite(x, op.g, [], op.g, map[]);
    StaysAlone(s, a);
    ViewOfNew(s.t, op, 1);
    NewHoldsNothing(s.t, t1, op.newId);
    WriteExact(t1, op.newId, op.g);
    var rest := WritesOut(Do(s, a), x);
    FirstThen(s, a, rest, x, StatementsLeave(Do(s, a), x));
    run := [a] + rest;
  }

  lemma NewHoldsNothing(t: Tables, t1: Tables, v: Uuid)
    requires Consistent(t) && v !in t.versions && v in t1.versions && t1.versions[v].root == None && t1.nodes == t.nodes && t1.edges == t.edges
    ensures HoldsNoGraph(t1, v)
  {
    forall r | r in t.nodes ensures r.versionId != v { assert NodeCheck(r.node); }
    forall r | r in t.edges ensures r.versionId != v { assert EdgeRowOk(t, r); }
  }

  /** The next number exists. */
  lemma NextExists(t: Tables, pb: Uuid) returns (n: int)
    requires NumbersOk(t, pb)
    ensures IsNextNumber(NumbersOf(t, pb), n)
  {
    var k: nat :| Contiguous(t, pb, k);
    n := k + 1;
    if k > 0 { assert k in NumbersOf(t, pb); } else { assert NumbersOf(t, pb) == {}; }
  }

  /** From a locked playbook on: the number is read, and the new version is written. */
  lemma NumberAndWrite(s: State, x: Tid, listing: Graph, minted: seq<Uuid>, copy: Graph, names: map<Uuid, Uuid>)
    returns (run: seq<Action>, n: int)
    requires Inv(s) && Alone(s, x) && s.txns[x].op.NewVersionOf? && s.txns[x].phase.PbLocked?
    requires s.txns[x].phase.src.Some? ==>
      Lists(listing, s.txns[x].phase.src.value) && NoDuplicates(minted) && Unused(s.t, minted) && Cloned(listing, minted, copy, names)
    ensures var op := s.txns[x].op;
      var t1 := WithVersion(s.t, NewVersion(op.newId, op.pb, n));
      && IsNextNumber(NumbersOf(s.t, op.pb), n)
      && LeavesTables(s, run, x, if op.source == None then t1 else Stored(t1, op.newId, copy))
  {
    var op := s.txns[x].op;
    assert ReadsHold(s.t, s.txns[x]) && NumbersOk(s.t, op.pb);
    n := NextExists(s.t, op.pb);
    var t1 := WithVersion(s.t, NewVersion(op.newId, op.pb, n));
    var a := ReadNumber(x, n);
    StaysAlone(s, a);
    var s1 := Do(s, a);
    var b := StartWrite(x, listing, minted, copy, names);
    StaysAlone(s1, b);
    ViewOfNew(s.t, op, n);
    if op.source.Some? { CopyFits(s, x, t1, listing, minted, copy, names); }
    var rest := WritesOut(Do(s1, b), x);
    FirstThen(s1, b, rest, x, StatementsLeave(Do(s1, b), x));
    FirstThen(s, a, [b] + rest, x, StatementsLeave(Do(s1, b), x));
    run := [a] + ([b] + rest);
  }

  lemma CopyFits(s: State, x: Tid, t1: Tables, listing: Graph, minted: seq<Uuid>, copy: Graph, names: map<Uuid, Uuid>)
    requires Inv(s) && x in s.txns && s.txns[x].op.NewVersionOf? && s.txns[x].phase.PbLocked? && s.txns[x].op.source.Some?
    requires s.txns[x].phase.src.Some? && Lists(listing, s.txns[x].phase.src.value)
    requires NoDuplicates(minted) && Unused(s.t, minted) && Cloned(listing, minted, copy, names)
    requires Consistent(t1) && s.txns[x].op.newId in t1.versions && t1.versions[s.txns[x].op.newId].root == None
    requires s.txns[x].op.newId !in s.t.versions && t1.nodes == s.t.nodes && t1.edges == s.t.edges
    ensures RunAll(t1, s.txns[x].op.newId, WriteScript(copy)) == Ran(Stored(t1, s.txns[x].op.newId, copy))
  {
    assert ReadsHold(s.t, s.txns[x]);
    var op := s.txns[x].op;
    CloneStorable(s.t, op.source.value, listing, minted, copy, names, op.newId);
    NewHoldsNothing(s.t, t1, op.newId);
    WriteExact(t1, op.newId, copy);
  }

  /** A new empty draft: under the next number of a playbook that is there; else nothing happens. */
  lemma NewVersionAlone(s: State, x: Tid) returns (run: seq<Action>, n: int)
    requires Inv(s) && Alone(s, x) && s.txns[x].op.NewVersionOf? && s.txns[x].op.source == None && s.txns[x].phase.Begun?
    ensures var op := s.txns[x].op;
      && (op.pb in s.t.playbooks ==> IsNextNumber(NumbersOf(s.t, op.pb), n))
      && LeavesTables(s, run, x, if op.pb in s.t.playbooks then WithVersion(s.t, NewVersion(op.newId, op.pb, n)) else s.t)
  {
    var op := s.txns[x].op;
    var a := LockPlaybook(x);
    AloneIsGranted(s, x, PlaybookUpdate(op.pb));
    StaysAlone(s, a);
    n := 0;
    if op.pb !in s.t.playbooks {
      run := [a];
      OverAfter(s, a, x);
    } else {
      var rest;
      rest, n := NumberAndWrite(Do(s, a), x, Graph(None, [], []), [], Graph(None, [], []), map[]);
      FirstThen(s, a, rest, x, After(Do(s, a), rest).t);
      run := [a] + rest;
    }
  }

  /** The lock and the reads of a clone's source. */
  lemma SourceRead(s: State, x: Tid) returns (s': State)
    requires Inv(s) && Alone(s, x) && s.txns[x].op.NewVersionOf? && s.txns[x].op.source.Some? && s.txns[x].phase.Begun?
    requires s.txns[x].op.source.value in s.t.versions
    ensures Inv(s') && Alone(s', x) && s'.t == s.t && s'.txns[x].op == s.txns[x].op
    ensures var c := s.txns[x].op.source.value; s'.txns[x].phase == HasAll(s.t.versions[c], NodesOf(s.t, c), EdgesOf(s.t, c))
    ensures forall rest, t :: LeavesTables(s', rest, x, t) ==> LeavesTables(s, SourceThen(x, rest), x, t)
  {
    var op := s.txns[x].op;
    AloneIsGranted(s, x, VersionShare(op.source.value));
    var a, b := ShareVersion(x), ReadRow(x);
    StaysAlone(s, a);
    var s1 := Do(s, a);
    StaysAlone(s1, b);
    var s2 := Do(s1, b);
    s' := ReadsAll(s2, x);
    forall rest, t | LeavesTables(s', rest, x, t) ensures LeavesTables(s, SourceThen(x, rest), x, t) {
      FirstThen(s1, b, ReadsThen(x, rest), x, t);
      FirstThen(s, a, [b] + ReadsThen(x, rest), x, t);
    }
  }

  /**
    Cloning, with the order in which the source is listed and the ids that are drawn: the
    copy is stored as a draft under the next number, if the source belongs to the
    playbook; else nothing happens.
  */
  lemma CloneAlone(s: State, x: Tid, listing: Graph, minted: seq<Uuid>, copy: Graph, names: map<Uuid, Uuid>)
    returns (run: seq<Action>, n: int)
    requires Inv(s) && Alone(s, x) && s.txns[x].op.NewVersionOf? && s.txns[x].op.source.Some? && s.txns[x].phase.Begun?
    requires var c := s.txns[x].op.source.value;
      c in s.t.versions ==> Lists(listing, ContentOf(s.t, c)) && NoDuplicates(minted) && Unused(s.t, minted) && Cloned(listing, minted, copy, names)
    ensures var op := s.txns[x].op;
      var ok := op.pb in s.t.playbooks && BelongsTo(s.t, op.source.value, op.pb);
      && (ok ==> IsNextNumber(NumbersOf(s.t, op.pb), n))
      && LeavesTables(s, run, x, if ok then Stored(WithVersion(s.t, NewVersion(op.newId, op.pb, n)), op.newId, copy) else s.t)
  {
    var op := s.txns[x].op;
    n := 0;
    if op.source.value !in s.t.versions {
      AloneIsGranted(s, x, VersionShare(op.source.value));
      run := [ShareVersion(x)];
      OverAfter(s, ShareVersion(x), x);
    } else {
      var s1 := SourceRead(s, x);
      var rest;
      rest, n := CloneOnwards(s1, x, listing, minted, copy, names);
      run := SourceThen(x, rest);
    }
  }

  lemma CloneOnwards(s: State, x: Tid, listing: Graph, minted: seq<Uuid>, copy: Graph, names: map<Uuid, Uuid>)
    returns (run: seq<Action>, n: int)
    requires Inv(s) && Alone(s, x) && s.txns[x].op.NewVersionOf? && s.txns[x].op.source.Some?
    requires var c := s.txns[x].op.source.value;
      && c in s.t.versions && s.txns[x].phase == HasAll(s.t.versions[c], NodesOf(s.t, c), EdgesOf(s.t, c))
      && Lists(listing, ContentOf(s.t, c)) && NoDuplicates(minted) && Unused(s.t, minted) && Cloned(listing, minted, copy, names)
    ensures var op := s.txns[x].op;
      var ok := op.pb in s.t.playbooks && BelongsTo(s.t, op.source.value, op.pb);
      && (ok ==> IsNextNumber(NumbersOf(s.t, op.pb), n))
      && LeavesTables(s, run, x, if ok then Stored(WithVersion(s.t, NewVersion(op.newId, op.pb, n)), op.newId, copy) else s.t)
  {
    var op := s.txns[x].op;
    var a := LockPlaybook(x);
    AloneIsGranted(s, x, PlaybookUpdate(op.pb));
    StaysAlone(s, a);
    n := 0;
    if op.pb in s.t.playbooks && BelongsTo(s.t, op.source.value, op.pb) {
      var rest;
      rest, n := NumberAndWrite(Do(s, a), x, listing, minted, copy, names);
      FirstThen(s, a, rest, x, After(Do(s, a), rest).t);
      run := [a] + rest;
    } else {
      run := [a];
      OverAfter(s, a, x);
    }
  }

  /** Reading a version: its row, nodes and edges as they stand. */
  lemma GetAlone(s: State, x: Tid) returns (s': State)
    requires Inv(s) && Alone(s, x) && s.txns[x].op.GetVersion? && s.txns[x].phase.Begun? && s.txns[x].op.v in s.t.versions
    ensures CanRun(s, [ReadRow(x), ReadNodes(x), ReadEdges(x)]) && s' == After(s, [ReadRow(x), ReadNodes(x), ReadEdges(x)])
    ensures var v := s.txns[x].op.v; s'.t == s.t && x in s'.txns && s'.txns[x].phase == HasAll(s.t.versions[v], NodesOf(s.t, v), EdgesOf(s.t, v))
  {
    var s1 := Do(s, ReadRow(x));
    var s2 := Do(s1, ReadNodes(x));
    s' := Do(s2, ReadEdges(x));
    var run := [ReadRow(x), ReadNodes(x), ReadEdges(x)];
    assert run[1..] == [ReadNodes(x), ReadEdges(x)] && run[1..][1..] == [ReadEdges(x)] && run[1..][1..][1..] == [];
    assert CanRun(s', []) && CanRun(s2, run[1..][1..]) && CanRun(s1, run[1..]) && CanRun(s, run);
    assert After(s2, run[1..][1..]) == After(s', []) && After(s1, run[1..]) == After(s2, run[1..][1..]);
  }
}
