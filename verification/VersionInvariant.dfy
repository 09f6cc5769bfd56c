/**
  Every statement of every interleaving of the version store keeps its invariant.
*/
module VersionInvariant {
  import opened Domain
  import opened PublishRules
  import opened VersionTables
  import opened VersionContent
  import opened VersionOverlay
  import opened VersionConcurrency

  // ----- locks

  lemma LockExcludes(s: State, s': State, x: Tid, gained: set<Lock>, y: Tid, l: Lock, m: Lock)
    requires LocksExclude(s) && x in s'.txns && y in s.txns && y != x && m in LocksOf(s.txns[y]) && l in LocksOf(s'.txns[x])
    requires LocksOf(s'.txns[x]) <= (if x in s.txns then LocksOf(s.txns[x]) else {}) + gained
    requires forall k :: k in gained ==> Grantable(s, x, k)
    ensures !Clash(l, m) && !Clash(m, l)
  {
    if l in gained {
      assert Grantable(s, x, l);
    }
  }

  /** A transaction that gains at most a grantable lock conflicts with nobody. */
  lemma GrantExcludes(s: State, s': State, x: Tid, gained: set<Lock>)
    requires LocksExclude(s) && s'.txns.Keys == s.txns.Keys + {x}
    requires forall y :: y in s.txns && y != x ==> s'.txns[y] == s.txns[y]
    requires LocksOf(s'.txns[x]) <= (if x in s.txns then LocksOf(s.txns[x]) else {}) + gained
    requires forall l :: l in gained ==> Grantable(s, x, l)
    ensures LocksExclude(s')
  {
    forall y, z, l, m | y in s'.txns && z in s'.txns && y != z && l in LocksOf(s'.txns[y]) && m in LocksOf(s'.txns[z])
      ensures !Clash(l, m)
    {
      if y == x {
        LockExcludes(s, s', x, gained, z, l, m);
      } else if z == x {
        LockExcludes(s, s', x, gained, y, m, l);
      }
    }
  }

  /** A statement's result, as pending rows. */
  lemma StatementResult(s: State, x: Tid)
    requires Enabled(s, Statement(x)) && Do(s, Statement(x)).txns[x].phase.Writing?
    ensures var p, p' := s.txns[x].phase, Do(s, Statement(x)).txns[x].phase;
      && p'.own == LocalExec(p.own, p.todo[0]) && p'.todo == p.todo[1..] && p'.target == p.target
      && p'.own.row.playbookId == p.own.row.playbookId
      && Exec(View(s.t, s.txns[x].op, p.own), Written(s.txns[x].op), p.todo[0]) == Ran(View(s.t, s.txns[x].op, p'.own))
  {
    var op, p := s.txns[x].op, s.txns[x].phase;
    var t := s.t.(playbooks := PendingPlaybooks(s.t, op));
    ExecOverPending(t, Written(op), p.own, p.todo[0]);
    PutRows(t, Written(op), LocalExec(p.own, p.todo[0]), Written(op));
  }

  /** No two transactions ever hold conflicting locks. */
  lemma DoExcludes(s: State, a: Action)
    requires LocksExclude(s) && Enabled(s, a)
    ensures LocksExclude(Do(s, a))
  {
    var s', x := Do(s, a), a.tid;
    if a.Statement? && s'.txns[x].phase.Writing? { StatementResult(s, x); }
    GrantExcludes(s, s', x,
      if a.LockVersion? then {VersionUpdate(s.txns[x].op.v)}
      else if a.ShareVersion? then {VersionShare(s.txns[x].op.source.value)}
      else if a.LockPlaybook? then {PlaybookUpdate(s.txns[x].op.pb)}
      else if a.Statement? && TakesKey(s.txns[x], s.txns[x].phase.todo[0]) then {PlaybookKey(s.txns[x].phase.own.row.playbookId)}
      else {});
  }

  // ----- reading and locking steps

  /** A step that commits nothing keeps the invariant if what its transaction has read and written fits. */
  lemma PrivateStepKeeps(s: State, a: Action)
    requires Inv(s) && Enabled(s, a) && Do(s, a).t == s.t
    requires ReadsHold(s.t, Do(s, a).txns[a.tid]) && WritesFit(s.t, Do(s, a).txns[a.tid])
    requires forall y :: y in s.txns && y != a.tid ==> PendingApart(Do(s, a), a.tid, y)
    ensures Inv(Do(s, a))
  {
    var s', x := Do(s, a), a.tid;
    DoExcludes(s, a);
    forall y | y in s'.txns ensures ReadsHold(s'.t, s'.txns[y]) && WritesFit(s'.t, s'.txns[y]) {
      assert y != x ==> ReadsHold(s.t, s.txns[y]) && WritesFit(s.t, s.txns[y]);
    }
    forall y, z | y in s'.txns && z in s'.txns && y != z ensures PendingApart(s', y, z) {
      if y == x { assert PendingApart(s', x, z); }
      else if z == x { assert PendingApart(s', x, y); }
      else { assert PendingApart(s, y, z); }
    }
    IdsStayFresh(s, a);
  }

  lemma SameOpsFresh(s: State, s': State)
    requires IdsFresh(s) && s'.t == s.t && s'.txns.Keys == s.txns.Keys
    requires forall y :: y in s.txns ==> s'.txns[y].op == s.txns[y].op && (s.txns[y].phase.Ended? ==> s'.txns[y].phase.Ended?)
    ensures IdsFresh(s')
  {
    forall y, z | y in s'.txns && z in s'.txns && y != z ensures IdsDiffer(s'.txns[y].op, s'.txns[z].op) {
      assert IdsDiffer(s.txns[y].op, s.txns[z].op);
    }
  }

  lemma BeginFresh(s: State, x: Tid, op: Op)
    requires IdsFresh(s) && x !in s.txns && FreshIds(s, op)
    ensures IdsFresh(s.(txns := s.txns[x := Txn(op, Begun)]))
  {
    var s' := s.(txns := s.txns[x := Txn(op, Begun)]);
    forall y, z | y in s'.txns && z in s'.txns && y != z ensures IdsDiffer(s'.txns[y].op, s'.txns[z].op) {
      if y == x { assert IdsDiffer(op, s.txns[z].op); }
      else if z == x { assert IdsDiffer(op, s.txns[y].op); }
      else { assert IdsDiffer(s.txns[y].op, s.txns[z].op); }
    }
  }

  lemma IdsStayFresh(s: State, a: Action)
    requires IdsFresh(s) && Enabled(s, a) && Do(s, a).t == s.t
    ensures IdsFresh(Do(s, a))
  {
    if a.Begin? { BeginFresh(s, a.tid, a.op); } else { SameOpsFresh(s, Do(s, a)); }
  }

  predicate Quiet(a: Action) {
    !a.StartWrite? && !a.Statement? && !a.Commit?
  }

  lemma QuietReadsHold(s: State, a: Action)
    requires Inv(s) && Enabled(s, a) && Quiet(a)
    ensures Do(s, a).t == s.t && !Do(s, a).txns[a.tid].phase.Writing?
    ensures ReadsHold(s.t, Do(s, a).txns[a.tid])
  {
    if !a.Begin? { assert ReadsHold(s.t, s.txns[a.tid]); }
  }

  // ----- starting to write

  /** The pending rows of other transactions have no id in common with a version nobody else writes. */
  lemma ApartFromStored(s: State, x: Tid, v: Uuid, y: Tid)
    requires Inv(s) && x in s.txns && y in s.txns && x != y && s.txns[y].phase.Writing?
    requires v in s.t.versions && VersionUpdate(v) in LocksOf(s.txns[x])
    ensures IdsApart(ContentOf(s.t, v), s.txns[y].phase.own)
  {
    var op, own := s.txns[y].op, s.txns[y].phase.own;
    assert WritesFit(s.t, s.txns[y]);
    var w := Written(op);
    assert w != v by {
      if op.Replace? || op.Publish? {
        assert VersionUpdate(w) in LocksOf(s.txns[y]) && !Clash(VersionUpdate(v), VersionUpdate(w));
      }
    }
    var q := View(s.t, op, own);
    forall n, m | n in NodesOf(s.t, v) && m in own.nodes ensures n.id != m.id {
      assert NodeRow(v, n) in q.nodes && NodeRow(w, m) in q.nodes;
    }
    forall e, f | e in EdgesOf(s.t, v) && f in own.edges ensures e.id != f.id {
      assert EdgeRow(v, e) in q.edges && EdgeRow(w, f) in q.edges;
    }
  }

  lemma ViewOfStored(t: Tables, op: Op)
    requires Consistent(t) && (op.Replace? || op.Publish?) && op.v in t.versions
    ensures View(t, op, ContentOf(t, op.v)) == t
  {
    assert t.(playbooks := PendingPlaybooks(t, op)) == t;
    PutSelf(t, op.v);
  }

  /** A new, empty version beside the stored ones. */
  lemma ViewOfNew(t: Tables, op: Op, number: int)
    requires Consistent(t) && (op.Create? || op.NewVersionOf?) && op.newId !in t.versions
    requires op.Create? ==> op.pb !in t.playbooks && number == 1
    requires op.NewVersionOf? ==> op.pb in t.playbooks && IsNextNumber(NumbersOf(t, op.pb), number)
    ensures Consistent(View(t, op, Content(NewVersion(op.newId, op.pb, number), {}, {})))
    ensures View(t, op, Content(NewVersion(op.newId, op.pb, number), {}, {})) ==
      WithVersion(t.(playbooks := PendingPlaybooks(t, op)), NewVersion(op.newId, op.pb, number))
  {
    var row := NewVersion(op.newId, op.pb, number);
    var t1 := t.(playbooks := PendingPlaybooks(t, op));
    if op.Create? { NewPlaybookKeeps(t, op.pb, op.alertType); }
    assert t1.versions == t.versions && NumbersOf(t1, op.pb) == NumbersOf(t, op.pb);
    WithVersionKeeps(t1, row);
    var v1 := View(t, op, Content(row, {}, {}));
    forall r ensures r in v1.nodes <==> r in t1.nodes { assert r in t1.nodes ==> NodeCheck(r.node); }
    forall r ensures r in v1.edges <==> r in t1.edges { assert r in t1.edges ==> EdgeRowOk(t1, r); }
    assert v1 == WithVersion(t1, row);
  }

  lemma HoldingListed(row: Version, g: Graph)
    requires UniqueNodeIds(g.nodes) && UniqueEdgeIds(g.edges)
    ensures Lists(g, Holding(row, g))
  {
  }

  /** A clone's target is a copy of its source. */
  lemma CloneTarget(s: State, a: Action)
    requires Inv(s) && Enabled(s, a) && a.StartWrite? && s.txns[a.tid].op.NewVersionOf? && s.txns[a.tid].op.source.Some?
    ensures var op, p := s.txns[a.tid].op, s.txns[a.tid].phase;
      BelongsTo(s.t, op.source.value, op.pb) &&
      CopyOf(ContentOf(s.t, op.source.value), Holding(NewVersion(op.newId, op.pb, p.n), a.copy))
  {
    var op, p := s.txns[a.tid].op, s.txns[a.tid].phase;
    assert ReadsHold(s.t, s.txns[a.tid]);
    CloneStorable(s.t, op.source.value, a.listing, a.minted, a.copy, a.names, op.newId);
    HoldingListed(NewVersion(op.newId, op.pb, p.n), a.copy);
  }

  lemma StartWritesFit(s: State, a: Action)
    requires Inv(s) && Enabled(s, a) && a.StartWrite?
    ensures WritesFit(s.t, Do(s, a).txns[a.tid]) && ReadsHold(s.t, Do(s, a).txns[a.tid])
  {
    var op, p := s.txns[a.tid].op, s.txns[a.tid].phase;
    assert ReadsHold(s.t, s.txns[a.tid]);
    match op {
      case Replace(v, g) =>
        ViewOfStored(s.t, op);
        ScriptsLead(p.row, g, NodesOf(s.t, v), EdgesOf(s.t, v));
      case Publish(v, now) =>
        ViewOfStored(s.t, op);
        var c := ContentOf(s.t, v);
        assert LocalRun(c, [MarkPublished(now)]) == LocalExec(c, MarkPublished(now)) by { assert [MarkPublished(now)][1..] == []; }
      case Create(_, g, pb, newId) =>
        ViewOfNew(s.t, op, 1);
        ScriptsLead(NewVersion(newId, pb, 1), g, {}, {});
      case NewVersionOf(pb, source, newId) =>
        ViewOfNew(s.t, op, p.n);
        ScriptsLead(NewVersion(newId, pb, p.n), a.copy, {}, {});
        if source.Some? { CloneTarget(s, a); }
      case GetVersion(_) =>
    }
  }

  lemma StartWriteKeeps(s: State, a: Action)
    requires Inv(s) && Enabled(s, a) && a.StartWrite?
    ensures Inv(Do(s, a))
  {
    var x := a.tid;
    var op := s.txns[x].op;
    StartWritesFit(s, a);
    assert ReadsHold(s.t, s.txns[x]);
    forall y | y in s.txns && y != x ensures PendingApart(Do(s, a), x, y) {
      if s.txns[y].phase.Writing? && (op.Replace? || op.Publish?) {
        ApartFromStored(s, x, op.v, y);
      }
    }
    PrivateStepKeeps(s, a);
  }

  // ----- statements

  /** No statement makes a published row a draft again. */
  lemma {:induction false} DraftTargets(c: Content, ss: seq<Stmt>)
    requires LocalRun(c, ss).row.status == Draft
    ensures c.row.status == Draft
    decreases |ss|
  {
    if ss != [] { DraftTargets(LocalExec(c, ss[0]), ss[1..]); }
  }

  lemma RightAfter(t: Tables, op: Op, own: Content, target: Content, stmt: Stmt)
    requires WritesRight(t, op, own, target) && (stmt.MarkPublished? ==> op.Publish?)
    ensures WritesRight(t, op, LocalExec(own, stmt), target)
  {
  }

  lemma StatementFits(s: State, x: Tid)
    requires Inv(s) && Enabled(s, Statement(x)) && Do(s, Statement(x)).txns[x].phase.Writing?
    ensures WritesFit(s.t, Do(s, Statement(x)).txns[x])
  {
    var op, p := s.txns[x].op, s.txns[x].phase;
    assert WritesFit(s.t, s.txns[x]);
    StatementResult(s, x);
    ExecKeeps(View(s.t, op, p.own), Written(op), p.todo[0]);
    if !op.Publish? { DraftTargets(LocalExec(p.own, p.todo[0]), p.todo[1..]); }
    RightAfter(s.t, op, p.own, p.target, p.todo[0]);
  }

  lemma ApartAfter(own: Content, stmt: Stmt, other: Content)
    requires IdsApart(own, other) && !PendingId(other, stmt)
    ensures IdsApart(LocalExec(own, stmt), other)
  {
  }

  lemma StatementApart(s: State, x: Tid, y: Tid)
    requires Inv(s) && Enabled(s, Statement(x)) && y in s.txns && y != x
    ensures PendingApart(Do(s, Statement(x)), x, y)
  {
    if Do(s, Statement(x)).txns[x].phase.Writing? && s.txns[y].phase.Writing? {
      assert PendingApart(s, x, y);
      StatementResult(s, x);
      ApartAfter(s.txns[x].phase.own, s.txns[x].phase.todo[0], s.txns[y].phase.own);
    }
  }

  lemma StatementKeeps(s: State, x: Tid)
    requires Inv(s) && Enabled(s, Statement(x))
    ensures Inv(Do(s, Statement(x)))
  {
    assert ReadsHold(s.t, s.txns[x]);
    if Do(s, Statement(x)).txns[x].phase.Writing? { StatementFits(s, x); }
    forall y | y in s.txns && y != x ensures PendingApart(Do(s, Statement(x)), x, y) { StatementApart(s, x, y); }
    PrivateStepKeeps(s, Statement(x));
  }

  // ----- commit

  /** The rows a writing transaction will make its version's. */
  lemma OwnRow(s: State, x: Tid)
    requires Inv(s) && x in s.txns && s.txns[x].phase.Writing?
    ensures var op, own := s.txns[x].op, s.txns[x].phase.own;
      var w := Written(op);
      && (op.Replace? || op.Publish? ==> IsDraft(s.t, w) && SameNumber(own.row, s.t.versions[w]) && own.row.playbookId in s.t.playbooks)
      && (op.Create? ==> w !in s.t.versions && own.row.playbookId == op.pb && own.row.number == 1 && op.pb !in s.t.playbooks)
      && (op.NewVersionOf? ==> w !in s.t.versions && own.row.playbookId == op.pb && op.pb in s.t.playbooks)
      && (op.NewVersionOf? ==> own.row.number !in NumbersOf(s.t, op.pb) && IsNextNumber(NumbersOf(s.t, op.pb), own.row.number))
      && !op.GetVersion?
  {
    assert ReadsHold(s.t, s.txns[x]) && WritesFit(s.t, s.txns[x]);
    var op := s.txns[x].op;
    if op.Replace? || op.Publish? { assert VersionRowOk(s.t, op.v); }
  }

  /** Two writing transactions write different versions with different numbers. */
  lemma WritersDiffer(s: State, x: Tid, y: Tid)
    requires Inv(s) && x in s.txns && y in s.txns && x != y && s.txns[x].phase.Writing? && s.txns[y].phase.Writing?
    ensures Written(s.txns[x].op) != Written(s.txns[y].op)
    ensures !SameNumber(s.txns[x].phase.own.row, s.txns[y].phase.own.row)
  {
    OwnRow(s, x);
    OwnRow(s, y);
    var a, b := s.txns[x].op, s.txns[y].op;
    assert IdsDiffer(a, b);
    if (a.Replace? || a.Publish?) && (b.Replace? || b.Publish?) {
      assert VersionUpdate(a.v) in LocksOf(s.txns[x]) && VersionUpdate(b.v) in LocksOf(s.txns[y]);
      assert !Clash(VersionUpdate(a.v), VersionUpdate(b.v));
    }
    if a.NewVersionOf? && b.NewVersionOf? {
      assert PlaybookUpdate(a.pb) in LocksOf(s.txns[x]) && PlaybookUpdate(b.pb) in LocksOf(s.txns[y]);
      assert !Clash(PlaybookUpdate(a.pb), PlaybookUpdate(b.pb));
    }
  }

  /** What a commit changes: the rows of one version, which until then was a draft or not there. */
  lemma CommitRows(s: State, x: Tid)
    requires Inv(s) && Enabled(s, Commit(x))
    ensures var t', op, own := Do(s, Commit(x)).t, s.txns[x].op, s.txns[x].phase.own;
      var w := Written(op);
      && Consistent(t') && t'.versions.Keys == s.t.versions.Keys + {w} && ContentOf(t', w) == own
      && own == s.txns[x].phase.target
      && (forall v :: v in s.t.versions && v != w ==> ContentOf(t', v) == ContentOf(s.t, v))
      && t'.playbooks == PendingPlaybooks(s.t, op)
      && (w in s.t.versions ==> s.t.versions[w].status == Draft)
  {
    var t', op, own := Do(s, Commit(x)).t, s.txns[x].op, s.txns[x].phase.own;
    assert WritesFit(s.t, s.txns[x]);
    OwnRow(s, x);
    var t1 := s.t.(playbooks := PendingPlaybooks(s.t, op));
    forall v ensures NodesOf(t', v) == (if v == Written(op) then own.nodes else NodesOf(s.t, v))
      ensures EdgesOf(t', v) == (if v == Written(op) then own.edges else EdgesOf(s.t, v))
    {
      PutRows(t1, Written(op), own, v);
      assert NodesOf(t1, v) == NodesOf(s.t, v) && EdgesOf(t1, v) == EdgesOf(s.t, v);
    }
  }

  lemma CommitNumbers(s: State, x: Tid, pb: Uuid)
    requires Inv(s) && Enabled(s, Commit(x))
    ensures var op, own := s.txns[x].op, s.txns[x].phase.own;
      NumbersOf(Do(s, Commit(x)).t, pb) ==
        NumbersOf(s.t, pb) + if (op.Create? || op.NewVersionOf?) && pb == op.pb then {own.row.number} else {}
  {
    CommitRows(s, x);
    OwnRow(s, x);
    var t', op, own := Do(s, Commit(x)).t, s.txns[x].op, s.txns[x].phase.own;
    var w := Written(op);
    forall v | v in s.t.versions ensures SameNumber(t'.versions[v], s.t.versions[v]) {
      if v != w { assert ContentOf(t', v) == ContentOf(s.t, v); } else { assert ContentOf(t', w).row == own.row; }
    }
    forall k | k in NumbersOf(s.t, pb) ensures k in NumbersOf(t', pb) {
      var v :| v in s.t.versions && s.t.versions[v].playbookId == pb && s.t.versions[v].number == k;
      assert v in t'.versions && SameNumber(t'.versions[v], s.t.versions[v]);
    }
    if w !in s.t.versions && pb == op.pb { assert ContentOf(t', w).row == own.row && own.row.number in NumbersOf(t', pb); }
    forall k | k in NumbersOf(t', pb)
      ensures k in NumbersOf(s.t, pb) + if (op.Create? || op.NewVersionOf?) && pb == op.pb then {own.row.number} else {}
    {
      var v :| v in t'.versions && t'.versions[v].playbookId == pb && t'.versions[v].number == k;
      if v in s.t.versions { assert SameNumber(t'.versions[v], s.t.versions[v]); } else { assert ContentOf(t', w).row == own.row; }
    }
  }

  /** A version that another transaction has locked, or read as no longer a draft, is not the one that is committed. */
  lemma CommitElsewhere(s: State, x: Tid, y: Tid, v: Uuid)
    requires Inv(s) && Enabled(s, Commit(x)) && y in s.txns && y != x && v in s.t.versions
    requires VersionUpdate(v) in LocksOf(s.txns[y]) || VersionShare(v) in LocksOf(s.txns[y]) || s.t.versions[v].status != Draft
    ensures v != Written(s.txns[x].op)
  {
    OwnRow(s, x);
    var op := s.txns[x].op;
    if op.Replace? || op.Publish? {
      assert VersionUpdate(op.v) in LocksOf(s.txns[x]);
      assert VersionUpdate(v) in LocksOf(s.txns[y]) ==> !Clash(VersionUpdate(op.v), VersionUpdate(v));
      assert VersionShare(v) in LocksOf(s.txns[y]) ==> !Clash(VersionUpdate(op.v), VersionShare(v));
    }
  }

  lemma SameContent(t: Tables, t': Tables, v: Uuid)
    requires v in t.versions && v in t'.versions && ContentOf(t', v) == ContentOf(t, v)
    ensures t'.versions[v] == t.versions[v] && NodesOf(t', v) == NodesOf(t, v) && EdgesOf(t', v) == EdgesOf(t, v)
  {
  }

  /** The numbers of a playbook that another transaction has locked stay as they are. */
  lemma CommitKeepsNumbers(s: State, x: Tid, y: Tid, pb: Uuid)
    requires Inv(s) && Enabled(s, Commit(x)) && y in s.txns && y != x
    requires PlaybookUpdate(pb) in LocksOf(s.txns[y]) && pb in s.t.playbooks
    ensures NumbersOf(Do(s, Commit(x)).t, pb) == NumbersOf(s.t, pb)
  {
    CommitNumbers(s, x, pb);
    OwnRow(s, x);
    var op := s.txns[x].op;
    if op.NewVersionOf? {
      assert PlaybookUpdate(op.pb) in LocksOf(s.txns[x]) && !Clash(PlaybookUpdate(op.pb), PlaybookUpdate(pb));
    }
  }

  lemma CommitKeepsReads(s: State, x: Tid, y: Tid)
    requires Inv(s) && Enabled(s, Commit(x)) && y in s.txns && y != x
    ensures ReadsHold(Do(s, Commit(x)).t, s.txns[y])
  {
    var t', op, p := Do(s, Commit(x)).t, s.txns[y].op, s.txns[y].phase;
    assert ReadsHold(s.t, s.txns[y]);
    CommitRows(s, x);
    if !p.Begun? && !p.Ended? {
      match op {
        case Replace(v, _) =>
          if v in s.t.versions { CommitElsewhere(s, x, y, v); SameContent(s.t, t', v); }
        case Publish(v, _) =>
          if v in s.t.versions { CommitElsewhere(s, x, y, v); SameContent(s.t, t', v); }
        case NewVersionOf(pb, source, _) =>
          if source.Some? && source.value in s.t.versions {
            CommitElsewhere(s, x, y, source.value);
            SameContent(s.t, t', source.value);
          }
          if p.Numbered? { CommitKeepsNumbers(s, x, y, pb); }
        case GetVersion(v) =>
          if v in s.t.versions && s.t.versions[v].status != Draft { CommitElsewhere(s, x, y, v); SameContent(s.t, t', v); }
        case Create(_, _, _, _) =>
      }
    }
  }

  /** Another transaction's pending rows still fit. */
  lemma CommitKeepsView(s: State, x: Tid, y: Tid)
    requires Inv(s) && Enabled(s, Commit(x)) && y in s.txns && y != x && s.txns[y].phase.Writing?
    ensures Consistent(View(Do(s, Commit(x)).t, s.txns[y].op, s.txns[y].phase.own))
  {
    var a, b, own, other := s.txns[x].op, s.txns[y].op, s.txns[x].phase.own, s.txns[y].phase.own;
    assert WritesFit(s.t, s.txns[x]) && WritesFit(s.t, s.txns[y]) && PendingApart(s, x, y);
    WritersDiffer(s, x, y);
    var t' := Do(s, Commit(x)).t;
    var both := PendingPlaybooks(t', b);
    var t1 := s.t.(playbooks := both);
    MorePlaybooks(View(s.t, a, own), both);
    MorePlaybooks(View(s.t, b, other), both);
    assert View(s.t, a, own).(playbooks := both) == Put(t1, Written(a), own);
    assert View(s.t, b, other).(playbooks := both) == Put(t1, Written(b), other);
    TwoPuts(t1, Written(a), own, Written(b), other);
    assert View(t', b, other) == Put(Put(t1, Written(a), own), Written(b), other);
  }

  lemma CommitKeepsWrites(s: State, x: Tid, y: Tid)
    requires Inv(s) && Enabled(s, Commit(x)) && y in s.txns && y != x
    ensures WritesFit(Do(s, Commit(x)).t, s.txns[y])
  {
    if s.txns[y].phase.Writing? {
      var t', op := Do(s, Commit(x)).t, s.txns[y].op;
      assert ReadsHold(s.t, s.txns[y]) && WritesFit(s.t, s.txns[y]);
      CommitKeepsView(s, x, y);
      CommitRows(s, x);
      match op {
        case Replace(v, _) => CommitElsewhere(s, x, y, v); SameContent(s.t, t', v);
        case Publish(v, _) => CommitElsewhere(s, x, y, v); SameContent(s.t, t', v);
        case NewVersionOf(pb, source, _) =>
          if source.Some? { CommitElsewhere(s, x, y, source.value); SameContent(s.t, t', source.value); }
          CommitKeepsNumbers(s, x, y, pb);
        case Create(_, _, _, _) =>
        case GetVersion(_) =>
      }
    }
  }

  /** What is published is publishable. */
  lemma CommitPublishes(s: State, x: Tid, v: Uuid)
    requires Inv(s) && Enabled(s, Commit(x)) && v in Do(s, Commit(x)).t.versions
    ensures PublishedOk(Do(s, Commit(x)).t, v)
  {
    CommitRows(s, x);
    assert WritesFit(s.t, s.txns[x]);
    var t', op, own := Do(s, Commit(x)).t, s.txns[x].op, s.txns[x].phase.own;
    if v == Written(op) {
      if op.Publish? {
        var g :| Lists(g, ContentOf(s.t, v)) && Publishable(g);
        assert Lists(g, own);
      }
    } else {
      assert PublishedOk(s.t, v);
      SameContent(s.t, t', v);
    }
  }

  lemma CommitKeepsContiguous(s: State, x: Tid, pb: Uuid)
    requires Inv(s) && Enabled(s, Commit(x)) && pb in Do(s, Commit(x)).t.playbooks
    ensures NumbersOk(Do(s, Commit(x)).t, pb)
  {
    CommitNumbers(s, x, pb);
    CommitRows(s, x);
    OwnRow(s, x);
    var t', op, own := Do(s, Commit(x)).t, s.txns[x].op, s.txns[x].phase.own;
    if op.Create? && pb == op.pb {
      NewPlaybookKeeps(s.t, pb, op.alertType);
      assert Contiguous(t', pb, 1);
    } else {
      assert NumbersOk(s.t, pb);
      var n: nat :| Contiguous(s.t, pb, n);
      if op.NewVersionOf? && pb == op.pb {
        NextIsContiguous(s.t, pb, n, own.row.number);
        assert Contiguous(t', pb, n + 1);
      } else {
        assert Contiguous(t', pb, n);
      }
    }
  }

  lemma CommitFresh(s: State, x: Tid)
    requires Inv(s) && Enabled(s, Commit(x))
    ensures IdsFresh(Do(s, Commit(x)))
  {
    CommitRows(s, x);
    OwnRow(s, x);
    var s' := Do(s, Commit(x));
    forall y, z | y in s'.txns && z in s'.txns && y != z ensures IdsDiffer(s'.txns[y].op, s'.txns[z].op) {
      assert IdsDiffer(s.txns[y].op, s.txns[z].op);
    }
    forall y | y in s'.txns && !s'.txns[y].phase.Ended?
      ensures s'.txns[y].op.Create? || s'.txns[y].op.NewVersionOf? ==> s'.txns[y].op.newId !in s'.t.versions
      ensures s'.txns[y].op.Create? ==> s'.txns[y].op.pb !in s'.t.playbooks
    {
      assert y != x && IdsDiffer(s.txns[y].op, s.txns[x].op);
    }
  }

  lemma CommitKeeps(s: State, x: Tid)
    requires Inv(s) && Enabled(s, Commit(x))
    ensures Inv(Do(s, Commit(x)))
  {
    var s' := Do(s, Commit(x));
    CommitRows(s, x);
    DoExcludes(s, Commit(x));
    CommitFresh(s, x);
    forall y | y in s'.txns ensures ReadsHold(s'.t, s'.txns[y]) && WritesFit(s'.t, s'.txns[y]) {
      if y != x {
        CommitKeepsReads(s, x, y);
        CommitKeepsWrites(s, x, y);
      }
    }
    forall y, z | y in s'.txns && z in s'.txns && y != z ensures PendingApart(s', y, z) {
      assert y != x && z != x ==> PendingApart(s, y, z);
    }
    forall v | v in s'.t.versions ensures PublishedOk(s'.t, v) { CommitPublishes(s, x, v); }
    forall pb | pb in s'.t.playbooks ensures NumbersOk(s'.t, pb) { CommitKeepsContiguous(s, x, pb); }
  }

  /** Every statement of every interleaving keeps the invariant. */
  lemma DoKeeps(s: State, a: Action)
    requires Inv(s) && Enabled(s, a)
    ensures Inv(Do(s, a))
  {
    match a {
      case StartWrite(_, _, _, _, _) => StartWriteKeeps(s, a);
      case Statement(x) => StatementKeeps(s, x);
      case Commit(x) => CommitKeeps(s, x);
      case _ =>
        QuietReadsHold(s, a);
        PrivateStepKeeps(s, a);
    }
  }
}
