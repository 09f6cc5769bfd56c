/**
  What holds over all interleavings of version-store calls.
*/
module VersionTheorems {
  import opened Domain
  import opened PublishRules
  import opened Engine
  import opened VersionTables
  import opened VersionScripts
  import opened VersionContent
  import opened VersionOverlay
  import opened VersionConcurrency
  import opened VersionInvariant

  // ----- runs

  ghost predicate CanRun(s: State, run: seq<Action>)
    decreases |run|
  {
    run == [] || (Enabled(s, run[0]) && CanRun(Do(s, run[0]), run[1..]))
  }

  ghost function After(s: State, run: seq<Action>): State
    requires CanRun(s, run)
    decreases |run|
  {
    if run == [] then s else After(Do(s, run[0]), run[1..])
  }

  const EMPTY := State(Tables(map[], map[], {}, {}), map[])

  /** The empty database satisfies the invariant. */
  lemma EmptyStoreFits()
    ensures Inv(EMPTY)
  {
  }

  /** Version v is no longer a draft, and is stored the same later on. */
  ghost predicate FrozenSince(t: Tables, t': Tables) {
    forall v :: v in t.versions && t.versions[v].status != Draft ==> v in t'.versions && ContentOf(t', v) == ContentOf(t, v)
  }

  lemma DoFreezes(s: State, a: Action)
    requires Inv(s) && Enabled(s, a)
    ensures FrozenSince(s.t, Do(s, a).t)
  {
    if a.Commit? { CommitRows(s, a.tid); }
  }

  /**
    In every interleaving: each version that is published in some state satisfies the
    publish-time rules there, and its row, nodes and edges are the same in every later
    state; and each playbook's versions are always numbered exactly 1..n.
  */
  lemma {:induction false} PublishedForever(s: State, run: seq<Action>)
    requires Inv(s) && CanRun(s, run)
    ensures Inv(After(s, run)) && FrozenSince(s.t, After(s, run).t)
    ensures forall v :: v in s.t.versions && s.t.versions[v].status == Published ==>
      PublishableContent(ContentOf(s.t, v)) && v in After(s, run).t.versions && ContentOf(After(s, run).t, v) == ContentOf(s.t, v)
    ensures forall pb :: pb in After(s, run).t.playbooks ==> exists n: nat :: Contiguous(After(s, run).t, pb, n)
    decreases |run|
  {
    if run != [] {
      var s1, s2 := Do(s, run[0]), After(s, run);
      DoKeeps(s, run[0]);
      DoFreezes(s, run[0]);
      PublishedForever(s1, run[1..]);
      forall v | v in s.t.versions && s.t.versions[v].status != Draft
        ensures v in s2.t.versions && ContentOf(s2.t, v) == ContentOf(s.t, v)
      {
        assert v in s1.t.versions && ContentOf(s1.t, v) == ContentOf(s.t, v);
        SameContent(s.t, s1.t, v);
      }
    }
    forall v | v in s.t.versions && s.t.versions[v].status == Published ensures PublishableContent(ContentOf(s.t, v)) {
      assert PublishedOk(s.t, v);
    }
    forall pb | pb in After(s, run).t.playbooks ensures exists n: nat :: Contiguous(After(s, run).t, pb, n) {
      assert NumbersOk(After(s, run).t, pb);
    }
  }

  // ----- what each call commits

  /** The version store holds what it held, except for version w. */
  ghost predicate OnlyHere(t: Tables, t': Tables, w: Uuid) {
    && t'.versions.Keys == t.versions.Keys + {w}
    && forall v :: v in t.versions && v != w ==> ContentOf(t', v) == ContentOf(t, v)
  }

  /** Create adds the playbook with its alert type, and its draft version 1 with exactly the given graph. */
  lemma CreateCommits(s: State, x: Tid)
    requires Inv(s) && Enabled(s, Commit(x)) && s.txns[x].op.Create?
    ensures var op, t' := s.txns[x].op, Do(s, Commit(x)).t;
      && op.pb !in s.t.playbooks && op.newId !in s.t.versions
      && t'.playbooks == s.t.playbooks[op.pb := op.alertType]
      && OnlyHere(s.t, t', op.newId)
      && ContentOf(t', op.newId) == Content(Version(op.newId, op.pb, 1, Draft, op.g.root, None), NodesSet(op.g.nodes), EdgesSet(op.g.edges))
  {
    CommitRows(s, x);
    assert WritesFit(s.t, s.txns[x]);
  }

  /** A new version without a source is an empty draft under the next number. */
  lemma EmptyVersionCommits(s: State, x: Tid)
    requires Inv(s) && Enabled(s, Commit(x)) && s.txns[x].op.NewVersionOf? && s.txns[x].op.source == None
    ensures var op, t' := s.txns[x].op, Do(s, Commit(x)).t;
      && op.pb in s.t.playbooks && op.newId !in s.t.versions
      && t'.playbooks == s.t.playbooks && OnlyHere(s.t, t', op.newId)
      && IsNextNumber(NumbersOf(s.t, op.pb), t'.versions[op.newId].number)
      && ContentOf(t', op.newId) == Content(Version(op.newId, op.pb, t'.versions[op.newId].number, Draft, None, None), {}, {})
  {
    CommitRows(s, x);
    OwnRow(s, x);
    assert ReadsHold(s.t, s.txns[x]) && WritesFit(s.t, s.txns[x]);
    assert ContentOf(Do(s, Commit(x)).t, s.txns[x].op.newId) == s.txns[x].phase.target;
  }

  /** Publish flips the status of exactly the stored graph that it validated; nothing else changes. */
  lemma PublishCommits(s: State, x: Tid)
    requires Inv(s) && Enabled(s, Commit(x)) && s.txns[x].op.Publish?
    ensures var v, t' := s.txns[x].op.v, Do(s, Commit(x)).t;
      && v in s.t.versions && s.t.versions[v].status == Draft && PublishableContent(ContentOf(s.t, v))
      && v in t'.versions && t'.versions[v] == s.t.versions[v].(status := Published, publishedAt := Some(s.txns[x].op.now))
      && NodesOf(t', v) == NodesOf(s.t, v) && EdgesOf(t', v) == EdgesOf(s.t, v)
      && t'.playbooks == s.t.playbooks && OnlyHere(s.t, t', v)
  {
    CommitRows(s, x);
    assert WritesFit(s.t, s.txns[x]);
    var v, t' := s.txns[x].op.v, Do(s, Commit(x)).t;
    assert ContentOf(t', v) == LocalExec(ContentOf(s.t, v), MarkPublished(s.txns[x].op.now));
  }

  /** ReplaceGraph replaces exactly the rows of a draft by the given graph. */
  lemma ReplaceCommits(s: State, x: Tid)
    requires Inv(s) && Enabled(s, Commit(x)) && s.txns[x].op.Replace?
    ensures var v, g, t' := s.txns[x].op.v, s.txns[x].op.g, Do(s, Commit(x)).t;
      && v in s.t.versions && s.t.versions[v].status == Draft
      && v in t'.versions && ContentOf(t', v) == Content(s.t.versions[v].(root := g.root), NodesSet(g.nodes), EdgesSet(g.edges))
      && t'.playbooks == s.t.playbooks && OnlyHere(s.t, t', v)
  {
    CommitRows(s, x);
    assert WritesFit(s.t, s.txns[x]);
  }

  /**
    A clone commits a copy, sharing no id, of the graph that the source version holds at
    that very instant: the three reads of the source never tear.
  */
  lemma CloneCommits(s: State, x: Tid)
    requires Inv(s) && Enabled(s, Commit(x)) && s.txns[x].op.NewVersionOf? && s.txns[x].op.source.Some?
    ensures var op, t' := s.txns[x].op, Do(s, Commit(x)).t;
      var c := op.source.value;
      && BelongsTo(s.t, c, op.pb) && ContentOf(t', c) == ContentOf(s.t, c)
      && op.newId !in s.t.versions && t'.playbooks == s.t.playbooks && OnlyHere(s.t, t', op.newId)
      && IsDraft(t', op.newId) && BelongsTo(t', op.newId, op.pb)
      && IsNextNumber(NumbersOf(s.t, op.pb), t'.versions[op.newId].number)
      && CopyOf(ContentOf(t', c), ContentOf(t', op.newId))
  {
    CommitRows(s, x);
    OwnRow(s, x);
    assert WritesFit(s.t, s.txns[x]);
    var op, t' := s.txns[x].op, Do(s, Commit(x)).t;
    assert ContentOf(t', op.newId) == s.txns[x].phase.target;
    assert ContentOf(t', op.source.value) == ContentOf(s.t, op.source.value);
  }

  /** While its source is locked, what a clone has read so far is what is stored. */
  lemma CloneReadsOneInstant(s: State, x: Tid)
    requires Inv(s) && x in s.txns && s.txns[x].op.NewVersionOf? && s.txns[x].op.source.Some? && s.txns[x].phase.HasAll?
    ensures var c, p := s.txns[x].op.source.value, s.txns[x].phase;
      c in s.t.versions && Content(p.row, p.nodes, p.edges) == ContentOf(s.t, c)
  {
    assert ReadsHold(s.t, s.txns[x]);
  }

  // ----- reading without a lock

  /**
    GetVersion takes three snapshots and no lock; if the first of them saw a published
    version, the three together are its frozen graph, which is playable.
  */
  lemma UnlockedReadOfPublished(s: State, x: Tid, g: Graph)
    requires Inv(s) && x in s.txns && s.txns[x].op.GetVersion? && s.txns[x].phase.HasAll?
    requires s.txns[x].phase.row.status == Published
    requires Lists(g, Content(s.txns[x].phase.row, s.txns[x].phase.nodes, s.txns[x].phase.edges))
    ensures var v := s.txns[x].op.v;
      && v in s.t.versions && s.t.versions[v] == s.txns[x].phase.row && Lists(g, ContentOf(s.t, v))
      && Playable(g) && UniqueLabels(g.edges)
  {
    var v := s.txns[x].op.v;
    assert ReadsHold(s.t, s.txns[x]);
    assert PublishedOk(s.t, v);
    PublishedIsPlayable(s.t, v, g);
  }

  /** Every listing of a published version is a graph on which investigations can run. */
  lemma PublishedIsPlayable(t: Tables, v: Uuid, g: Graph)
    requires Consistent(t) && v in t.versions && PublishableContent(ContentOf(t, v)) && Lists(g, ContentOf(t, v))
    ensures Playable(g) && UniqueLabels(g.edges)
  {
    ListingCoherent(t, v, g);
    var h :| Lists(h, ContentOf(t, v)) && Publishable(h);
    ListingsAgree(h, g, ContentOf(t, v));
  }

  // ----- waiting

  /** The version or playbook lock that a transaction's next statement asks for, if any. */
  function Requested(x: Txn): set<Lock> {
    match x.op
    case Replace(v, _) => if x.phase.Begun? then {VersionUpdate(v)} else RequestedKey(x)
    case Publish(v, _) => if x.phase.Begun? then {VersionUpdate(v)} else RequestedKey(x)
    case NewVersionOf(pb, source, _) =>
      if x.phase.Begun? && source.Some? then {VersionShare(source.value)}
      else if x.phase.Begun? || x.phase.HasAll? then {PlaybookUpdate(pb)} else {}
    case _ => {}
  }

  function RequestedKey(x: Txn): set<Lock> {
    if x.phase.Writing? && x.phase.todo != [] && TakesKey(x, x.phase.todo[0]) then {PlaybookKey(x.phase.own.row.playbookId)} else {}
  }

  /** Once a replacement or a publication has updated its version row, it holds the key of its playbook. */
  lemma UpdateTakesKey(s: State, x: Tid)
    requires Enabled(s, Statement(x)) && Do(s, Statement(x)).txns[x].phase.Writing?
    requires s.txns[x].op.Replace? || s.txns[x].op.Publish?
    requires var stmt := s.txns[x].phase.todo[0]; stmt.ClearRoot? || stmt.PutRoot? || stmt.MarkPublished?
    ensures PlaybookKey(s.txns[x].phase.own.row.playbookId) in LocksOf(Do(s, Statement(x)).txns[x])
  {
    StatementResult(s, x);
  }

  /** x cannot run its next statement because of a row lock that y holds. */
  ghost predicate WaitsFor(s: State, x: Tid, y: Tid) {
    && x in s.txns && y in s.txns && x != y
    && exists l, m :: l in Requested(s.txns[x]) && m in LocksOf(s.txns[y]) && Clash(l, m)
  }

  /** Version rows are locked before playbook rows: 0 asks for a version, 1 for a playbook, 2 for neither. */
  function Rank(x: Txn): nat {
    if exists l :: l in Requested(x) && (l.VersionUpdate? || l.VersionShare?) then 0
    else if Requested(x) != {} then 1
    else 2
  }

  lemma WaitingClimbs(s: State, x: Tid, y: Tid)
    requires WaitsFor(s, x, y)
    ensures Rank(s.txns[x]) < Rank(s.txns[y])
  {
    var l, m :| l in Requested(s.txns[x]) && m in LocksOf(s.txns[y]) && Clash(l, m);
    if m.PlaybookUpdate? || m.PlaybookKey? {
      assert Requested(s.txns[y]) == {};
    } else {
      assert l.VersionUpdate? || l.VersionShare?;
      assert !s.txns[y].phase.Begun?;
    }
  }

  /** A chain of waits climbs in rank. */
  lemma {:induction false} ChainClimbs(s: State, chain: seq<Tid>)
    requires |chain| >= 2 && forall i :: 0 <= i < |chain| - 1 ==> WaitsFor(s, chain[i], chain[i + 1])
    ensures chain[0] in s.txns && chain[|chain| - 1] in s.txns
    ensures Rank(s.txns[chain[0]]) + |chain| - 1 <= Rank(s.txns[chain[|chain| - 1]])
  {
    var n := |chain|;
    assert WaitsFor(s, chain[n - 2], chain[n - 1]);
    WaitingClimbs(s, chain[n - 2], chain[n - 1]);
    if n > 2 {
      var init := chain[..n - 1];
      forall i | 0 <= i < |init| - 1 ensures WaitsFor(s, init[i], init[i + 1]) { assert WaitsFor(s, chain[i], chain[i + 1]); }
      ChainClimbs(s, init);
    }
  }

  /** No deadlock over version and playbook rows: no cycle of waits, and no chain of more than three transactions. */
  lemma NoDeadlock(s: State, chain: seq<Tid>)
    requires |chain| >= 2 && forall i :: 0 <= i < |chain| - 1 ==> WaitsFor(s, chain[i], chain[i + 1])
    ensures chain[0] != chain[|chain| - 1] && |chain| <= 3
  {
    ChainClimbs(s, chain);
  }
}
