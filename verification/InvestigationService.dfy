/**
  The investigation service (internal/service/investigationservice/service.go) over both
  stores at once: version-store calls run statement by statement, decisions as the atomic
  steps they are equivalent to, and versions are read without any lock.
*/
module InvestigationService {
  import opened Domain
  import opened Distinct
  import opened Engine
  import opened Choices
  import opened DecisionStore
  import opened DecisionHistory
  import opened VersionTables
  import opened VersionContent
  import VC = VersionConcurrency
  import VI = VersionInvariant
  import VT = VersionTheorems

  // ----- the service's own checks

  /** The alert type of the playbook that a version belongs to. */
  function OwnerType(t: Tables, row: Version): Option<string> {
    if row.playbookId in t.playbooks then Some(t.playbooks[row.playbookId]) else None
  }

  /**
    Start: the alert's type and its playbook's, each None if there is no such row; the
    alert-type gate; the root lookup; then the engine's Start.
  */
  function StartInvestigation(row: Version, g: Graph, ownerType: Option<string>, alertType: Option<string>, alertId: Uuid, now: Time)
    : Result<Investigation>
  {
    if alertType == None || ownerType == None then Err(NotFound)
    else if ownerType.value != alertType.value then Err(AlertTypeMismatch)
    else
      var root := if row.root.Some? then NodeById(g.nodes, row.root.value) else None;
      if root == None then
        if row.status != Published then Err(VersionNotPublished) else Err(Internal)
      else Engine.Start(alertId, row, root.value, now)
  }

  /** buildState: the current node and what can be chosen from it. */
  function BuildState(g: Graph, inv: Investigation): Result<(Node, seq<Edge>)> {
    var n := NodeById(g.nodes, inv.current);
    if n == None then Err(Internal) else Ok((n.value, ChoicesFor(g, inv)))
  }

  // ----- both stores

  /** The version store with its running calls, the alerts with their types, and the committed investigation rows. */
  datatype Sys = Sys(vs: VC.State, alerts: map<Uuid, string>, db: Db)

  function AlertType(s: Sys, alertId: Uuid): Option<string> {
    if alertId in s.alerts then Some(s.alerts[alertId]) else None
  }

  /** Investigations are bound to published versions, whose rows db.graphs lists. */
  ghost predicate Bound(t: Tables, db: Db) {
    forall v {:trigger v in db.graphs} :: v in db.graphs ==>
      v in t.versions && t.versions[v].status == Published && Lists(db.graphs[v], ContentOf(t, v))
  }

  /** The investigation is about an alert that is there, of the type of its version's playbook. */
  predicate AlertFits(s: Sys, inv: Investigation) {
    && inv.alertId in s.alerts && inv.versionId in s.vs.t.versions
    && OwnerType(s.vs.t, s.vs.t.versions[inv.versionId]) == Some(s.alerts[inv.alertId])
  }

  ghost predicate AlertsFit(s: Sys) {
    forall id {:trigger AlertFits(s, s.db.investigations[id])} :: id in s.db.investigations ==> AlertFits(s, s.db.investigations[id])
  }

  ghost predicate SysInv(s: Sys) {
    VC.Inv(s.vs) && Sound(s.db) && Bound(s.vs.t, s.db) && AlertsFit(s)
  }

  datatype SysAction =
    | VersionStep(a: VC.Action)
    | DecisionStep(r: Request)
    | StartStep(tid: VC.Tid, g: Graph, alertId: Uuid, now: Time, id: Uuid)
    | AlertStep(id: Uuid, alertType: string)

  /** Call x of GetVersion has done its three reads, and g lists what they returned. */
  ghost predicate HasLoaded(vs: VC.State, x: VC.Tid, g: Graph) {
    && x in vs.txns && vs.txns[x].op.GetVersion? && vs.txns[x].phase.HasAll?
    && Lists(g, Content(vs.txns[x].phase.row, vs.txns[x].phase.nodes, vs.txns[x].phase.edges))
  }

  ghost predicate SysEnabled(s: Sys, a: SysAction) {
    match a
    case VersionStep(b) => VC.Enabled(s.vs, b)
    case DecisionStep(_) => true
    case StartStep(x, g, _, _, id) => HasLoaded(s.vs, x, g) && id !in s.db.investigations
    case AlertStep(id, _) => id !in s.alerts
  }

  ghost function SysDo(s: Sys, a: SysAction): Sys
    requires SysEnabled(s, a)
  {
    match a
    case VersionStep(b) => s.(vs := VC.Do(s.vs, b))
    case DecisionStep(r) => s.(db := Apply(s.db, r).0)
    case StartStep(x, g, alertId, now, id) =>
      var row := s.vs.txns[x].phase.row;
      var inv := StartInvestigation(row, g, OwnerType(s.vs.t, row), AlertType(s, alertId), alertId, now);
      if inv.Err? then s
      else s.(db := Begin(WithGraph(s.db, s.vs.txns[x].op.v, g), id, inv.value))
    case AlertStep(id, alertType) => s.(alerts := s.alerts[id := alertType])
  }

  /** The rows of a version come into play when the first investigation is bound to it. */
  function WithGraph(db: Db, v: Uuid, g: Graph): Db {
    if v in db.graphs then db else db.(graphs := db.graphs[v := g])
  }

  /**
    Starting on whatever GetVersion read: the internal error "no usable root" is
    unreachable, and it succeeds exactly on a published version whose playbook has the
    type of an alert that is there. The row is about that alert, on that version, at its
    root, since now; it is completed at once if the root is terminal, with its resolution.
  */
  lemma StartOutcome(s: Sys, x: VC.Tid, g: Graph, alertId: Uuid, now: Time)
    requires SysInv(s) && HasLoaded(s.vs, x, g)
    ensures var row := s.vs.txns[x].phase.row;
      var owner, alertType := OwnerType(s.vs.t, row), AlertType(s, alertId);
      var out := StartInvestigation(row, g, owner, alertType, alertId, now);
      && out != Err(Internal)
      && (out.Ok? <==> owner == alertType && alertType.Some? && row.status == Published)
      && (out == Err(NotFound) <==> alertType == None || owner == None)
      && (out == Err(AlertTypeMismatch) <==> alertType.Some? && owner.Some? && owner != alertType)
      && (out == Err(VersionNotPublished) <==> alertType.Some? && owner == alertType && row.status != Published)
      && (row.status == Published ==> owner.Some?)
      && (out.Ok? ==> StartedAt(g, row, alertId, now, out.value))
      && (out.Ok? ==> Playable(g) && row.id == s.vs.txns[x].op.v && row.id in s.vs.t.versions)
      && (out.Ok? ==> g.root.Some? && NodeById(g.nodes, g.root.value).Some?)
      && (out.Ok? ==> out == Engine.Start(alertId, row, NodeById(g.nodes, g.root.value).value, now))
  {
    var row, v := s.vs.txns[x].phase.row, s.vs.txns[x].op.v;
    if row.status == Published {
      VT.UnlockedReadOfPublished(s.vs, x, g);
      assert VersionRowOk(s.vs.t, v);
      NodeByIdFinds(g.nodes, g.root.value);
    }
  }

  /** A row that has just been started: about this alert, on this version, at its root, now. */
  predicate StartedAt(g: Graph, row: Version, alertId: Uuid, now: Time, inv: Investigation) {
    && inv.alertId == alertId && inv.versionId == row.id && inv.startedAt == now && g.root == Some(inv.current)
    && exists root :: root in g.nodes && root.id == inv.current &&
         (if root.kind == Terminal
          then inv.status == Done && inv.completedAt == Some(now) && inv.resolution == root.resolution
          else inv.status == InProgress && inv.completedAt == None && inv.resolution == None)
  }

  lemma WithGraphSound(db: Db, v: Uuid, g: Graph)
    requires Sound(db) && Playable(g)
    ensures Sound(WithGraph(db, v, g))
  {
    var db' := WithGraph(db, v, g);
    if v !in db.graphs {
      forall w | w in db'.graphs ensures Playable(GraphOf(db', w)) { assert w != v ==> Playable(GraphOf(db, w)); }
      forall id | id in db'.investigations ensures SoundAt(db', id) { assert SoundAt(db, id); }
    }
  }

  lemma StartStepKeeps(s: Sys, a: SysAction)
    requires SysInv(s) && a.StartStep? && SysEnabled(s, a)
    ensures SysInv(SysDo(s, a))
  {
    var x, v := a.tid, s.vs.txns[a.tid].op.v;
    var row := s.vs.txns[x].phase.row;
    StartOutcome(s, x, a.g, a.alertId, a.now);
    if StartInvestigation(row, a.g, OwnerType(s.vs.t, row), AlertType(s, a.alertId), a.alertId, a.now).Ok? {
      VT.UnlockedReadOfPublished(s.vs, x, a.g);
      WithGraphSound(s.db, v, a.g);
      var db := WithGraph(s.db, v, a.g);
      var h := GraphOf(db, v);
      assert Playable(h);
      if v in s.db.graphs { ListingsSameRoot(s, v, a.g); }
      var root := NodeById(a.g.nodes, a.g.root.value).value;
      NodeByIdFinds(a.g.nodes, a.g.root.value);
      SameNodes(s.vs.t, v, a.g, h);
      BeginKeeps(db, a.id, a.alertId, row, root, a.now);
      StartFits(s, a);
    }
  }

  /** The new row fits its alert, and the others still do. */
  lemma StartFits(s: Sys, a: SysAction)
    requires SysInv(s) && a.StartStep? && SysEnabled(s, a)
    ensures AlertsFit(SysDo(s, a))
  {
    var s', row := SysDo(s, a), s.vs.txns[a.tid].phase.row;
    StartOutcome(s, a.tid, a.g, a.alertId, a.now);
    if row.status == Published { VT.UnlockedReadOfPublished(s.vs, a.tid, a.g); }
    forall id | id in s'.db.investigations ensures AlertFits(s', s'.db.investigations[id]) {
      if id in s.db.investigations { assert AlertFits(s, s.db.investigations[id]); }
    }
  }

  lemma ListingsSameRoot(s: Sys, v: Uuid, g: Graph)
    requires SysInv(s) && v in s.db.graphs && Lists(g, ContentOf(s.vs.t, v))
    ensures Lists(s.db.graphs[v], ContentOf(s.vs.t, v)) && s.db.graphs[v].root == g.root
  {
  }

  lemma SameNodes(t: Tables, v: Uuid, g: Graph, h: Graph)
    requires v in t.versions && Lists(g, ContentOf(t, v)) && Lists(h, ContentOf(t, v))
    ensures forall n :: n in g.nodes <==> n in h.nodes
    ensures forall e :: e in g.edges <==> e in h.edges
  {
    forall n ensures n in g.nodes <==> n in h.nodes {
      assert n in VersionScripts.NodesSet(g.nodes) <==> n in VersionScripts.NodesSet(h.nodes);
    }
    forall e ensures e in g.edges <==> e in h.edges {
      assert e in VersionScripts.EdgesSet(g.edges) <==> e in VersionScripts.EdgesSet(h.edges);
    }
  }

  lemma VersionStepKeeps(s: Sys, b: VC.Action)
    requires SysInv(s) && VC.Enabled(s.vs, b)
    ensures SysInv(SysDo(s, VersionStep(b)))
  {
    VI.DoKeeps(s.vs, b);
    VT.DoFreezes(s.vs, b);
    var t, t' := s.vs.t, VC.Do(s.vs, b).t;
    forall v | v in s.db.graphs
      ensures v in t'.versions && t'.versions[v].status == Published && Lists(s.db.graphs[v], ContentOf(t', v))
    {
      assert v in t.versions && t.versions[v].status != Draft;
      assert v in t'.versions && ContentOf(t', v) == ContentOf(t, v);
      VI.SameContent(t, t', v);
    }
    VersionStepFits(s, b);
  }

  /** A playbook's alert type never changes. */
  lemma PlaybooksStay(vs: VC.State, b: VC.Action)
    requires VC.Inv(vs) && VC.Enabled(vs, b)
    ensures forall pb :: pb in vs.t.playbooks ==> pb in VC.Do(vs, b).t.playbooks && VC.Do(vs, b).t.playbooks[pb] == vs.t.playbooks[pb]
  {
  }

  lemma VersionStepFits(s: Sys, b: VC.Action)
    requires SysInv(s) && VC.Enabled(s.vs, b)
    ensures AlertsFit(SysDo(s, VersionStep(b)))
  {
    var s' := SysDo(s, VersionStep(b));
    VT.DoFreezes(s.vs, b);
    PlaybooksStay(s.vs, b);
    forall id | id in s'.db.investigations ensures AlertFits(s', s'.db.investigations[id]) {
      var inv := s.db.investigations[id];
      assert AlertFits(s, inv) && SoundAt(s.db, id);
      VI.SameContent(s.vs.t, s'.vs.t, inv.versionId);
    }
  }

  lemma DecisionStepFits(s: Sys, r: Request)
    requires SysInv(s)
    ensures AlertsFit(SysDo(s, DecisionStep(r)))
  {
    var s' := SysDo(s, DecisionStep(r));
    ApplyExtends(s.db, r);
    forall id | id in s'.db.investigations ensures AlertFits(s', s'.db.investigations[id]) {
      assert AlertFits(s, s.db.investigations[id]);
    }
  }

  lemma AlertStepFits(s: Sys, a: SysAction)
    requires SysInv(s) && a.AlertStep? && SysEnabled(s, a)
    ensures AlertsFit(SysDo(s, a))
  {
    var s' := SysDo(s, a);
    forall id | id in s'.db.investigations ensures AlertFits(s', s'.db.investigations[id]) {
      assert AlertFits(s, s.db.investigations[id]);
    }
  }

  /** Every step of either store keeps both. */
  lemma SysDoKeeps(s: Sys, a: SysAction)
    requires SysInv(s) && SysEnabled(s, a)
    ensures SysInv(SysDo(s, a))
  {
    match a {
      case VersionStep(b) => VersionStepKeeps(s, b);
      case DecisionStep(r) =>
        ApplyKeeps(s.db, r);
        ApplyEffect(s.db, r);
        DecisionStepFits(s, r);
      case StartStep(_, _, _, _, _) => StartStepKeeps(s, a);
      case AlertStep(_, _) => AlertStepFits(s, a);
    }
  }

  // ----- runs of both stores

  ghost predicate SysCanRun(s: Sys, run: seq<SysAction>)
    decreases |run|
  {
    run == [] || (SysEnabled(s, run[0]) && SysCanRun(SysDo(s, run[0]), run[1..]))
  }

  ghost function SysAfter(s: Sys, run: seq<SysAction>): Sys
    requires SysCanRun(s, run)
    decreases |run|
  {
    if run == [] then s else SysAfter(SysDo(s, run[0]), run[1..])
  }

  /** Both stores without a row or a running call. */
  const NOTHING_STORED := Sys(VT.EMPTY, map[], Db(map[], map[], []))

  lemma NothingStoredFits()
    ensures SysInv(NOTHING_STORED)
  {
    VT.EmptyStoreFits();
  }

  lemma {:induction false} RunKeeps(s: Sys, run: seq<SysAction>)
    requires SysInv(s) && SysCanRun(s, run)
    ensures SysInv(SysAfter(s, run))
    decreases |run|
  {
    if run != [] {
      SysDoKeeps(s, run[0]);
      RunKeeps(SysDo(s, run[0]), run[1..]);
    }
  }

  /**
    Whatever happens from the empty stores on, at every moment: each published version
    satisfies the publish-time rules and is stored the same for ever after; each playbook
    is numbered 1..n; and each investigation runs on a published version that can be
    played, with recorded steps that replay from its root to its row, and is about an
    alert of that playbook's type.
  */
  lemma EveryMoment(run: seq<SysAction>, later: seq<SysAction>)
    requires SysCanRun(NOTHING_STORED, run) && SysCanRun(SysAfter(NOTHING_STORED, run), later)
    ensures var s := SysAfter(NOTHING_STORED, run);
      var t, t' := s.vs.t, SysAfter(s, later).vs.t;
      && (forall v :: v in t.versions && t.versions[v].status == Published ==>
            PublishableContent(ContentOf(t, v)) && v in t'.versions && ContentOf(t', v) == ContentOf(t, v))
      && (forall pb :: pb in t.playbooks ==> exists n: nat :: Contiguous(t, pb, n))
      && (forall id :: id in s.db.investigations ==> BoundAndPlayed(s, id) && AlertFits(s, s.db.investigations[id]))
  {
    var s := SysAfter(NOTHING_STORED, run);
    NothingStoredFits();
    RunKeeps(NOTHING_STORED, run);
    forall v | v in s.vs.t.versions && s.vs.t.versions[v].status == Published
      ensures PublishableContent(ContentOf(s.vs.t, v))
      ensures v in SysAfter(s, later).vs.t.versions && ContentOf(SysAfter(s, later).vs.t, v) == ContentOf(s.vs.t, v)
    {
      assert VC.PublishedOk(s.vs.t, v);
      SysFreezes(s, later, v);
    }
    forall pb | pb in s.vs.t.playbooks ensures exists n: nat :: Contiguous(s.vs.t, pb, n) {
      assert VC.NumbersOk(s.vs.t, pb);
    }
    forall id | id in s.db.investigations ensures BoundAndPlayed(s, id) && AlertFits(s, s.db.investigations[id]) {
      InvestigationBound(s, id);
    }
  }

  /** The investigation's version is published, and its steps replay on the stored graph to its row. */
  ghost predicate BoundAndPlayed(s: Sys, id: Uuid)
    requires id in s.db.investigations
  {
    var inv := s.db.investigations[id];
    && inv.versionId in s.vs.t.versions && s.vs.t.versions[inv.versionId].status == Published
    && Lists(GraphFor(s.db, id), ContentOf(s.vs.t, inv.versionId)) && Playable(GraphFor(s.db, id))
    && History(GraphFor(s.db, id), inv, StepsOf(s.db.steps, id))
  }

  lemma InvestigationBound(s: Sys, id: Uuid)
    requires SysInv(s) && id in s.db.investigations
    ensures BoundAndPlayed(s, id)
  {
    assert SoundAt(s.db, id);
    assert Playable(GraphOf(s.db, s.db.investigations[id].versionId));
  }

  /** What is fixed when an investigation starts stays fixed. */
  lemma {:induction false} RowsStay(s: Sys, run: seq<SysAction>, id: Uuid)
    requires SysInv(s) && SysCanRun(s, run) && id in s.db.investigations
    ensures id in SysAfter(s, run).db.investigations && SameRun(s.db.investigations[id], SysAfter(s, run).db.investigations[id])
    decreases |run|
  {
    if run != [] {
      SysDoKeeps(s, run[0]);
      RowStays(s, run[0], id);
      RowsStay(SysDo(s, run[0]), run[1..], id);
    }
  }

  lemma RowStays(s: Sys, a: SysAction, id: Uuid)
    requires SysInv(s) && SysEnabled(s, a) && id in s.db.investigations
    ensures id in SysDo(s, a).db.investigations && SameRun(s.db.investigations[id], SysDo(s, a).db.investigations[id])
  {
    if a.DecisionStep? { ApplyExtends(s.db, a.r); }
  }

  /**
    A start that succeeds stores a row under the new id, and whatever happens later that
    row is about the alert it was started for, on the version it was started on, since then.
  */
  lemma StartIsStored(s: Sys, a: SysAction, later: seq<SysAction>)
    requires SysInv(s) && a.StartStep? && SysEnabled(s, a) && SysCanRun(SysDo(s, a), later)
    ensures var row := s.vs.txns[a.tid].phase.row;
      var s' := SysAfter(SysDo(s, a), later);
      if AlertType(s, a.alertId).Some? && OwnerType(s.vs.t, row) == AlertType(s, a.alertId) && row.status == Published then
        && a.id in SysDo(s, a).db.investigations && StartedAt(a.g, row, a.alertId, a.now, SysDo(s, a).db.investigations[a.id])
        && a.id in s'.db.investigations
        && var inv := s'.db.investigations[a.id];
          inv.id == a.id && inv.alertId == a.alertId && inv.versionId == row.id && inv.startedAt == a.now
      else SysDo(s, a) == s
  {
    StartOutcome(s, a.tid, a.g, a.alertId, a.now);
    SysDoKeeps(s, a);
    if a.id in SysDo(s, a).db.investigations { RowsStay(SysDo(s, a), later, a.id); }
  }

  predicate RowReadIs(p: VC.Phase, row: Version) {
    p.HasRow? || p.HasNodes? || p.HasAll? ==> p.row == row
  }

  /** Published version v has this row, and no GetVersion call on it that began since has read any other. */
  ghost predicate ReadsSince(s: Sys, v: Uuid, row: Version, before: set<VC.Tid>) {
    && v in s.vs.t.versions && s.vs.t.versions[v] == row
    && forall x :: x in s.vs.txns && x !in before && s.vs.txns[x].op == VC.GetVersion(v) ==> RowReadIs(s.vs.txns[x].phase, row)
  }

  lemma ReadsSinceKept(s: Sys, a: SysAction, v: Uuid, row: Version, before: set<VC.Tid>)
    requires SysInv(s) && SysEnabled(s, a) && ReadsSince(s, v, row, before) && row.status == Published
    ensures ReadsSince(SysDo(s, a), v, row, before)
  {
    if a.VersionStep? {
      VT.DoFreezes(s.vs, a.a);
      var t' := VC.Do(s.vs, a.a).t;
      assert v in t'.versions && ContentOf(t', v) == ContentOf(s.vs.t, v);
      VI.SameContent(s.vs.t, t', v);
    }
  }

  lemma {:induction false} SysRuns(s: Sys, run: seq<SysAction>, v: Uuid, row: Version, before: set<VC.Tid>)
    requires SysInv(s) && SysCanRun(s, run)
    requires row.status == Published ==> ReadsSince(s, v, row, before)
    ensures SysInv(SysAfter(s, run))
    ensures row.status == Published ==> ReadsSince(SysAfter(s, run), v, row, before)
    decreases |run|
  {
    if run != [] {
      SysDoKeeps(s, run[0]);
      if row.status == Published { ReadsSinceKept(s, run[0], v, row, before); }
      SysRuns(SysDo(s, run[0]), run[1..], v, row, before);
    }
  }

  /**
    Get: the investigation is read first (in state s), the version afterwards, in three
    snapshots and without a lock (they are complete after run). The internal error "node
    not in version" is unreachable, and the choices are those of the stored graph.
  */
  lemma GetNeverFails(s: Sys, id: Uuid, run: seq<SysAction>, x: VC.Tid, g: Graph)
    requires SysInv(s) && id in s.db.investigations && SysCanRun(s, run) && x !in s.vs.txns
    requires HasLoaded(SysAfter(s, run).vs, x, g) && SysAfter(s, run).vs.txns[x].op.v == s.db.investigations[id].versionId
    ensures var inv := s.db.investigations[id];
      var out := BuildState(g, inv);
      && out.Ok? && out.value.0.id == inv.current && out.value.0 in GraphFor(s.db, id).nodes
      && out.value.1 == ChoicesFor(GraphFor(s.db, id), inv)
  {
    var inv, h, s' := s.db.investigations[id], GraphFor(s.db, id), SysAfter(s, run);
    assert SoundAt(s.db, id) && inv.versionId in s.db.graphs;
    LoadedIsBound(s, run, x, g, inv.versionId);
    StateOfListing(s'.vs.t, inv.versionId, g, h, inv);
  }

  /** What GetVersion loads of a bound version, at any later time, is what investigations run on. */
  lemma LoadedIsBound(s: Sys, run: seq<SysAction>, x: VC.Tid, g: Graph, v: Uuid)
    requires SysInv(s) && SysCanRun(s, run) && x !in s.vs.txns && v in s.db.graphs
    requires HasLoaded(SysAfter(s, run).vs, x, g) && SysAfter(s, run).vs.txns[x].op.v == v
    ensures var t := SysAfter(s, run).vs.t;
      v in t.versions && Lists(g, ContentOf(t, v)) && Lists(GraphOf(s.db, v), ContentOf(t, v)) && Playable(g) && UniqueLabels(g.edges)
  {
    var row := s.vs.t.versions[v];
    SysRuns(s, run, v, row, s.vs.txns.Keys);
    SysFreezes(s, run, v);
    assert RowReadIs(SysAfter(s, run).vs.txns[x].phase, row);
    VT.UnlockedReadOfPublished(SysAfter(s, run).vs, x, g);
  }

  lemma StateOfListing(t: Tables, v: Uuid, g: Graph, h: Graph, inv: Investigation)
    requires v in t.versions && Lists(g, ContentOf(t, v)) && Lists(h, ContentOf(t, v))
    requires UniqueLabels(g.edges) && Standing(h, inv)
    ensures var out := BuildState(g, inv);
      out.Ok? && out.value.0.id == inv.current && out.value.0 in h.nodes && out.value.1 == ChoicesFor(h, inv)
  {
    SameNodes(t, v, g, h);
    assert NodeIds(g.nodes) == NodeIds(h.nodes);
    NodeByIdFinds(g.nodes, inv.current);
    SameElements(g.edges, h.edges);
    ChoicesCanonical(g, h, inv.current);
  }

  lemma {:induction false} SysFreezes(s: Sys, run: seq<SysAction>, v: Uuid)
    requires SysInv(s) && SysCanRun(s, run) && v in s.vs.t.versions && s.vs.t.versions[v].status == Published
    ensures v in SysAfter(s, run).vs.t.versions && ContentOf(SysAfter(s, run).vs.t, v) == ContentOf(s.vs.t, v)
    decreases |run|
  {
    if run != [] {
      var s1 := SysDo(s, run[0]);
      SysDoKeeps(s, run[0]);
      if run[0].VersionStep? { VT.DoFreezes(s.vs, run[0].a); }
      assert v in s1.vs.t.versions && ContentOf(s1.vs.t, v) == ContentOf(s.vs.t, v);
      VI.SameContent(s.vs.t, s1.vs.t, v);
      SysFreezes(s1, run[1..], v);
    }
  }

  // ----- the stored rows and the graph that decisions run on

  /** loadEdgeWithDestination as a query over the tables: an edge row of the version joined with the node row it leads to. */
  ghost predicate Joined(t: Tables, v: Uuid, edgeId: Uuid, e: Edge, n: Node) {
    EdgeRow(v, e) in t.edges && e.id == edgeId && NodeRow(v, n) in t.nodes && n.id == e.to
  }

  /** The query finds exactly the pair that the decision step uses. */
  lemma DecisionsReadTheRows(s: Sys, v: Uuid, edgeId: Uuid, e: Edge, n: Node)
    requires SysInv(s) && v in s.db.graphs
    ensures Joined(s.vs.t, v, edgeId, e, n) <==> LoadEdge(GraphOf(s.db, v), edgeId) == Some((e, n))
  {
    var t, g := s.vs.t, GraphOf(s.db, v);
    ListingCoherent(t, v, g);
    EdgeByIdFinds(g.edges, edgeId);
    NodeByIdFinds(g.nodes, e.to);
    if Joined(t, v, edgeId, e, n) {
      assert e in EdgesOf(t, v) && n in NodesOf(t, v);
      assert e in VersionScripts.EdgesSet(g.edges) && n in VersionScripts.NodesSet(g.nodes);
    }
  }

  /** In every reachable state: an edge is offered exactly when submitting it under an unused key is applied. */
  lemma OfferedIffApplied(db: Db, r: Request)
    requires Sound(db) && r.investigationId in db.investigations
    requires FindReplay(StepsOf(db.steps, r.investigationId), r.input) == Ok(None)
    ensures (exists e :: e in ChoicesFor(GraphFor(db, r.investigationId), db.investigations[r.investigationId]) && e.id == r.input.edgeId) <==>
      Apply(db, r).1.Ok?
  {
    var id := r.investigationId;
    var inv, g, c := db.investigations[id], GraphFor(db, id), Choice(r.input.edgeId, r.now);
    assert SoundAt(db, id) && Playable(GraphOf(db, inv.versionId));
    if e :| e in ChoicesFor(g, inv) && e.id == r.input.edgeId {
      OfferedIffAccepted(g, inv, e, r.now);
      AdvanceWrites(db, r);
    }
    if Apply(db, r).1.Ok? {
      SubmitMoves(g, inv, c);
      OfferedIffAccepted(g, inv, EdgeById(g.edges, c.edgeId).value, r.now);
    }
  }
}
